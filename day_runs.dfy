/**
 * Sets of days listed in ascending order (what sorting `yyyy-MM-dd` keys
 * gives), and runs of dates exactly one day apart in such a list.
 */
module DayRuns {

  import opened Arith
  import opened Lists

  lemma NonEmptyHasElement(s: set<int>)
    requires s != {}
    ensures exists x :: x in s
  {
    if forall x :: x !in s {
      assert false;
    }
  }

  lemma {:induction false} LeastExists(s: set<int>)
    requires s != {}
    ensures exists m :: m in s && forall y :: y in s ==> m <= y
    decreases |s|
  {
    NonEmptyHasElement(s);
    var x :| x in s;
    if s != {x} {
      LeastExists(s - {x});
      var r :| r in s - {x} && forall y :: y in s - {x} ==> r <= y;
      var m := if x < r then x else r;
      forall y | y in s ensures m <= y {
        if y != x {
          assert y in s - {x};
        }
      }
    } else {
      forall y | y in s ensures x <= y { }
    }
  }

  lemma ProperSubsetSmaller(a: set<int>, b: set<int>)
    requires a < b
    ensures |a| < |b|
  {
    assert b == a + (b - a);
    assert b - a != {};
  }

  lemma SubsetSmaller(a: set<int>, b: set<int>)
    requires a <= b
    ensures |a| <= |b|
  {
    assert b == a + (b - a);
  }

  lemma RemoveOne(s: set<int>, m: int)
    ensures |s - {m}| == |s| - (if m in s then 1 else 0)
  {
    if m in s {
      assert s == (s - {m}) + {m};
    } else {
      assert s - {m} == s;
    }
  }

  /** The earliest day of a non-empty set. */
  function Least(s: set<int>): (m: int)
    requires s != {}
    ensures m in s && forall y :: y in s ==> m <= y
  {
    LeastExists(s);
    var m :| m in s && forall y :: y in s ==> m <= y;
    m
  }

  predicate Increasing(ds: seq<int>) {
    forall i, j :: 0 <= i < j < |ds| ==> ds[i] < ds[j]
  }

  /** The days of s in ascending order, each once. */
  function SortedDays(s: set<int>): (r: seq<int>)
    ensures Increasing(r)
    ensures forall x :: x in s <==> x in r
    ensures |r| == |s|
    decreases |s|
  {
    if s == {} then []
    else
      var m := Least(s);
      [m] + SortedDays(s - {m})
  }

  /** ds[i..j] (both ends included) are dates exactly one day apart. */
  predicate Consecutive(ds: seq<int>, i: int, j: int) {
    0 <= i <= j < |ds| && forall k :: i <= k < j ==> ds[k + 1] == ds[k] + 1
  }

  /** Length of the run of dates one day apart that ends at ds[i]. */
  function RunEndingAt(ds: seq<int>, i: nat): (n: nat)
    requires i < |ds|
    ensures 1 <= n <= i + 1
  {
    if i == 0 then 1
    else if ds[i] - ds[i - 1] == 1 then RunEndingAt(ds, i - 1) + 1
    else 1
  }

  /** The longest such run among the first n dates. */
  function LongestUpTo(ds: seq<int>, n: nat): nat
    requires n <= |ds|
  {
    if n == 0 then 0 else Max(LongestUpTo(ds, n - 1), RunEndingAt(ds, n - 1))
  }

  function LongestRun(ds: seq<int>): nat {
    LongestUpTo(ds, |ds|)
  }

  /** The run ending at ds[i] is a window of consecutive dates that cannot be extended to the left. */
  lemma {:induction false} RunEndingAtIsWindow(ds: seq<int>, i: nat)
    requires i < |ds|
    ensures Consecutive(ds, i - RunEndingAt(ds, i) + 1, i)
    ensures i - RunEndingAt(ds, i) + 1 > 0 ==>
      ds[i - RunEndingAt(ds, i) + 1] - ds[i - RunEndingAt(ds, i)] != 1
  {
    if i > 0 && ds[i] - ds[i - 1] == 1 {
      RunEndingAtIsWindow(ds, i - 1);
    }
  }

  /** Any window of consecutive dates ending at ds[j] is no longer than the run ending there. */
  lemma {:induction false} WindowAtMostRun(ds: seq<int>, i: nat, j: nat)
    requires Consecutive(ds, i, j)
    ensures j - i + 1 <= RunEndingAt(ds, j)
    decreases j
  {
    if i < j {
      WindowAtMostRun(ds, i, j - 1);
    }
  }

  lemma {:induction false} LongestUpToBounds(ds: seq<int>, n: nat)
    requires n <= |ds|
    ensures n == 0 ==> LongestUpTo(ds, n) == 0
    ensures n > 0 ==> 1 <= LongestUpTo(ds, n) <= n
    ensures forall j :: 0 <= j < n ==> RunEndingAt(ds, j) <= LongestUpTo(ds, n)
    ensures n > 0 ==> exists j :: 0 <= j < n && RunEndingAt(ds, j) == LongestUpTo(ds, n)
  {
    if n > 0 {
      LongestUpToBounds(ds, n - 1);
    }
  }

  /**
   * The longest run: 0 for no dates, otherwise between 1 and the number of
   * dates; no window of dates one day apart is longer, and one is that long.
   */
  lemma LongestRunIsLongestWindow(ds: seq<int>)
    ensures ds == [] <==> LongestRun(ds) == 0
    ensures LongestRun(ds) <= |ds|
    ensures forall i, j :: Consecutive(ds, i, j) ==> j - i + 1 <= LongestRun(ds)
    ensures ds != [] ==> exists i, j :: Consecutive(ds, i, j) && j - i + 1 == LongestRun(ds)
  {
    LongestUpToBounds(ds, |ds|);
    forall i, j | Consecutive(ds, i, j) ensures j - i + 1 <= LongestRun(ds) {
      WindowAtMostRun(ds, i, j);
    }
    if ds != [] {
      var j :| 0 <= j < |ds| && RunEndingAt(ds, j) == LongestRun(ds);
      RunEndingAtIsWindow(ds, j);
    }
  }

  /** In an ascending list, a day that is in the list right after ds[i] is ds[i + 1]. */
  lemma NextDayIsNextEntry(ds: seq<int>, i: nat)
    requires Increasing(ds) && i < |ds| && ds[i] + 1 in ds
    ensures i + 1 < |ds| && ds[i + 1] == ds[i] + 1
  {
    var m :| 0 <= m < |ds| && ds[m] == ds[i] + 1;
  }

  /** k calendar days in a row, a .. a + k - 1, all in an ascending list form a window of it. */
  lemma {:induction false} DaysInARowFormWindow(ds: seq<int>, a: int, k: nat)
    requires Increasing(ds) && k > 0
    requires forall d :: a <= d < a + k ==> d in ds
    ensures exists i :: 0 <= i && i + k - 1 < |ds| && ds[i] == a && Consecutive(ds, i, i + k - 1)
  {
    if k == 1 {
      assert a in ds;
      var i :| 0 <= i < |ds| && ds[i] == a;
      assert Consecutive(ds, i, i);
    } else {
      DaysInARowFormWindow(ds, a, k - 1);
      var i :| 0 <= i && i + k - 2 < |ds| && ds[i] == a && Consecutive(ds, i, i + k - 2);
      var last := i + k - 2;
      ConsecutiveOffset(ds, i, last);
      assert ds[last] + 1 in ds;
      NextDayIsNextEntry(ds, last);
      ConsecutiveExtend(ds, i, last);
    }
  }

  lemma ConsecutiveExtend(ds: seq<int>, i: nat, j: nat)
    requires Consecutive(ds, i, j) && j + 1 < |ds| && ds[j + 1] == ds[j] + 1
    ensures Consecutive(ds, i, j + 1)
  {
  }

  lemma {:induction false} ConsecutiveOffset(ds: seq<int>, i: nat, j: nat)
    requires Consecutive(ds, i, j)
    ensures ds[j] == ds[i] + (j - i)
    decreases j
  {
    if i < j {
      ConsecutiveOffset(ds, i, j - 1);
    }
  }

  /** So k days in a row in the list is never more than its longest run. */
  lemma DaysInARowAtMostLongest(ds: seq<int>, a: int, k: nat)
    requires Increasing(ds)
    requires forall d :: a <= d < a + k ==> d in ds
    ensures k <= LongestRun(ds)
  {
    if k > 0 {
      DaysInARowFormWindow(ds, a, k);
      var i :| 0 <= i && i + k - 1 < |ds| && ds[i] == a && Consecutive(ds, i, i + k - 1);
      LongestRunIsLongestWindow(ds);
    }
  }

  /** Distinct days between lo and hi number at most hi - lo + 1. */
  lemma {:induction false} DaysInRangeBound(s: set<int>, lo: int, hi: int)
    requires forall x :: x in s ==> lo <= x <= hi
    ensures s != {} ==> |s| <= hi - lo + 1
    decreases |s|
  {
    if s != {} {
      var m := Least(s);
      RemoveOne(s, m);
      DaysInRangeBound(s - {m}, m + 1, hi);
    }
  }

  /** Fewer days never make a longer run: the longest run of a subset is at most that of the whole. */
  lemma SubsetLongestRun(a: set<int>, b: set<int>)
    requires a <= b
    ensures LongestRun(SortedDays(a)) <= LongestRun(SortedDays(b))
  {
    var da := SortedDays(a);
    LongestRunIsLongestWindow(da);
    if da != [] {
      var i, j :| Consecutive(da, i, j) && j - i + 1 == LongestRun(da);
      var k := j - i + 1;
      forall d | da[i] <= d < da[i] + k ensures d in SortedDays(b) {
        assert Consecutive(da, i, i + (d - da[i]));
        ConsecutiveOffset(da, i, i + (d - da[i]));
        assert d in da;
      }
      DaysInARowAtMostLongest(SortedDays(b), da[i], k);
    }
  }
}
