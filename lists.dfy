/**
 * The array operations the statistics components chain together: `filter`,
 * `slice(0, n)` and the platform's stable `sort`, here on immutable sequences.
 * A sort with a numeric comparator `(a, b) => f(a) - f(b)` is `SortByKey(s, f)`;
 * the descending comparator `(a, b) => f(b) - f(a)` is the same sort on `-f`.
 */
module Lists {

  /** One more element of a prefix: the step a loop over `ys` takes. */
  lemma PrefixOfLongerPrefix<T>(ys: seq<T>, k: nat)
    requires k < |ys|
    ensures ys[..k + 1][..k] == ys[..k] && ys[..k + 1][k] == ys[k]
  {
  }

  /** A loop over `ys` ends with the whole of it. */
  lemma WholePrefix<T>(ys: seq<T>)
    ensures ys[..|ys|] == ys
  {
  }

  /** `s.filter(p)`: the elements satisfying p, in their original order. */
  function Filter<T>(s: seq<T>, p: T -> bool): (r: seq<T>)
    ensures |r| <= |s|
    ensures forall i :: 0 <= i < |r| ==> r[i] in s && p(r[i])
    ensures forall i :: 0 <= i < |s| && p(s[i]) ==> s[i] in r
  {
    if s == [] then []
    else if p(s[0]) then [s[0]] + Filter(s[1..], p)
    else Filter(s[1..], p)
  }

  /** `s.slice(0, n)`. */
  function Take<T>(s: seq<T>, n: nat): (r: seq<T>)
    ensures |r| == if |s| <= n then |s| else n
    ensures forall i :: 0 <= i < |r| ==> r[i] == s[i]
  {
    if |s| <= n then s else s[..n]
  }

  predicate Ascending<T>(s: seq<T>, key: T -> int) {
    forall i, j :: 0 <= i < j < |s| ==> key(s[i]) <= key(s[j])
  }

  /** Places x after every element of the sorted s whose key is not larger than x's. */
  function Insert<T>(x: T, s: seq<T>, key: T -> int): (r: seq<T>)
    ensures |r| == |s| + 1
    ensures multiset(r) == multiset(s) + multiset{x}
  {
    if s == [] then [x]
    else if key(x) < key(s[0]) then [x] + s
    else
      assert s == [s[0]] + s[1..];
      [s[0]] + Insert(x, s[1..], key)
  }

  /** The stable sort of s by ascending key: insertion of each element in turn. */
  function SortByKey<T>(s: seq<T>, key: T -> int): (r: seq<T>)
    ensures |r| == |s|
    ensures multiset(r) == multiset(s)
  {
    if s == [] then []
    else
      var n := |s| - 1;
      assert s == s[..n] + [s[n]];
      Insert(s[n], SortByKey(s[..n], key), key)
  }

  lemma {:induction false} InsertAscending<T>(x: T, s: seq<T>, key: T -> int)
    requires Ascending(s, key)
    ensures Ascending(Insert(x, s, key), key)
  {
    if s != [] && key(x) >= key(s[0]) {
      InsertAscending(x, s[1..], key);
      var r := Insert(x, s[1..], key);
      forall k | 0 <= k < |r| ensures key(s[0]) <= key(r[k]) {
        assert r[k] in multiset(r);
        if r[k] != x {
          assert r[k] in multiset(s[1..]);
          var j :| 0 <= j < |s[1..]| && s[1..][j] == r[k];
          assert s[j + 1] == r[k];
        }
      }
    }
  }

  /** The sort orders its result by key. */
  lemma {:induction false} SortByKeyAscending<T>(s: seq<T>, key: T -> int)
    ensures Ascending(SortByKey(s, key), key)
  {
    if s != [] {
      var n := |s| - 1;
      SortByKeyAscending(s[..n], key);
      InsertAscending(s[n], SortByKey(s[..n], key), key);
    }
  }

  /** The elements whose key is k, in order: what stability is about. */
  function WithKey<T>(s: seq<T>, key: T -> int, k: int): seq<T> {
    if s == [] then [] else (if key(s[0]) == k then [s[0]] else []) + WithKey(s[1..], key, k)
  }

  lemma {:induction false} WithKeyAppend<T>(a: seq<T>, b: seq<T>, key: T -> int, k: int)
    ensures WithKey(a + b, key, k) == WithKey(a, key, k) + WithKey(b, key, k)
  {
    if a != [] {
      assert (a + b)[1..] == a[1..] + b;
      WithKeyAppend(a[1..], b, key, k);
    } else {
      assert a + b == b;
    }
  }

  lemma {:induction false} WithKeyNone<T>(s: seq<T>, key: T -> int, k: int)
    requires forall i :: 0 <= i < |s| ==> key(s[i]) > k
    ensures WithKey(s, key, k) == []
  {
    if s != [] {
      WithKeyNone(s[1..], key, k);
    }
  }

  lemma {:induction false} InsertWithKey<T>(x: T, s: seq<T>, key: T -> int, k: int)
    requires Ascending(s, key)
    ensures WithKey(Insert(x, s, key), key, k) == WithKey(s, key, k) + (if key(x) == k then [x] else [])
  {
    if s == [] {
    } else if key(x) < key(s[0]) {
      if key(x) == k {
        WithKeyNone(s, key, k);
      }
      assert ([x] + s)[1..] == s;
    } else {
      InsertWithKey(x, s[1..], key, k);
      assert ([s[0]] + Insert(x, s[1..], key))[1..] == Insert(x, s[1..], key);
    }
  }

  /** Stability: elements with equal keys keep their original relative order. */
  lemma {:induction false} SortByKeyStable<T>(s: seq<T>, key: T -> int, k: int)
    ensures WithKey(SortByKey(s, key), key, k) == WithKey(s, key, k)
  {
    if s != [] {
      var n := |s| - 1;
      var sorted := SortByKey(s[..n], key);
      assert SortByKey(s, key) == Insert(s[n], sorted, key);
      SortByKeyStable(s[..n], key, k);
      SortByKeyAscending(s[..n], key);
      InsertWithKey(s[n], sorted, key, k);
      WithKeyAppend(s[..n], [s[n]], key, k);
      assert WithKey([s[n]], key, k) == if key(s[n]) == k then [s[n]] else [];
      assert s[..n] + [s[n]] == s;
    }
  }

  /** Sorting only rearranges: every element of the result comes from s, and every element of s is in it. */
  lemma SortByKeyMembers<T>(s: seq<T>, key: T -> int)
    ensures forall i :: 0 <= i < |SortByKey(s, key)| ==> SortByKey(s, key)[i] in s
    ensures forall i :: 0 <= i < |s| ==> s[i] in SortByKey(s, key)
  {
    var r := SortByKey(s, key);
    forall i | 0 <= i < |r| ensures r[i] in s {
      assert r[i] in multiset(r);
    }
    forall i | 0 <= i < |s| ensures s[i] in r {
      assert s[i] in multiset(s);
    }
  }

  /** The head of the sorted copy has the least key of all. */
  lemma SortedHeadIsLeast<T>(s: seq<T>, key: T -> int, x: T)
    requires x in s
    ensures SortByKey(s, key) != [] && key(SortByKey(s, key)[0]) <= key(x)
  {
    var r := SortByKey(s, key);
    SortByKeyAscending(s, key);
    assert x in multiset(r);
    var j :| 0 <= j < |r| && r[j] == x;
    if j > 0 {
      assert key(r[0]) <= key(r[j]);
    }
  }

  /** An element of s not among the first n of its sorted copy has a key no smaller than theirs. */
  lemma TopOfSorted<T>(s: seq<T>, key: T -> int, n: nat, x: T)
    requires x in s && 0 < n <= |s|
    ensures x in SortByKey(s, key)[..n] || key(SortByKey(s, key)[n - 1]) <= key(x)
  {
    var r := SortByKey(s, key);
    SortByKeyAscending(s, key);
    assert x in multiset(r);
    var j :| 0 <= j < |r| && r[j] == x;
    if j >= n {
      assert key(r[n - 1]) <= key(r[j]);
    } else {
      assert r[..n][j] == x;
    }
  }

  /** The first element with key k is the first entry of s with that key. */
  lemma {:induction false} WithKeyHead<T>(s: seq<T>, key: T -> int, k: int)
    requires WithKey(s, key, k) != []
    ensures exists i :: 0 <= i < |s| && WithKey(s, key, k)[0] == s[i] && key(s[i]) == k && forall j :: 0 <= j < i ==> key(s[j]) != k
  {
    if key(s[0]) != k {
      WithKeyHead(s[1..], key, k);
      var i :| 0 <= i < |s[1..]| && WithKey(s[1..], key, k)[0] == s[1..][i] && key(s[1..][i]) == k
        && forall j :: 0 <= j < i ==> key(s[1..][j]) != k;
      forall j | 0 <= j < i + 1 ensures key(s[j]) != k {
        if j > 0 {
          assert s[j] == s[1..][j - 1];
        }
      }
    }
  }

  /** The head of the sorted copy is the first element of s with the least key: earlier ones have larger keys. */
  lemma SortedHeadIsFirstLeast<T>(s: seq<T>, key: T -> int)
    requires s != []
    ensures exists i :: 0 <= i < |s| && SortByKey(s, key)[0] == s[i] && forall j :: 0 <= j < i ==> key(s[i]) < key(s[j])
  {
    var r := SortByKey(s, key);
    var k := key(r[0]);
    SortByKeyStable(s, key, k);
    assert WithKey(r, key, k) == [r[0]] + WithKey(r[1..], key, k);
    WithKeyHead(s, key, k);
    var i :| 0 <= i < |s| && WithKey(s, key, k)[0] == s[i] && key(s[i]) == k && forall j :: 0 <= j < i ==> key(s[j]) != k;
    forall j | 0 <= j < i ensures key(s[i]) < key(s[j]) {
      SortedHeadIsLeast(s, key, s[j]);
    }
  }

  predicate DistinctKeys<T>(s: seq<T>, key: T -> int) {
    forall i, j :: 0 <= i < j < |s| ==> key(s[i]) != key(s[j])
  }

  lemma {:induction false} InsertDistinct<T>(x: T, s: seq<T>, key: T -> int)
    requires DistinctKeys(s, key) && forall y <- s :: key(y) != key(x)
    ensures DistinctKeys(Insert(x, s, key), key)
  {
    if s != [] && key(x) >= key(s[0]) {
      var r := Insert(x, s[1..], key);
      InsertDistinct(x, s[1..], key);
      forall k | 0 <= k < |r| ensures key(s[0]) != key(r[k]) {
        assert r[k] in multiset(r);
        if r[k] != x {
          assert r[k] in multiset(s[1..]);
          var j :| 0 <= j < |s[1..]| && s[1..][j] == r[k];
          assert s[j + 1] == r[k];
        }
      }
      assert Insert(x, s, key) == [s[0]] + r;
    }
  }

  /** Sorting elements whose keys differ gives keys that differ, so an ascending result is strictly ascending. */
  lemma {:induction false} SortByKeyDistinct<T>(s: seq<T>, key: T -> int)
    requires DistinctKeys(s, key)
    ensures DistinctKeys(SortByKey(s, key), key)
    ensures forall i, j :: 0 <= i < j < |s| ==> key(SortByKey(s, key)[i]) < key(SortByKey(s, key)[j])
  {
    if s != [] {
      var n := |s| - 1;
      var sorted := SortByKey(s[..n], key);
      SortByKeyDistinct(s[..n], key);
      forall y <- sorted ensures key(y) != key(s[n]) {
        assert y in multiset(sorted);
        var j :| 0 <= j < n && s[..n][j] == y;
      }
      InsertDistinct(s[n], sorted, key);
    }
    SortByKeyAscending(s, key);
  }
}
