/**
 * Streak counters. Every streak in the statistics code is the same machine: walk
 * over days, and at each day either count it (`Inc`), leave the counter as it is
 * (`Hold`, e.g. a skipped day), or set it back to zero (`Reset`). What differs
 * between the screens is only how a day's status maps to a step. This module
 * defines the counter and proves what its maximum means: the largest number of
 * counted days in any stretch of days that contains no reset.
 */
module Runs {

  import opened Arith

  datatype Step = Inc | Hold | Reset

  /** Number of counted days in s. */
  function Incs(s: seq<Step>): (n: nat)
    ensures n <= |s|
  {
    if s == [] then 0 else Incs(s[..|s| - 1]) + (if s[|s| - 1] == Inc then 1 else 0)
  }

  /** The running counter after the last step of s. */
  function Tail(s: seq<Step>): nat {
    if s == [] then 0
    else
      match s[|s| - 1]
      case Inc => Tail(s[..|s| - 1]) + 1
      case Hold => Tail(s[..|s| - 1])
      case Reset => 0
  }

  /** The largest value the running counter takes while walking s. */
  function Best(s: seq<Step>): nat {
    if s == [] then 0 else Max(Best(s[..|s| - 1]), Tail(s))
  }

  /** The counter read from the front of s until the first reset. */
  function LeadRun(s: seq<Step>): nat {
    if s == [] then 0
    else
      match s[0]
      case Inc => 1 + LeadRun(s[1..])
      case Hold => LeadRun(s[1..])
      case Reset => 0
  }

  /** A stretch of days whose counted days form one streak. */
  ghost predicate Unbroken(s: seq<Step>) {
    Reset !in s
  }

  lemma {:induction false} IncsAppend(a: seq<Step>, b: seq<Step>)
    ensures Incs(a + b) == Incs(a) + Incs(b)
    decreases |b|
  {
    if b != [] {
      var b' := b[..|b| - 1];
      assert (a + b)[..|a + b| - 1] == a + b';
      IncsAppend(a, b');
    } else {
      assert a + b == a;
    }
  }

  /** Every unbroken suffix counts at most what the counter holds at the end. */
  lemma {:induction false} TailBound(s: seq<Step>, i: nat)
    requires i <= |s| && Unbroken(s[i..])
    ensures Incs(s[i..]) <= Tail(s)
    decreases |s|
  {
    if i < |s| {
      var p := s[..|s| - 1];
      assert s[i..] == p[i..] + [s[|s| - 1]];
      assert s[|s| - 1] in s[i..];
      IncsAppend(p[i..], [s[|s| - 1]]);
      assert [s[|s| - 1]][..0] == [];
      TailBound(p, i);
    }
  }

  /** The counter at the end is the count of the unbroken suffix after the last reset. */
  lemma {:induction false} TailAttained(s: seq<Step>)
    ensures exists i :: 0 <= i <= |s| && Unbroken(s[i..]) && Incs(s[i..]) == Tail(s)
    decreases |s|
  {
    if s == [] {
      assert s[0..] == [];
    } else {
      var p, x := s[..|s| - 1], s[|s| - 1];
      if x == Reset {
        assert s[|s|..] == [];
      } else {
        TailAttained(p);
        var i :| 0 <= i <= |p| && Unbroken(p[i..]) && Incs(p[i..]) == Tail(p);
        assert s[i..] == p[i..] + [x];
        IncsAppend(p[i..], [x]);
        assert [x][..0] == [];
      }
    }
  }

  lemma {:induction false} BestOfPrefix(s: seq<Step>, n: nat)
    requires n <= |s|
    ensures Best(s[..n]) <= Best(s)
    decreases |s| - n
  {
    if n < |s| {
      assert s[..n + 1][..n] == s[..n];
      BestOfPrefix(s, n + 1);
    } else {
      assert s[..n] == s;
    }
  }

  /** No stretch of days without a reset counts more than the best streak. */
  lemma SegmentBound(s: seq<Step>, i: nat, j: nat)
    requires i <= j <= |s| && Unbroken(s[i..j])
    ensures Incs(s[i..j]) <= Best(s)
  {
    assert s[..j][i..] == s[i..j];
    TailBound(s[..j], i);
    BestOfPrefix(s, j);
  }

  /** The best streak is the count of some stretch of days without a reset. */
  lemma {:induction false} BestAttained(s: seq<Step>)
    ensures exists i, j :: 0 <= i <= j <= |s| && Unbroken(s[i..j]) && Incs(s[i..j]) == Best(s)
    decreases |s|
  {
    if s == [] {
      assert s[0..0] == [];
    } else {
      var p := s[..|s| - 1];
      if Best(p) >= Tail(s) {
        BestAttained(p);
        var i, j :| 0 <= i <= j <= |p| && Unbroken(p[i..j]) && Incs(p[i..j]) == Best(p);
        assert s[i..j] == p[i..j];
      } else {
        TailAttained(s);
        var i :| 0 <= i <= |s| && Unbroken(s[i..]) && Incs(s[i..]) == Tail(s);
        assert s[i..|s|] == s[i..];
      }
    }
  }

  /** Best(s) is exactly the longest streak: an upper bound on every unbroken stretch, and reached by one. */
  lemma BestIsLongestStreak(s: seq<Step>)
    ensures forall i, j :: 0 <= i <= j <= |s| && Unbroken(s[i..j]) ==> Incs(s[i..j]) <= Best(s)
    ensures exists i, j :: 0 <= i <= j <= |s| && Unbroken(s[i..j]) && Incs(s[i..j]) == Best(s)
  {
    forall i, j | 0 <= i <= j <= |s| && Unbroken(s[i..j]) ensures Incs(s[i..j]) <= Best(s) {
      SegmentBound(s, i, j);
    }
    BestAttained(s);
  }

  lemma TailAtMostBest(s: seq<Step>)
    ensures Tail(s) <= Best(s)
  {
  }

  lemma {:induction false} BestAtMostIncs(s: seq<Step>)
    ensures Best(s) <= Incs(s)
  {
    BestAttained(s);
    var i, j :| 0 <= i <= j <= |s| && Unbroken(s[i..j]) && Incs(s[i..j]) == Best(s);
    assert s == s[..i] + s[i..j] + s[j..];
    IncsAppend(s[..i] + s[i..j], s[j..]);
    IncsAppend(s[..i], s[i..j]);
  }

  /** The run read from the front is the count of the unbroken prefix before the first reset. */
  lemma {:induction false} LeadRunIsPrefix(s: seq<Step>)
    ensures exists k :: 0 <= k <= |s| && Unbroken(s[..k]) && Incs(s[..k]) == LeadRun(s)
    decreases |s|
  {
    if s == [] {
      assert s[..0] == [];
    } else if s[0] == Reset {
      assert s[..0] == [];
    } else {
      LeadRunIsPrefix(s[1..]);
      var k :| 0 <= k <= |s[1..]| && Unbroken(s[1..][..k]) && Incs(s[1..][..k]) == LeadRun(s[1..]);
      assert s[..k + 1] == [s[0]] + s[1..][..k];
      IncsAppend([s[0]], s[1..][..k]);
      assert [s[0]][..0] == [];
    }
  }

  /** A run read from the front of any suffix is no longer than the best streak. */
  lemma {:induction false} LeadRunAtMostBest(s: seq<Step>, i: nat)
    requires i <= |s|
    ensures LeadRun(s[i..]) <= Best(s)
  {
    var t := s[i..];
    LeadRunIsPrefix(t);
    var k :| 0 <= k <= |t| && Unbroken(t[..k]) && Incs(t[..k]) == LeadRun(t);
    assert s[i..i + k] == t[..k];
    SegmentBound(s, i, i + k);
  }

  /** Read from the front, the counter stops at the first reset (or the end). */
  lemma {:induction false} LeadRunUntilReset(s: seq<Step>, k: nat)
    requires k <= |s| && Unbroken(s[..k]) && (k == |s| || s[k] == Reset)
    ensures LeadRun(s) == Incs(s[..k])
    decreases k
  {
    if k > 0 {
      assert s[1..][..k - 1] == s[1..k];
      assert s[..k] == [s[0]] + s[1..k];
      LeadRunUntilReset(s[1..], k - 1);
      IncsAppend([s[0]], s[1..k]);
      assert [s[0]][..0] == [];
    }
  }

  /** A stretch of counted days only is unbroken and counts its whole length. */
  lemma {:induction false} IncsOfStreak(s: seq<Step>)
    requires forall i :: 0 <= i < |s| ==> s[i] == Inc
    ensures Incs(s) == |s| && Unbroken(s)
  {
    if s != [] {
      IncsOfStreak(s[..|s| - 1]);
    }
  }

  /** One more step: how each counter moves when s[i] is appended to s[..i]. */
  lemma StepPrefix(s: seq<Step>, i: nat)
    requires i < |s|
    ensures s[..i + 1][..i] == s[..i]
    ensures Incs(s[..i + 1]) == Incs(s[..i]) + (if s[i] == Inc then 1 else 0)
    ensures Tail(s[..i + 1]) == (match s[i] case Inc => Tail(s[..i]) + 1 case Hold => Tail(s[..i]) case Reset => 0)
    ensures Best(s[..i + 1]) == Max(Best(s[..i]), Tail(s[..i + 1]))
  {
    assert s[..i + 1][..i] == s[..i];
  }
}
