/**
 * Ordering of the habit list on the statistics page and the "best habit" card.
 * The list is sorted with the platform's stable sort: by completion rate,
 * longest streak or current streak, highest first; by title, alphabetically;
 * or by "worst streak", a figure the per-habit records do not carry, so every
 * comparison yields no number and is read as a tie.
 */
module HabitRanking {

  import opened Wrappers
  import opened HabitStats

  datatype SortBy = ByRate | ByBest | ByWorst | ByCurrent | ByName

  /** Title order: code-unit lexicographic, a proper prefix first. */
  predicate TitleLe(a: string, b: string) {
    |a| == 0 || (|b| > 0 && (a[0] < b[0] || (a[0] == b[0] && TitleLe(a[1..], b[1..]))))
  }

  lemma {:induction false} TitleLeTotal(a: string, b: string)
    ensures TitleLe(a, b) || TitleLe(b, a)
  {
    if |a| > 0 && |b| > 0 && a[0] == b[0] {
      TitleLeTotal(a[1..], b[1..]);
    }
  }

  lemma {:induction false} TitleLeTransitive(a: string, b: string, c: string)
    requires TitleLe(a, b) && TitleLe(b, c)
    ensures TitleLe(a, c)
  {
    if |a| > 0 && a[0] == b[0] && b[0] == c[0] {
      TitleLeTransitive(a[1..], b[1..], c[1..]);
    }
  }

  /** Whether a may be placed before b under the chosen criterion (ties go both ways). */
  predicate Precedes(a: HabitStat, b: HabitStat, key: SortBy) {
    match key
    case ByRate => a.completionRate >= b.completionRate
    case ByBest => a.longestStreak >= b.longestStreak
    case ByCurrent => a.currentStreak >= b.currentStreak
    case ByName => TitleLe(a.title, b.title)
    case ByWorst => true
  }

  /** a must come strictly before b. */
  predicate StrictlyBefore(a: HabitStat, b: HabitStat, key: SortBy) {
    Precedes(a, b, key) && !Precedes(b, a, key)
  }

  /** a and b tie. */
  predicate Tie(a: HabitStat, b: HabitStat, key: SortBy) {
    Precedes(a, b, key) && Precedes(b, a, key)
  }

  lemma PrecedesTotal(a: HabitStat, b: HabitStat, key: SortBy)
    ensures Precedes(a, b, key) || Precedes(b, a, key)
  {
    if key == ByName {
      TitleLeTotal(a.title, b.title);
    }
  }

  lemma PrecedesTransitive(a: HabitStat, b: HabitStat, c: HabitStat, key: SortBy)
    requires Precedes(a, b, key) && Precedes(b, c, key)
    ensures Precedes(a, c, key)
  {
    if key == ByName {
      TitleLeTransitive(a.title, b.title, c.title);
    }
  }

  predicate Sorted(s: seq<HabitStat>, key: SortBy) {
    forall i, j :: 0 <= i < j < |s| ==> Precedes(s[i], s[j], key)
  }

  /** Places x after every element of s that it does not strictly precede. */
  function Insert(x: HabitStat, s: seq<HabitStat>, key: SortBy): (r: seq<HabitStat>)
    ensures multiset(r) == multiset(s) + multiset{x}
    ensures |r| == |s| + 1
  {
    if s == [] then [x]
    else if StrictlyBefore(x, s[0], key) then [x] + s
    else
      assert s == [s[0]] + s[1..];
      [s[0]] + Insert(x, s[1..], key)
  }

  /** The list after a stable sort under the criterion. */
  function SortedHabits(stats: seq<HabitStat>, key: SortBy): (r: seq<HabitStat>)
    ensures multiset(r) == multiset(stats)
  {
    if stats == [] then []
    else
      var n := |stats| - 1;
      assert stats == stats[..n] + [stats[n]];
      Insert(stats[n], SortedHabits(stats[..n], key), key)
  }

  lemma {:induction false} InsertSorted(x: HabitStat, s: seq<HabitStat>, key: SortBy)
    requires Sorted(s, key)
    ensures Sorted(Insert(x, s, key), key)
  {
    if s != [] && !StrictlyBefore(x, s[0], key) {
      InsertSorted(x, s[1..], key);
      PrecedesTotal(x, s[0], key);
      var r := Insert(x, s[1..], key);
      forall k | 0 <= k < |r| ensures Precedes(s[0], r[k], key) {
        assert r[k] in multiset(r);
        if r[k] != x {
          assert r[k] in multiset(s[1..]);
          var j :| 0 <= j < |s[1..]| && s[1..][j] == r[k];
          assert s[j + 1] == r[k];
        }
      }
    } else if s != [] {
      forall k | 1 <= k < |s| + 1 ensures Precedes(x, ([x] + s)[k], key) {
        if k > 1 {
          PrecedesTransitive(x, s[0], s[k - 1], key);
        }
      }
    }
  }

  /** Sorting puts every habit no later than the ones it must precede. */
  lemma {:induction false} SortedHabitsOrdered(stats: seq<HabitStat>, key: SortBy)
    ensures Sorted(SortedHabits(stats, key), key)
  {
    if stats != [] {
      SortedHabitsOrdered(stats[..|stats| - 1], key);
      InsertSorted(stats[|stats| - 1], SortedHabits(stats[..|stats| - 1], key), key);
    }
  }

  /** The habits that tie with c, in list order. */
  function Ties(s: seq<HabitStat>, c: HabitStat, key: SortBy): seq<HabitStat> {
    if s == [] then [] else (if Tie(s[0], c, key) then [s[0]] else []) + Ties(s[1..], c, key)
  }

  lemma {:induction false} TiesAppend(a: seq<HabitStat>, b: seq<HabitStat>, c: HabitStat, key: SortBy)
    ensures Ties(a + b, c, key) == Ties(a, c, key) + Ties(b, c, key)
  {
    if a == [] {
      assert a + b == b;
    } else {
      assert (a + b)[1..] == a[1..] + b;
      TiesAppend(a[1..], b, c, key);
    }
  }

  lemma {:induction false} NoTiesAfter(x: HabitStat, s: seq<HabitStat>, c: HabitStat, key: SortBy)
    requires Sorted(s, key) && s != [] && StrictlyBefore(x, s[0], key) && Tie(x, c, key)
    ensures Ties(s, c, key) == []
  {
    if !Tie(s[0], c, key) {
      if |s| > 1 {
        PrecedesTransitive(x, s[0], s[1], key);
        if Precedes(s[1], x, key) {
          PrecedesTransitive(s[0], s[1], x, key);
        }
        NoTiesAfter(x, s[1..], c, key);
      }
    } else {
      PrecedesTransitive(s[0], c, x, key);
    }
  }

  lemma {:induction false} InsertTies(x: HabitStat, s: seq<HabitStat>, c: HabitStat, key: SortBy)
    requires Sorted(s, key)
    ensures Ties(Insert(x, s, key), c, key) == Ties(s, c, key) + (if Tie(x, c, key) then [x] else [])
    decreases |s|, 1
  {
    var tx: seq<HabitStat> := if Tie(x, c, key) then [x] else [];
    if s == [] {
      assert Insert(x, s, key) == [x];
      assert [x][1..] == [];
      assert Ties([x], c, key) == tx + Ties([], c, key);
    } else if StrictlyBefore(x, s[0], key) {
      assert Insert(x, s, key) == [x] + s;
      if Tie(x, c, key) {
        NoTiesAfter(x, s, c, key);
      }
      assert ([x] + s)[1..] == s;
      assert Ties([x] + s, c, key) == tx + Ties(s, c, key);
    } else {
      InsertTiesAfterHead(x, s, c, key);
    }
  }

  lemma {:induction false} InsertTiesAfterHead(x: HabitStat, s: seq<HabitStat>, c: HabitStat, key: SortBy)
    requires Sorted(s, key) && s != [] && !StrictlyBefore(x, s[0], key)
    ensures Ties(Insert(x, s, key), c, key) == Ties(s, c, key) + (if Tie(x, c, key) then [x] else [])
    decreases |s|, 0
  {
    var r := Insert(x, s[1..], key);
    assert Insert(x, s, key) == [s[0]] + r;
    assert Sorted(s[1..], key) by {
      forall i, j | 0 <= i < j < |s[1..]| ensures Precedes(s[1..][i], s[1..][j], key) {
        assert s[1..][i] == s[i + 1] && s[1..][j] == s[j + 1];
      }
    }
    InsertTies(x, s[1..], c, key);
    var t0: seq<HabitStat> := if Tie(s[0], c, key) then [s[0]] else [];
    assert ([s[0]] + r)[1..] == r;
    assert Ties([s[0]] + r, c, key) == t0 + Ties(r, c, key);
    assert Ties(s, c, key) == t0 + Ties(s[1..], c, key);
  }

  lemma TiesOfLast(s: seq<HabitStat>, c: HabitStat, key: SortBy)
    requires s != []
    ensures Ties(s, c, key) == Ties(s[..|s| - 1], c, key) + (if Tie(s[|s| - 1], c, key) then [s[|s| - 1]] else [])
  {
    var n := |s| - 1;
    assert s == s[..n] + [s[n]];
    TiesAppend(s[..n], [s[n]], c, key);
    assert [s[n]][1..] == [];
    assert Ties([s[n]], c, key) == (if Tie(s[n], c, key) then [s[n]] else []) + Ties([], c, key);
  }

  /** The sort is stable: the habits that tie with any c keep their relative order. */
  lemma {:induction false} SortedHabitsStable(stats: seq<HabitStat>, c: HabitStat, key: SortBy)
    ensures Ties(SortedHabits(stats, key), c, key) == Ties(stats, c, key)
  {
    if stats != [] {
      var n := |stats| - 1;
      var prefix := SortedHabits(stats[..n], key);
      assert SortedHabits(stats, key) == Insert(stats[n], prefix, key);
      SortedHabitsStable(stats[..n], c, key);
      SortedHabitsOrdered(stats[..n], key);
      InsertTies(stats[n], prefix, c, key);
      TiesOfLast(stats, c, key);
    }
  }

  /** Under the "worst streak" criterion every pair ties, so the list keeps its order. */
  lemma {:induction false} WorstKeepsOrder(stats: seq<HabitStat>)
    ensures SortedHabits(stats, ByWorst) == stats
  {
    if stats != [] {
      var n := |stats| - 1;
      WorstKeepsOrder(stats[..n]);
      AppendAtEnd(stats[n], stats[..n]);
      assert stats[..n] + [stats[n]] == stats;
    }
  }

  lemma {:induction false} AppendAtEnd(x: HabitStat, s: seq<HabitStat>)
    ensures Insert(x, s, ByWorst) == s + [x]
  {
    if s != [] {
      AppendAtEnd(x, s[1..]);
      assert [s[0]] + (s[1..] + [x]) == s + [x];
    }
  }

  /**
   * The best habit: none for an empty list; otherwise the habit with the
   * highest completion rate, the last one among equals.
   */
  function BestHabit(stats: seq<HabitStat>): (r: Option<HabitStat>)
    ensures r.None? <==> stats == []
    ensures r.Some? ==> exists i :: 0 <= i < |stats| && stats[i] == r.value && LastMaximum(stats, i)
  {
    if stats == [] then None
    else
      var n := |stats| - 1;
      var prev := BestHabit(stats[..n]);
      if prev.Some? && prev.value.completionRate > stats[n].completionRate then
        var i :| 0 <= i < n && stats[..n][i] == prev.value && LastMaximum(stats[..n], i);
        assert stats[i] == prev.value && LastMaximum(stats, i);
        prev
      else
        assert LastMaximum(stats, n) by {
          if prev.Some? {
            var i :| 0 <= i < n && stats[..n][i] == prev.value && LastMaximum(stats[..n], i);
            assert forall j :: 0 <= j < n ==> stats[..n][j] == stats[j];
          }
        }
        Some(stats[n])
  }

  /** stats[i] has the highest rate, and every later habit a lower one. */
  predicate LastMaximum(stats: seq<HabitStat>, i: nat)
    requires i < |stats|
  {
    (forall j :: 0 <= j < |stats| ==> stats[j].completionRate <= stats[i].completionRate)
    && (forall j :: i < j < |stats| ==> stats[j].completionRate < stats[i].completionRate)
  }
}
