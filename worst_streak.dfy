/**
 * The worst-streak analysis panel: from each habit's completion rate, longest
 * streak and worst (longest negative) streak it ranks the three worst habits,
 * estimates monthly failures and recovery times, compares best against worst
 * streaks, and proposes up to four suggestions. The worst streak is an input
 * here: the per-habit statistics record does not compute it.
 */
module WorstStreak {

  import opened Wrappers
  import opened Arith
  import opened Rounding
  import opened Habits
  import opened Lists

  datatype StreakProfile = StreakProfile(
    id: HabitId, title: string, completionRate: nat, longestStreak: nat, worstStreak: nat)

  /** Completion rates are percentages, as the statistics hook produces them. */
  predicate RatesValid(habits: seq<StreakProfile>) {
    forall h <- habits :: h.completionRate <= 100
  }

  function HasWorst(h: StreakProfile): bool {
    h.worstStreak > 0
  }

  /** Sort key for `b.worstStreak - a.worstStreak`. */
  function NegWorst(h: StreakProfile): int {
    -(h.worstStreak as int)
  }

  // ---------------------------------------------------------------- top three

  /** `[...habits].filter(worstStreak > 0).sort(by worstStreak, highest first).slice(0, 3)`. */
  function Top3Worst(habits: seq<StreakProfile>): (top: seq<StreakProfile>)
    ensures |top| <= 3
    ensures forall i :: 0 <= i < |top| ==> top[i] in habits && top[i].worstStreak > 0
  {
    var f := Filter(habits, HasWorst);
    SortByKeyMembers(f, NegWorst);
    Take(SortByKey(f, NegWorst), 3)
  }

  /** The three worst streaks, highest first, are really the highest, and there are none only when no habit has a worst streak. */
  lemma Top3WorstFacts(habits: seq<StreakProfile>)
    ensures var top := Top3Worst(habits);
      && (top == [] <==> forall h <- habits :: h.worstStreak == 0)
      && (forall i, j :: 0 <= i < j < |top| ==> top[i].worstStreak >= top[j].worstStreak)
      && (forall h <- habits :: h.worstStreak > 0 ==> h in top || (|top| == 3 && h.worstStreak <= top[2].worstStreak))
  {
    var f := Filter(habits, HasWorst);
    var sorted := SortByKey(f, NegWorst);
    var top := Top3Worst(habits);
    SortByKeyAscending(f, NegWorst);
    SortByKeyMembers(f, NegWorst);
    forall h <- habits | h.worstStreak > 0
      ensures h in top || (|top| == 3 && h.worstStreak <= top[2].worstStreak)
    {
      var k :| 0 <= k < |habits| && habits[k] == h;
      var j :| 0 <= j < |f| && f[j] == h;
      if |f| > 3 {
        TopOfSorted(f, NegWorst, 3, h);
      }
    }
  }

  // ---------------------------------------------------------------- failures

  datatype FailureEntry = FailureEntry(
    id: HabitId, title: string, worstStreak: nat, failureFrequency: nat, completionRate: nat)

  /** `Math.round(30 * (100 - rate) / 100)`: estimated failed days per 30-day month. */
  function FailureFrequency(rate: nat): (f: nat)
    requires rate <= 100
    ensures f <= 30
    ensures rate == 0 ==> f == 30
    ensures rate == 100 ==> f == 0
  {
    RoundDiv(30 * (100 - rate), 100)
  }

  /** A lower completion rate never gives fewer estimated failures. */
  lemma FailureFrequencyAntitone(r1: nat, r2: nat)
    requires r1 <= r2 <= 100
    ensures FailureFrequency(r2) <= FailureFrequency(r1)
  {
    var a, b := FailureFrequency(r1), FailureFrequency(r2);
    MulMonotone(200, a + 1, b);
  }

  function FailureOf(h: StreakProfile): (e: FailureEntry)
    requires h.completionRate <= 100
  {
    FailureEntry(h.id, h.title, h.worstStreak, FailureFrequency(h.completionRate), h.completionRate)
  }

  /** `top3Worst.map(...)`: one entry per ranked habit, in the same order. */
  function FailureAnalysis(top: seq<StreakProfile>): (fs: seq<FailureEntry>)
    requires RatesValid(top)
    ensures |fs| == |top|
    ensures forall i :: 0 <= i < |fs| ==>
      fs[i].id == top[i].id && fs[i].worstStreak == top[i].worstStreak
      && fs[i].completionRate == top[i].completionRate && fs[i].failureFrequency <= 30
  {
    seq(|top|, i requires 0 <= i < |top| => FailureOf(top[i]))
  }

  function SumFailures(fs: seq<FailureEntry>): nat {
    if fs == [] then 0 else SumFailures(fs[..|fs| - 1]) + fs[|fs| - 1].failureFrequency
  }

  lemma {:induction false} SumFailuresBound(fs: seq<FailureEntry>)
    requires forall i :: 0 <= i < |fs| ==> fs[i].failureFrequency <= 30
    ensures SumFailures(fs) <= 30 * |fs|
  {
    if fs != [] {
      SumFailuresBound(fs[..|fs| - 1]);
    }
  }

  /** `Math.round(totalFailures / failureAnalysis.length)` for the "general pattern" suggestion. */
  function AverageFailures(fs: seq<FailureEntry>): (a: nat)
    requires |fs| > 0
  {
    RoundDiv(SumFailures(fs), |fs|)
  }

  /** The mean estimate is itself a monthly estimate: at most 30. */
  lemma AverageFailuresBound(top: seq<StreakProfile>)
    requires RatesValid(top) && |top| > 0
    ensures AverageFailures(FailureAnalysis(top)) <= 30
  {
    var fs := FailureAnalysis(top);
    var a := AverageFailures(fs);
    SumFailuresBound(fs);
    MulMonotone(2 * |fs|, 31, a);
  }

  /** `failureAnalysis.find(f => f.completionRate < 50)`. */
  function FirstLow(fs: seq<FailureEntry>): (r: Option<FailureEntry>)
    ensures r.None? <==> forall i :: 0 <= i < |fs| ==> fs[i].completionRate >= 50
    ensures r.Some? ==> exists i :: (0 <= i < |fs| && fs[i] == r.value && fs[i].completionRate < 50
                                     && forall j :: 0 <= j < i ==> fs[j].completionRate >= 50)
  {
    if fs == [] then None
    else if fs[0].completionRate < 50 then Some(fs[0])
    else
      var r := FirstLow(fs[1..]);
      if r.Some? then
        var i :| 0 <= i < |fs[1..]| && fs[1..][i] == r.value && fs[1..][i].completionRate < 50
          && forall j :: 0 <= j < i ==> fs[1..][j].completionRate >= 50;
        assert fs[i + 1] == r.value;
        assert forall j :: 1 <= j < i + 1 ==> fs[j] == fs[1..][j - 1];
        r
      else
        assert forall i :: 1 <= i < |fs| ==> fs[i] == fs[1..][i - 1];
        r
  }

  // ---------------------------------------------------------------- recovery

  datatype Recovery = Recovery(id: HabitId, title: string, recoveryTime: nat, worstStreak: nat)

  function Recoverable(h: StreakProfile): bool {
    h.worstStreak > 0 && h.longestStreak > 0
  }

  /**
   * `Math.max(Math.round(worstStreak * (100 - rate) / 100), 1)`: at least one
   * day, at most the worst streak itself. (The source's `: 0` alternative is
   * for a worst streak of 0, which the filter has already excluded.)
   */
  function RecoveryTime(worst: nat, rate: nat): (t: nat)
    requires worst > 0 && rate <= 100
    ensures 1 <= t <= worst
    ensures rate == 100 ==> t == 1
  {
    var est := RoundDiv(worst * (100 - rate), 100);
    EstimateAtMostStreak(worst, rate, est);
    Max(est, 1)
  }

  /** A rounded share of the worst streak is no longer than the streak. */
  lemma EstimateAtMostStreak(worst: nat, rate: nat, est: nat)
    requires rate <= 100
    requires 200 * est <= 2 * (worst * (100 - rate)) + 100
    ensures est <= worst
  {
    MulMonotone(worst, 100 - rate, 100);
  }

  function RecoveryOf(h: StreakProfile): Recovery
    requires Recoverable(h) && h.completionRate <= 100
  {
    Recovery(h.id, h.title, RecoveryTime(h.worstStreak, h.completionRate), h.worstStreak)
  }

  function RecoveryKey(r: Recovery): int {
    r.recoveryTime
  }

  function MapRecovery(s: seq<StreakProfile>): (rs: seq<Recovery>)
    requires forall h <- s :: Recoverable(h) && h.completionRate <= 100
    ensures |rs| == |s|
    ensures forall i :: 0 <= i < |s| ==> rs[i] == RecoveryOf(s[i])
  {
    seq(|s|, i requires 0 <= i < |s| => RecoveryOf(s[i]))
  }

  /** `habitStats.filter(worst > 0 && longest > 0).map(...).sort(by recoveryTime, lowest first)`. */
  function RecoveryPatterns(habits: seq<StreakProfile>): (rs: seq<Recovery>)
    requires RatesValid(habits)
  {
    var f := Filter(habits, Recoverable);
    assert forall i :: 0 <= i < |f| ==> f[i] in habits;
    SortByKey(MapRecovery(f), RecoveryKey)
  }

  /** Recovery estimates are one per habit with both streaks, each in [1, worst streak], fastest first. */
  lemma RecoveryPatternsFacts(habits: seq<StreakProfile>)
    requires RatesValid(habits)
    ensures var rs := RecoveryPatterns(habits);
      && |rs| == |Filter(habits, Recoverable)|
      && (forall i :: 0 <= i < |rs| ==> 1 <= rs[i].recoveryTime <= rs[i].worstStreak)
      && (forall i, j :: 0 <= i < j < |rs| ==> rs[i].recoveryTime <= rs[j].recoveryTime)
  {
    var f := Filter(habits, Recoverable);
    assert forall i :: 0 <= i < |f| ==> f[i] in habits;
    var m := MapRecovery(f);
    var rs := RecoveryPatterns(habits);
    SortByKeyAscending(m, RecoveryKey);
    forall i | 0 <= i < |rs| ensures 1 <= rs[i].recoveryTime <= rs[i].worstStreak {
      assert rs[i] in multiset(m);
      var k :| 0 <= k < |m| && m[k] == rs[i];
    }
  }

  function SumRecovery(rs: seq<Recovery>): nat {
    if rs == [] then 0 else SumRecovery(rs[..|rs| - 1]) + rs[|rs| - 1].recoveryTime
  }

  /** `Math.round(sum / length)`, or 0 for no entries. */
  function AverageRecovery(rs: seq<Recovery>): nat {
    if |rs| > 0 then RoundDiv(SumRecovery(rs), |rs|) else 0
  }

  lemma {:induction false} SumRecoveryAtLeast(rs: seq<Recovery>)
    requires forall i :: 0 <= i < |rs| ==> rs[i].recoveryTime >= 1
    ensures SumRecovery(rs) >= |rs|
  {
    if rs != [] {
      SumRecoveryAtLeast(rs[..|rs| - 1]);
    }
  }

  /** Every estimate is at least a day, so a non-empty average is too. */
  lemma AverageRecoveryPositive(habits: seq<StreakProfile>)
    requires RatesValid(habits)
    ensures RecoveryPatterns(habits) != [] ==> AverageRecovery(RecoveryPatterns(habits)) >= 1
  {
    var rs := RecoveryPatterns(habits);
    RecoveryPatternsFacts(habits);
    SumRecoveryAtLeast(rs);
  }

  /** The fastest three are the three smallest estimates. */
  lemma FastestAreFastest(habits: seq<StreakProfile>, r: Recovery)
    requires RatesValid(habits)
    requires r in RecoveryPatterns(habits)
    ensures var fastest := Take(RecoveryPatterns(habits), 3);
      |fastest| <= 3 && (r in fastest || r.recoveryTime >= fastest[2].recoveryTime)
  {
    var rs := RecoveryPatterns(habits);
    var f := Filter(habits, Recoverable);
    assert forall i :: 0 <= i < |f| ==> f[i] in habits;
    var m := MapRecovery(f);
    assert rs == SortByKey(m, RecoveryKey);
    if |rs| > 3 {
      SortByKeyMembers(m, RecoveryKey);
      var j :| 0 <= j < |rs| && rs[j] == r;
      TopOfSorted(m, RecoveryKey, 3, r);
    }
  }

  // ---------------------------------------------------------------- best vs worst

  datatype GapStatus = Excellent | Good | Attention

  datatype Comparison = Comparison(
    id: HabitId, title: string, best: nat, worst: nat, gap: nat, status: GapStatus)

  /** `Math.round((longest / worst) * 100)`: the longest streak as a percentage of the worst. */
  function Gap(best: nat, worst: nat): nat
    requires worst > 0
  {
    RoundDiv(100 * best, worst)
  }

  /** 300 and above is excellent, 150 to 299 good, below 150 needs attention. */
  function StatusOf(gap: nat): (st: GapStatus)
    ensures st == Excellent <==> gap >= 300
    ensures st == Good <==> 150 <= gap < 300
    ensures st == Attention <==> gap < 150
  {
    if gap >= 300 then Excellent else if gap >= 150 then Good else Attention
  }

  /** A rounded quotient reaches t exactly when the unrounded one reaches t - 1/2. */
  lemma RoundDivAtLeast(num: nat, den: nat, t: nat)
    requires den > 0
    ensures RoundDiv(num, den) >= t <==> 2 * num + den >= 2 * den * t
  {
    var r := RoundDiv(num, den);
    MulMonotone(2 * den, t, r);
    MulMonotone(2 * den, r + 1, t);
  }

  /**
   * The status read off the streaks themselves: excellent iff the longest streak
   * is at least 2.995 times the worst, good iff it is at least 1.495 times but not excellent.
   */
  lemma StatusOfStreaks(best: nat, worst: nat)
    requires worst > 0
    ensures StatusOf(Gap(best, worst)) == Excellent <==> 200 * best >= 599 * worst
    ensures StatusOf(Gap(best, worst)) == Good <==> 299 * worst <= 200 * best < 599 * worst
  {
    RoundDivAtLeast(100 * best, worst, 300);
    RoundDivAtLeast(100 * best, worst, 150);
  }

  function ComparisonOf(h: StreakProfile): (c: Comparison)
    requires h.worstStreak > 0
  {
    var gap := Gap(h.longestStreak, h.worstStreak);
    Comparison(h.id, h.title, h.longestStreak, h.worstStreak, gap, StatusOf(gap))
  }

  function MapComparison(s: seq<StreakProfile>): (cs: seq<Comparison>)
    requires forall h <- s :: h.worstStreak > 0
    ensures |cs| == |s|
    ensures forall i :: 0 <= i < |s| ==> cs[i] == ComparisonOf(s[i])
  {
    seq(|s|, i requires 0 <= i < |s| => ComparisonOf(s[i]))
  }

  function NegGap(c: Comparison): int {
    -(c.gap as int)
  }

  /** `habitStats.filter(worst > 0).map(...).sort(by gap, highest first).slice(0, 5)`. */
  function Comparisons(habits: seq<StreakProfile>): (cs: seq<Comparison>)
    ensures |cs| <= 5
  {
    var f := Filter(habits, HasWorst);
    Take(SortByKey(MapComparison(f), NegGap), 5)
  }

  /** At most five comparisons, largest gap first, each with the status its gap calls for. */
  lemma ComparisonsFacts(habits: seq<StreakProfile>)
    ensures var cs := Comparisons(habits);
      && (forall i, j :: 0 <= i < j < |cs| ==> cs[i].gap >= cs[j].gap)
      && (forall i :: 0 <= i < |cs| ==>
            cs[i].worst > 0 && cs[i].gap == Gap(cs[i].best, cs[i].worst) && cs[i].status == StatusOf(cs[i].gap))
  {
    var f := Filter(habits, HasWorst);
    var m := MapComparison(f);
    var sorted := SortByKey(m, NegGap);
    var cs := Comparisons(habits);
    SortByKeyAscending(m, NegGap);
    forall i | 0 <= i < |cs|
      ensures cs[i].worst > 0 && cs[i].gap == Gap(cs[i].best, cs[i].worst) && cs[i].status == StatusOf(cs[i].gap)
    {
      assert cs[i] == sorted[i];
      assert sorted[i] in multiset(m);
      var k :| 0 <= k < |m| && m[k] == sorted[i];
    }
  }

  // ---------------------------------------------------------------- suggestions

  datatype Suggestion =
    | Focus(title: string, worstStreak: nat)
    | LowCompletion(title: string, completionRate: nat)
    | QuickRecovery(averageDays: nat)
    | GeneralPattern(averageFailures: nat)

  function Optional(c: bool, x: Suggestion): (r: seq<Suggestion>)
    ensures c ==> r == [x]
    ensures !c ==> r == []
  {
    if c then [x] else []
  }

  /**
   * The suggestions in the panel's order: focus on the worst habit when its
   * worst streak reached a week, raise the first low-completion habit, praise
   * quick recoveries of at most three days, and close with the general
   * pattern when two or more habits are analysed.
   */
  function SuggestionsOf(top: seq<StreakProfile>, failures: seq<FailureEntry>,
                         fastest: seq<Recovery>, avgRecovery: nat): (s: seq<Suggestion>)
    ensures |s| <= 4
  {
    var low := FirstLow(failures);
    Optional(|top| > 0 && top[0].worstStreak >= 7, Focus(if |top| > 0 then top[0].title else "", if |top| > 0 then top[0].worstStreak else 0))
    + Optional(low.Some?, LowCompletion(if low.Some? then low.value.title else "", if low.Some? then low.value.completionRate else 0))
    + Optional(|fastest| > 0 && fastest[0].recoveryTime <= 3, QuickRecovery(avgRecovery))
    + Optional(|failures| >= 2, GeneralPattern(if |failures| >= 2 then AverageFailures(failures) else 0))
  }

  function KindOf(x: Suggestion): nat {
    match x
    case Focus(_, _) => 0
    case LowCompletion(_, _) => 1
    case QuickRecovery(_) => 2
    case GeneralPattern(_) => 3
  }

  /** Some suggestion of the list is of kind k (0 focus, 1 low completion, 2 quick recovery, 3 pattern). */
  predicate HasKind(s: seq<Suggestion>, k: nat) {
    exists i :: 0 <= i < |s| && KindOf(s[i]) == k
  }

  lemma HasKindConcat(a: seq<Suggestion>, b: seq<Suggestion>, k: nat)
    ensures HasKind(a + b, k) <==> HasKind(a, k) || HasKind(b, k)
  {
    if HasKind(a + b, k) {
      var i :| 0 <= i < |a + b| && KindOf((a + b)[i]) == k;
      if i >= |a| {
        assert b[i - |a|] == (a + b)[i];
      }
    }
    if HasKind(a, k) {
      var i :| 0 <= i < |a| && KindOf(a[i]) == k;
      assert (a + b)[i] == a[i];
    }
    if HasKind(b, k) {
      var i :| 0 <= i < |b| && KindOf(b[i]) == k;
      assert (a + b)[|a| + i] == b[i];
    }
  }

  lemma HasKindOptional(c: bool, x: Suggestion, k: nat)
    ensures HasKind(Optional(c, x), k) <==> c && KindOf(x) == k
  {
    if c {
      assert Optional(c, x)[0] == x;
    }
  }

  /** The four pieces the suggestion list is made of, in order. */
  function SuggestionParts(top: seq<StreakProfile>, failures: seq<FailureEntry>,
                           fastest: seq<Recovery>, avgRecovery: nat): (p: seq<seq<Suggestion>>)
    ensures |p| == 4 && SuggestionsOf(top, failures, fastest, avgRecovery) == p[0] + p[1] + p[2] + p[3]
  {
    var low := FirstLow(failures);
    [Optional(|top| > 0 && top[0].worstStreak >= 7, Focus(if |top| > 0 then top[0].title else "", if |top| > 0 then top[0].worstStreak else 0)),
     Optional(low.Some?, LowCompletion(if low.Some? then low.value.title else "", if low.Some? then low.value.completionRate else 0)),
     Optional(|fastest| > 0 && fastest[0].recoveryTime <= 3, QuickRecovery(avgRecovery)),
     Optional(|failures| >= 2, GeneralPattern(if |failures| >= 2 then AverageFailures(failures) else 0))]
  }

  lemma HasKindOfFour(a: seq<Suggestion>, b: seq<Suggestion>, c: seq<Suggestion>, d: seq<Suggestion>, k: nat)
    ensures HasKind(a + b + c + d, k) <==> HasKind(a, k) || HasKind(b, k) || HasKind(c, k) || HasKind(d, k)
  {
    HasKindConcat(a + b + c, d, k);
    HasKindConcat(a + b, c, k);
    HasKindConcat(a, b, k);
  }

  lemma PartKinds(top: seq<StreakProfile>, failures: seq<FailureEntry>,
                  fastest: seq<Recovery>, avgRecovery: nat, k: nat)
    ensures var p := SuggestionParts(top, failures, fastest, avgRecovery);
      && (HasKind(p[0], k) <==> |top| > 0 && top[0].worstStreak >= 7 && k == 0)
      && (HasKind(p[1], k) <==> FirstLow(failures).Some? && k == 1)
      && (HasKind(p[2], k) <==> |fastest| > 0 && fastest[0].recoveryTime <= 3 && k == 2)
      && (HasKind(p[3], k) <==> |failures| >= 2 && k == 3)
  {
    var low := FirstLow(failures);
    HasKindOptional(|top| > 0 && top[0].worstStreak >= 7, Focus(if |top| > 0 then top[0].title else "", if |top| > 0 then top[0].worstStreak else 0), k);
    HasKindOptional(low.Some?, LowCompletion(if low.Some? then low.value.title else "", if low.Some? then low.value.completionRate else 0), k);
    HasKindOptional(|fastest| > 0 && fastest[0].recoveryTime <= 3, QuickRecovery(avgRecovery), k);
    HasKindOptional(|failures| >= 2, GeneralPattern(if |failures| >= 2 then AverageFailures(failures) else 0), k);
  }

  /** Each kind of suggestion appears exactly when its condition holds. */
  lemma SuggestionKinds(top: seq<StreakProfile>, failures: seq<FailureEntry>,
                        fastest: seq<Recovery>, avgRecovery: nat)
    ensures var s := SuggestionsOf(top, failures, fastest, avgRecovery);
      && (HasKind(s, 0) <==> |top| > 0 && top[0].worstStreak >= 7)
      && (HasKind(s, 1) <==> FirstLow(failures).Some?)
      && (HasKind(s, 2) <==> |fastest| > 0 && fastest[0].recoveryTime <= 3)
      && (HasKind(s, 3) <==> |failures| >= 2)
  {
    var p := SuggestionParts(top, failures, fastest, avgRecovery);
    HasKindOfFour(p[0], p[1], p[2], p[3], 0);
    HasKindOfFour(p[0], p[1], p[2], p[3], 1);
    HasKindOfFour(p[0], p[1], p[2], p[3], 2);
    HasKindOfFour(p[0], p[1], p[2], p[3], 3);
    PartKinds(top, failures, fastest, avgRecovery, 0);
    PartKinds(top, failures, fastest, avgRecovery, 1);
    PartKinds(top, failures, fastest, avgRecovery, 2);
    PartKinds(top, failures, fastest, avgRecovery, 3);
  }

  /** The focus suggestion comes first, the pattern last, and each reports the figures it is about. */
  lemma SuggestionValues(top: seq<StreakProfile>, failures: seq<FailureEntry>,
                         fastest: seq<Recovery>, avgRecovery: nat)
    ensures var s := SuggestionsOf(top, failures, fastest, avgRecovery);
      && (|top| > 0 && top[0].worstStreak >= 7 ==> s[0] == Focus(top[0].title, top[0].worstStreak))
      && (FirstLow(failures).Some? ==>
            LowCompletion(FirstLow(failures).value.title, FirstLow(failures).value.completionRate) in s)
      && (|fastest| > 0 && fastest[0].recoveryTime <= 3 ==> QuickRecovery(avgRecovery) in s)
      && (|failures| >= 2 ==> s[|s| - 1] == GeneralPattern(AverageFailures(failures)))
  {
    var s := SuggestionsOf(top, failures, fastest, avgRecovery);
    var p := SuggestionParts(top, failures, fastest, avgRecovery);
    if FirstLow(failures).Some? {
      assert s[|p[0]|] == p[1][0];
    }
    if |fastest| > 0 && fastest[0].recoveryTime <= 3 {
      assert s[|p[0]| + |p[1]|] == p[2][0];
    }
  }

  /** `suggestions`: built by pushing each suggestion whose condition holds. */
  method BuildSuggestions(top: seq<StreakProfile>, failures: seq<FailureEntry>,
                          fastest: seq<Recovery>, avgRecovery: nat) returns (s: seq<Suggestion>)
    ensures s == SuggestionsOf(top, failures, fastest, avgRecovery)
  {
    var low := FirstLow(failures);
    s := [];
    if |top| > 0 && top[0].worstStreak >= 7 {
      s := s + [Focus(top[0].title, top[0].worstStreak)];
    }
    if low.Some? {
      s := s + [LowCompletion(low.value.title, low.value.completionRate)];
    }
    if |fastest| > 0 && fastest[0].recoveryTime <= 3 {
      s := s + [QuickRecovery(avgRecovery)];
    }
    if |failures| >= 2 {
      s := s + [GeneralPattern(AverageFailures(failures))];
    }
  }

  // ---------------------------------------------------------------- the panel

  datatype Analysis = Analysis(
    top3Worst: seq<StreakProfile>,
    failureAnalysis: seq<FailureEntry>,
    avgRecoveryTime: nat,
    fastestRecoverers: seq<Recovery>,
    comparisons: seq<Comparison>,
    suggestions: seq<Suggestion>)

  /** The panel's `analysis` memo: nothing to show unless some habit has a worst streak. */
  method Analyze(habits: seq<StreakProfile>) returns (r: Option<Analysis>)
    requires RatesValid(habits)
    ensures r.None? <==> forall h <- habits :: h.worstStreak == 0
    ensures r.Some? ==>
      && r.value.top3Worst == Top3Worst(habits)
      && r.value.failureAnalysis == FailureAnalysis(Top3Worst(habits))
      && r.value.avgRecoveryTime == AverageRecovery(RecoveryPatterns(habits))
      && r.value.fastestRecoverers == Take(RecoveryPatterns(habits), 3)
      && r.value.comparisons == Comparisons(habits)
      && r.value.suggestions == SuggestionsOf(r.value.top3Worst, r.value.failureAnalysis,
                                              r.value.fastestRecoverers, r.value.avgRecoveryTime)
      && |r.value.top3Worst| > 0
  {
    if |habits| == 0 {
      return None;
    }
    var top := Top3Worst(habits);
    Top3WorstFacts(habits);
    if |top| == 0 {
      return None;
    }
    assert RatesValid(top);
    var failures := FailureAnalysis(top);
    var patterns := RecoveryPatterns(habits);
    var avg := AverageRecovery(patterns);
    var fastest := Take(patterns, 3);
    var comparisons := Comparisons(habits);
    var suggestions := BuildSuggestions(top, failures, fastest, avg);
    r := Some(Analysis(top, failures, avg, fastest, comparisons, suggestions));
  }
}
