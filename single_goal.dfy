/**
 * The single-goal panel of the statistics page: the days from the goal's start
 * to its end date (or today, whichever is earlier), their tallies, the done
 * streaks, the streaks that were broken, the longest stretch of missed or
 * unmarked days, the weekday breakdown, the calendar-year heatmap and the
 * 31-day trend.
 */
module SingleGoal {

  import opened Wrappers
  import opened Arith
  import opened Rounding
  import opened Runs
  import opened Calendar
  import opened Habits

  /** The status of one day of the range; None is a day with no mark. */
  type Entry = Option<Status>

  // ----------------------------------------------------------------- range

  /** Last day analysed: the goal's end date when it is not after today, else today. */
  function RangeEnd(goal: Goal, today: int): (e: int)
    ensures e <= today
    ensures goal.endDate.None? ==> e == today
    ensures goal.endDate.Some? ==> e == Min(goal.endDate.value, today)
  {
    if goal.endDate.Some? && goal.endDate.value < today then goal.endDate.value else today
  }

  /** The statuses of habit id on the days lo..hi, oldest first. */
  function Window(logs: GoalLogs, id: HabitId, lo: int, hi: int): (w: seq<Entry>)
    requires lo <= hi
    ensures |w| == hi - lo + 1
  {
    seq(hi - lo + 1, i => StatusOn(logs, lo + i, id))
  }

  /** Days of w whose status is e. */
  function CountOf(w: seq<Entry>, e: Entry): (n: nat)
    ensures n <= |w|
  {
    if w == [] then 0 else CountOf(w[..|w| - 1], e) + (if w[|w| - 1] == e then 1 else 0)
  }

  /** Done and missed days are disjoint, so together they are at most the range. */
  lemma {:induction false} TalliesFit(w: seq<Entry>)
    ensures CountOf(w, Some(Done)) + CountOf(w, Some(Missed)) <= |w|
  {
    if w != [] {
      TalliesFit(w[..|w| - 1]);
    }
  }

  // --------------------------------------------------------------- streaks

  /** Done-streak steps: a done day counts, anything else breaks. */
  function DoneSteps(w: seq<Entry>): (s: seq<Step>)
    ensures |s| == |w|
  {
    seq(|w|, i requires 0 <= i < |w| => if w[i] == Some(Done) then Inc else Reset)
  }

  /** Negative-streak steps: missed or unmarked counts, skipped is passed over, done breaks. */
  function NegSteps(w: seq<Entry>): (s: seq<Step>)
    ensures |s| == |w|
  {
    seq(|w|, i requires 0 <= i < |w| =>
      match w[i]
      case Some(Done) => Reset
      case Some(Skipped) => Hold
      case _ => Inc)
  }

  lemma StepsOfPrefix(w: seq<Entry>, n: nat)
    requires n <= |w|
    ensures DoneSteps(w[..n]) == DoneSteps(w)[..n]
    ensures NegSteps(w[..n]) == NegSteps(w)[..n]
  {
  }

  datatype BrokenStreak = BrokenStreak(date: int, streakLength: nat)

  /**
   * Every day of w (w starting at day lo) that is not done and ends a done
   * streak longer than two days, with that streak's length, oldest first.
   */
  function BrokenList(w: seq<Entry>, lo: int): seq<BrokenStreak> {
    if w == [] then []
    else
      var n := |w| - 1;
      var run := Tail(DoneSteps(w[..n]));
      BrokenList(w[..n], lo) + (if w[n] != Some(Done) && run > 2 then [BrokenStreak(lo + n, run)] else [])
  }

  /**
   * A broken streak of w (w starting at day lo) is dated on a day of the range
   * that is not done, is longer than two days, is exactly the run of done days
   * before that day, and is no longer than the best streak.
   */
  ghost predicate BrokenAt(w: seq<Entry>, lo: int, e: BrokenStreak) {
    lo <= e.date < lo + |w| && w[e.date - lo] != Some(Done) && e.streakLength > 2
    && e.streakLength == Tail(DoneSteps(w[..e.date - lo]))
    && e.streakLength <= Best(DoneSteps(w))
  }

  lemma BrokenAtExtends(w: seq<Entry>, lo: int, n: nat, e: BrokenStreak)
    requires n <= |w| && BrokenAt(w[..n], lo, e)
    ensures BrokenAt(w, lo, e)
  {
    var j := e.date - lo;
    assert w[..n][..j] == w[..j];
    StepsOfPrefix(w, n);
    BestOfPrefix(DoneSteps(w), n);
  }

  /** Every entry of the list is a broken streak of w, and the dates strictly increase. */
  lemma {:induction false} BrokenListFacts(w: seq<Entry>, lo: int)
    ensures forall k :: 0 <= k < |BrokenList(w, lo)| ==> BrokenAt(w, lo, BrokenList(w, lo)[k])
    ensures forall k, m :: 0 <= k < m < |BrokenList(w, lo)| ==> BrokenList(w, lo)[k].date < BrokenList(w, lo)[m].date
  {
    if w != [] {
      var n := |w| - 1;
      BrokenListFacts(w[..n], lo);
      var b, b' := BrokenList(w, lo), BrokenList(w[..n], lo);
      forall k | 0 <= k < |b| ensures BrokenAt(w, lo, b[k]) {
        if k < |b'| {
          assert b[k] == b'[k];
          BrokenAtExtends(w, lo, n, b'[k]);
        } else {
          var s := DoneSteps(w);
          StepsOfPrefix(w, n);
          TailAtMostBest(s[..n]);
          BestOfPrefix(s, n);
        }
      }
      forall k, m | 0 <= k < m < |b| ensures b[k].date < b[m].date {
        if m < |b'| {
          assert b[k] == b'[k] && b[m] == b'[m];
        } else {
          assert b[k] == b'[k];
          assert BrokenAt(w[..n], lo, b'[k]);
        }
      }
    }
  }

  /** The last five entries, newest first. */
  function LastFiveNewestFirst(b: seq<BrokenStreak>): (r: seq<BrokenStreak>)
    ensures |r| == Min(5, |b|)
    ensures forall k :: 0 <= k < |r| ==> r[k] == b[|b| - 1 - k]
  {
    var n := Min(5, |b|);
    seq(n, k requires 0 <= k < n => b[|b| - 1 - k])
  }

  /**
   * The forward scan: best done streak, broken streaks, and the longest run of
   * missed or unmarked days (skipped days inside it neither count nor end it)
   * with the day it starts on; the first such run wins a tie.
   */
  method ScanStreaks(w: seq<Entry>, lo: int) returns (best: nat, broken: seq<BrokenStreak>, worstNeg: nat, worstNegStart: Option<int>)
    ensures best == Best(DoneSteps(w))
    ensures broken == BrokenList(w, lo)
    ensures worstNeg == Best(NegSteps(w))
    ensures WorstRun(NegSteps(w), lo, worstNeg, worstNegStart)
  {
    ghost var neg := NegSteps(w);
    best, broken, worstNeg, worstNegStart := 0, [], 0, None;
    var temp, curNeg, tempNegStart := 0, 0, lo;
    for i := 0 to |w|
      invariant DoneScan(w, lo, i, temp, best, broken)
      invariant NegScan(neg, lo, i, curNeg, tempNegStart, worstNeg, worstNegStart)
    {
      DoneScanStep(w, lo, i, temp, best, broken);
      NegScanStep(w, lo, i, curNeg, tempNegStart, worstNeg, worstNegStart);
      if w[i] == Some(Done) {
        temp := temp + 1;
        if temp > best {
          best := temp;
        }
        if curNeg > worstNeg {
          worstNeg, worstNegStart := curNeg, Some(tempNegStart);
        }
        curNeg := 0;
      } else {
        if temp > 2 {
          broken := broken + [BrokenStreak(lo + i, temp)];
        }
        temp := 0;
        if w[i] == Some(Missed) || w[i] == None {
          if curNeg == 0 {
            tempNegStart := lo + i;
          }
          curNeg := curNeg + 1;
        }
      }
    }
    ScanEnd(w, lo, temp, best, broken, curNeg, tempNegStart, worstNeg, worstNegStart);
    if curNeg > worstNeg {
      worstNeg, worstNegStart := curNeg, Some(tempNegStart);
    }
  }

  /** The done-streak part of the scan after i days: the running and best streak, and the broken streaks so far. */
  ghost predicate DoneScan(w: seq<Entry>, lo: int, i: nat, temp: nat, best: nat, broken: seq<BrokenStreak>) {
    i <= |w| && temp == Tail(DoneSteps(w)[..i]) && best == Best(DoneSteps(w)[..i])
    && broken == BrokenList(w[..i], lo)
  }

  lemma DoneScanStep(w: seq<Entry>, lo: int, i: nat, temp: nat, best: nat, broken: seq<BrokenStreak>)
    requires i < |w| && DoneScan(w, lo, i, temp, best, broken)
    ensures w[i] == Some(Done) && temp + 1 > best ==> DoneScan(w, lo, i + 1, temp + 1, temp + 1, broken)
    ensures w[i] == Some(Done) && temp + 1 <= best ==> DoneScan(w, lo, i + 1, temp + 1, best, broken)
    ensures w[i] != Some(Done) && temp > 2 ==> DoneScan(w, lo, i + 1, 0, best, broken + [BrokenStreak(lo + i, temp)])
    ensures w[i] != Some(Done) && temp <= 2 ==> DoneScan(w, lo, i + 1, 0, best, broken)
  {
    StepPrefix(DoneSteps(w), i);
    StepsOfPrefix(w, i);
    assert w[..i + 1][..i] == w[..i];
  }

  /** After the last day the scan's counters are those of the whole range, once a run still open is closed. */
  lemma ScanEnd(w: seq<Entry>, lo: int, temp: nat, best: nat, broken: seq<BrokenStreak>,
                curNeg: nat, tempNegStart: int, worstNeg: nat, worstNegStart: Option<int>)
    requires DoneScan(w, lo, |w|, temp, best, broken)
    requires NegScan(NegSteps(w), lo, |w|, curNeg, tempNegStart, worstNeg, worstNegStart)
    ensures best == Best(DoneSteps(w)) && broken == BrokenList(w, lo)
    ensures curNeg > worstNeg ==> curNeg == Best(NegSteps(w)) && WorstRun(NegSteps(w), lo, curNeg, Some(tempNegStart))
    ensures curNeg <= worstNeg ==> worstNeg == Best(NegSteps(w)) && WorstRun(NegSteps(w), lo, worstNeg, worstNegStart)
  {
    assert DoneSteps(w)[..|w|] == DoneSteps(w) && w[..|w|] == w && NegSteps(w)[..|w|] == NegSteps(w);
    if curNeg > worstNeg {
      CloseRun(NegSteps(w), tempNegStart - lo, |w|, curNeg);
    }
  }

  /**
   * The negative-streak part of the scan after i days: the open run's counter
   * and first day, and the longest closed run with the day it starts on.
   */
  ghost predicate NegScan(neg: seq<Step>, lo: int, i: nat, curNeg: nat, tempNegStart: int, worstNeg: nat, worstNegStart: Option<int>) {
    i <= |neg| && curNeg == Tail(neg[..i]) && Max(worstNeg, curNeg) == Best(neg[..i])
    && (curNeg > 0 ==> OpenRun(neg, tempNegStart - lo, i, curNeg))
    && WorstRun(neg, lo, worstNeg, worstNegStart)
    && ClosedRunsWithin(neg, if curNeg > 0 then tempNegStart - lo else i, worstNeg)
  }

  /** No counted day before index e starts a run longer than worst. */
  ghost predicate ClosedRunsWithin(neg: seq<Step>, e: int, worst: nat) {
    forall t {:trigger LeadRun(neg[t..])} :: 0 <= t < e && t < |neg| && neg[t] == Inc ==> LeadRun(neg[t..]) <= worst
  }

  /**
   * start is the first day of a run of worst counted days, and there is one
   * exactly when worst > 0; that day is counted, and no counted day before it
   * starts a run as long (the first longest run wins).
   */
  ghost predicate WorstRun(neg: seq<Step>, lo: int, worst: nat, start: Option<int>) {
    (worst == 0 <==> start.None?)
    && (start.Some? ==> lo <= start.value < lo + |neg| && LeadRun(neg[start.value - lo..]) == worst)
    && (start.Some? ==> neg[start.value - lo] == Inc)
    && (start.Some? ==> forall t {:trigger LeadRun(neg[t..])} :: 0 <= t < start.value - lo && neg[t] == Inc ==> LeadRun(neg[t..]) < worst)
  }

  /** The longest run has one start: two days that both satisfy WorstRun are the same day. */
  lemma WorstRunUnique(neg: seq<Step>, lo: int, worst: nat, a: Option<int>, b: Option<int>)
    requires WorstRun(neg, lo, worst, a) && WorstRun(neg, lo, worst, b)
    ensures a == b
  {
  }

  lemma NegScanStep(w: seq<Entry>, lo: int, i: nat, curNeg: nat, tempNegStart: int, worstNeg: nat, worstNegStart: Option<int>)
    requires i < |w| && NegScan(NegSteps(w), lo, i, curNeg, tempNegStart, worstNeg, worstNegStart)
    ensures w[i] == Some(Done) && curNeg > worstNeg ==>
      NegScan(NegSteps(w), lo, i + 1, 0, tempNegStart, curNeg, Some(tempNegStart))
    ensures w[i] == Some(Done) && curNeg <= worstNeg ==>
      NegScan(NegSteps(w), lo, i + 1, 0, tempNegStart, worstNeg, worstNegStart)
    ensures (w[i] == Some(Missed) || w[i] == None) && curNeg == 0 ==>
      NegScan(NegSteps(w), lo, i + 1, 1, lo + i, worstNeg, worstNegStart)
    ensures (w[i] == Some(Missed) || w[i] == None) && curNeg > 0 ==>
      NegScan(NegSteps(w), lo, i + 1, curNeg + 1, tempNegStart, worstNeg, worstNegStart)
    ensures w[i] == Some(Skipped) ==>
      NegScan(NegSteps(w), lo, i + 1, curNeg, tempNegStart, worstNeg, worstNegStart)
  {
    var neg := NegSteps(w);
    StepPrefix(neg, i);
    if neg[i] == Reset && curNeg > worstNeg {
      CloseRun(neg, tempNegStart - lo, i, curNeg);
      CloseRunWithin(neg, tempNegStart - lo, i, curNeg, worstNeg, curNeg);
    } else if neg[i] == Reset && curNeg > 0 {
      CloseRunWithin(neg, tempNegStart - lo, i, curNeg, worstNeg, worstNeg);
    } else if neg[i] != Reset && (curNeg > 0 || neg[i] == Inc) {
      ExtendRun(neg, if curNeg == 0 then i else tempNegStart - lo, i, curNeg);
    }
  }

  /** neg[t..i] is a run still open at i, begun on a counted day, that has counted c days. */
  ghost predicate OpenRun(neg: seq<Step>, t: int, i: nat, c: nat) {
    0 <= t < i <= |neg| && neg[t] == Inc && Unbroken(neg[t..i]) && Incs(neg[t..i]) == c
  }

  lemma ExtendRun(neg: seq<Step>, t: int, i: nat, c: nat)
    requires i < |neg| && neg[i] != Reset
    requires (c > 0 && OpenRun(neg, t, i, c)) || (c == 0 && t == i && neg[i] == Inc)
    ensures OpenRun(neg, t, i + 1, c + (if neg[i] == Inc then 1 else 0))
  {
    assert neg[t..i + 1] == neg[t..i] + [neg[i]];
    IncsAppend(neg[t..i], [neg[i]]);
    assert [neg[i]][..0] == [];
  }

  /** A run that meets a reset or the end is what LeadRun reads from its first day. */
  lemma CloseRun(neg: seq<Step>, t: int, i: nat, c: nat)
    requires OpenRun(neg, t, i, c) && (i == |neg| || neg[i] == Reset)
    ensures LeadRun(neg[t..]) == c
  {
    assert neg[t..][..i - t] == neg[t..i];
    LeadRunUntilReset(neg[t..], i - t);
  }

  /** Once a run is closed, a run read from any of its later days counts no more than the whole run. */
  lemma InsideClosedRun(neg: seq<Step>, t: int, i: nat, c: nat, u: int)
    requires OpenRun(neg, t, i, c) && (i == |neg| || neg[i] == Reset) && t <= u < i
    ensures LeadRun(neg[u..]) <= c
  {
    assert neg[t..i] == neg[t..u] + neg[u..i];
    IncsAppend(neg[t..u], neg[u..i]);
    assert Unbroken(neg[u..i]) by {
      forall x | x in neg[u..i] ensures x != Reset {
        var k :| u <= k < i && neg[k] == x;
        assert neg[t..i][k - t] == x;
      }
    }
    assert neg[u..][..i - u] == neg[u..i];
    LeadRunUntilReset(neg[u..], i - u);
  }

  /** A closed run adds its days to those no longer than the longest closed run. */
  lemma CloseRunWithin(neg: seq<Step>, t: int, i: nat, c: nat, worst: nat, worst': nat)
    requires OpenRun(neg, t, i, c) && i < |neg| && neg[i] == Reset
    requires ClosedRunsWithin(neg, t, worst) && worst <= worst' && c <= worst'
    ensures ClosedRunsWithin(neg, i + 1, worst')
  {
    forall u | 0 <= u < i + 1 && u < |neg| && neg[u] == Inc ensures LeadRun(neg[u..]) <= worst' {
      if u >= t {
        InsideClosedRun(neg, t, i, c, u);
      }
    }
  }

  /** The current streak: the done days at the end of the range, read backwards until the first other day. */
  method TrailingDone(w: seq<Entry>) returns (current: nat)
    ensures current <= |w|
    ensures forall i :: |w| - current <= i < |w| ==> w[i] == Some(Done)
    ensures current < |w| ==> w[|w| - 1 - current] != Some(Done)
  {
    current := 0;
    var i := |w| - 1;
    while i >= 0
      invariant -1 <= i < |w| && current == |w| - 1 - i
      invariant forall k :: i < k < |w| ==> w[k] == Some(Done)
    {
      if w[i] == Some(Done) {
        current := current + 1;
      } else {
        break;
      }
      i := i - 1;
    }
  }

  /** A run of done days at the end of the range is no longer than the best streak. */
  lemma TrailingAtMostBest(w: seq<Entry>, k: nat)
    requires k <= |w| && forall i :: |w| - k <= i < |w| ==> w[i] == Some(Done)
    ensures k <= Best(DoneSteps(w))
  {
    var s := DoneSteps(w);
    IncsOfStreak(s[|w| - k..]);
    SegmentBound(s, |w| - k, |w|);
    assert s[|w| - k..|w|] == s[|w| - k..];
  }

  // -------------------------------------------------------------- weekdays

  /** Monday-first weekday index 0..6 (Monday 0, Sunday 6). */
  function MondayIndex(d: int): (k: nat)
    ensures k < 7
    ensures k == (if JsWeekday(d) == 0 then 6 else JsWeekday(d) - 1)
  {
    (d + 3) % 7
  }

  /** Days of w (starting at day lo) falling on weekday k, only the done ones when doneOnly. */
  function WeekdayCount(w: seq<Entry>, lo: int, k: nat, doneOnly: bool): (n: nat)
    ensures n <= |w|
  {
    if w == [] then 0
    else
      var n := |w| - 1;
      WeekdayCount(w[..n], lo, k, doneOnly)
        + (if MondayIndex(lo + n) == k && (!doneOnly || w[n] == Some(Done)) then 1 else 0)
  }

  function AllWeekdays(w: seq<Entry>, lo: int, doneOnly: bool): nat {
    WeekdayCount(w, lo, 0, doneOnly) + WeekdayCount(w, lo, 1, doneOnly) + WeekdayCount(w, lo, 2, doneOnly)
      + WeekdayCount(w, lo, 3, doneOnly) + WeekdayCount(w, lo, 4, doneOnly) + WeekdayCount(w, lo, 5, doneOnly)
      + WeekdayCount(w, lo, 6, doneOnly)
  }

  /**
   * Every day lands in exactly one weekday bucket: the totals add up to the
   * range, the done counts to the done days, and no bucket has more done days
   * than days.
   */
  lemma {:induction false} WeekdayBucketsPartition(w: seq<Entry>, lo: int)
    ensures AllWeekdays(w, lo, false) == |w|
    ensures AllWeekdays(w, lo, true) == CountOf(w, Some(Done))
    ensures forall k :: 0 <= k < 7 ==> WeekdayCount(w, lo, k, true) <= WeekdayCount(w, lo, k, false)
  {
    if w != [] {
      WeekdayBucketsPartition(w[..|w| - 1], lo);
    }
  }

  method WeekdayBuckets(w: seq<Entry>, lo: int) returns (done: seq<nat>, total: seq<nat>)
    ensures |done| == 7 && |total| == 7
    ensures forall k :: 0 <= k < 7 ==> done[k] == WeekdayCount(w, lo, k, true)
    ensures forall k :: 0 <= k < 7 ==> total[k] == WeekdayCount(w, lo, k, false)
  {
    var dayOfWeekStats := new nat[7](_ => 0);
    var dayOfWeekTotal := new nat[7](_ => 0);
    for i := 0 to |w|
      invariant forall k :: 0 <= k < 7 ==> dayOfWeekStats[k] == WeekdayCount(w[..i], lo, k, true)
      invariant forall k :: 0 <= k < 7 ==> dayOfWeekTotal[k] == WeekdayCount(w[..i], lo, k, false)
    {
      assert w[..i + 1][..i] == w[..i];
      var adjustedDay := MondayIndex(lo + i);
      dayOfWeekTotal[adjustedDay] := dayOfWeekTotal[adjustedDay] + 1;
      if w[i] == Some(Done) {
        dayOfWeekStats[adjustedDay] := dayOfWeekStats[adjustedDay] + 1;
      }
    }
    assert w[..|w|] == w;
    done, total := dayOfWeekStats[..], dayOfWeekTotal[..];
  }

  /** One weekday's figures; day is the Monday-first index 0..6. */
  datatype WeekdayPerf = WeekdayPerf(day: nat, rate: nat, total: nat, done: nat)

  function Performance(done: seq<nat>, total: seq<nat>): (p: seq<WeekdayPerf>)
    requires |done| == 7 && |total| == 7
    ensures |p| == 7
    ensures forall k :: 0 <= k < 7 ==> p[k].day == k && p[k].total == total[k] && p[k].done == done[k]
    ensures forall k :: 0 <= k < 7 && done[k] <= total[k] ==> p[k].rate <= 100
    ensures forall k :: 0 <= k < 7 && total[k] == 0 ==> p[k].rate == 0
  {
    seq(7, k requires 0 <= k < 7 =>
      WeekdayPerf(k, if total[k] > 0 then Percent(done[k], total[k]) else 0, total[k], done[k]))
  }

  /** No weekday before position i that counts (more than two days) has a rate as low as rate. */
  predicate FirstBelow(perf: seq<WeekdayPerf>, i: nat, rate: nat)
    requires i <= |perf|
  {
    forall j :: 0 <= j < i && perf[j].total > 2 ==> perf[j].rate > rate
  }

  /** The rate a candidate must beat: the current worst day's, or 100 before there is one. */
  function RateToBeat(r: Option<WeekdayPerf>): nat {
    if r.Some? then r.value.rate else 100
  }

  /**
   * The worst weekday: among the weekdays with more than two days, the first
   * one with the lowest rate, provided that rate is below 100; None (shown as
   * "N/A") otherwise.
   */
  function WorstDay(perf: seq<WeekdayPerf>): (r: Option<WeekdayPerf>)
    ensures r.Some? ==> r.value in perf && r.value.total > 2 && r.value.rate < 100
    ensures forall i :: 0 <= i < |perf| && perf[i].total > 2 ==> RateToBeat(r) <= perf[i].rate
    ensures r.Some? ==>
      exists i :: 0 <= i < |perf| && perf[i] == r.value && FirstBelow(perf, i, r.value.rate)
  {
    if perf == [] then None
    else
      var n := |perf| - 1;
      var min := WorstDay(perf[..n]);
      var cur := perf[n];
      assert forall i :: 0 <= i < n ==> perf[..n][i] == perf[i];
      if cur.total > 2 && cur.rate < RateToBeat(min) then Some(cur) else min
  }

  // ---------------------------------------------------------- year heatmap

  /** One cell of the year heatmap: done counts 1, missed -1, anything else 0. */
  datatype YearCell = YearCell(date: int, count: int, intensity: real)

  function YearCellOf(logs: GoalLogs, id: HabitId, day: int): (c: YearCell)
    ensures c.date == day
    ensures c.count == 1 <==> StatusOn(logs, day, id) == Some(Done)
    ensures c.count == -1 <==> StatusOn(logs, day, id) == Some(Missed)
    ensures c.intensity == (if c.count == 1 then 1.0 else if c.count == -1 then 0.5 else 0.0)
  {
    var s := StatusOn(logs, day, id);
    YearCell(day,
             if s == Some(Done) then 1 else if s == Some(Missed) then -1 else 0,
             if s == Some(Done) then 1.0 else if s == Some(Missed) then 0.5 else 0.0)
  }

  /** Every day of today's calendar year, January 1 first. */
  function YearHeatmap(logs: GoalLogs, id: HabitId, today: int): (cells: seq<YearCell>)
    ensures |cells| == DaysInYear(YearOf(today))
    ensures forall i :: 0 <= i < |cells| ==> cells[i] == YearCellOf(logs, id, Jan1(YearOf(today)) + i)
  {
    var y := YearOf(today);
    seq(DaysInYear(y), i => YearCellOf(logs, id, Jan1(y) + i))
  }

  /** The heatmap runs over consecutive days, all of today's year, from January 1 to December 31, today included. */
  lemma YearHeatmapCoversYear(logs: GoalLogs, id: HabitId, today: int)
    ensures var cells := YearHeatmap(logs, id, today);
      cells[0].date == Jan1(YearOf(today)) && cells[|cells| - 1].date == Jan1(YearOf(today) + 1) - 1
      && (forall i :: 0 <= i < |cells| ==> YearOf(cells[i].date) == YearOf(today))
      && (forall i :: 0 < i < |cells| ==> cells[i].date == cells[i - 1].date + 1)
      && today - Jan1(YearOf(today)) < |cells| && cells[today - Jan1(YearOf(today))].date == today
  {
    var y := YearOf(today);
    Jan1Next(y);
    var cells := YearHeatmap(logs, id, today);
    assert |cells| == Jan1(y + 1) - Jan1(y);
    forall i | 0 <= i < |cells| ensures YearOf(cells[i].date) == y {
      YearOfUnique(Jan1(y) + i, y);
    }
    assert Jan1(y) <= today < Jan1(y + 1);
  }

  // ------------------------------------------------------------ 31-day trend

  datatype TrendDay = TrendDay(date: int, value: nat, status: Option<Status>)

  /** The 31 days from 30 days ago to today: 100 on a done day, 0 otherwise. */
  function Trend31(logs: GoalLogs, id: HabitId, today: int): (t: seq<TrendDay>)
    ensures |t| == 31
  {
    seq(31, i =>
      var s := StatusOn(logs, today - 30 + i, id);
      TrendDay(today - 30 + i, if s == Some(Done) then 100 else 0, s))
  }

  function SumValues(t: seq<TrendDay>): nat {
    if t == [] then 0 else SumValues(t[..|t| - 1]) + t[|t| - 1].value
  }

  /** The trend's values add up to 100 per done day of its window, so their mean is the window's done percentage. */
  lemma Trend31Sum(logs: GoalLogs, id: HabitId, today: int)
    ensures var t := Trend31(logs, id, today);
      t[30].date == today && SumValues(t) == 100 * CountOf(Window(logs, id, today - 30, today), Some(Done))
  {
    var t := Trend31(logs, id, today);
    var w := Window(logs, id, today - 30, today);
    TrendPrefixSum(t, w, 31);
    assert t[..31] == t && w[..31] == w;
  }

  lemma {:induction false} TrendPrefixSum(t: seq<TrendDay>, w: seq<Entry>, n: nat)
    requires |t| == |w| && n <= |t|
    requires forall i :: 0 <= i < |t| ==> t[i].value == (if w[i] == Some(Done) then 100 else 0)
    ensures SumValues(t[..n]) == 100 * CountOf(w[..n], Some(Done))
  {
    if n > 0 {
      TrendPrefixSum(t, w, n - 1);
      assert t[..n][..n - 1] == t[..n - 1] && w[..n][..n - 1] == w[..n - 1];
    }
  }

  // -------------------------------------------------------------- the panel

  datatype SingleGoalStats = SingleGoalStats(
    totalDays: nat, doneDays: nat, missedDays: nat, completionRate: nat,
    currentStreak: nat, bestStreak: nat, brokenStreaks: seq<BrokenStreak>,
    worstNegativeStreak: nat, worstNegativeStreakStart: Option<int>,
    weekdayPerformance: seq<WeekdayPerf>, worstDay: Option<WeekdayPerf>,
    heatmapData: seq<YearCell>, trendData: seq<TrendDay>)

  /**
   * The panel for one goal. The range runs from the start date to RangeEnd; a
   * start date after that end is an interval the date library refuses.
   */
  method SingleGoalStatsFor(goal: Goal, logs: GoalLogs, today: int) returns (r: SingleGoalStats)
    requires goal.startDate <= RangeEnd(goal, today)
    ensures var w := Window(logs, goal.id, goal.startDate, RangeEnd(goal, today));
      && r.totalDays == |w| && r.totalDays >= 1
      && r.doneDays == CountOf(w, Some(Done)) && r.missedDays == CountOf(w, Some(Missed))
      && r.doneDays + r.missedDays <= r.totalDays
      && r.completionRate == Percent(r.doneDays, r.totalDays) && r.completionRate <= 100
      && r.bestStreak == Best(DoneSteps(w)) && r.currentStreak <= r.bestStreak <= r.doneDays
      && (forall i :: |w| - r.currentStreak <= i < |w| ==> w[i] == Some(Done))
      && (r.currentStreak < |w| ==> w[|w| - 1 - r.currentStreak] != Some(Done))
      && r.brokenStreaks == LastFiveNewestFirst(BrokenList(w, goal.startDate))
      && r.worstNegativeStreak == Best(NegSteps(w))
      && (r.worstNegativeStreakStart.Some? ==>
            goal.startDate <= r.worstNegativeStreakStart.value <= RangeEnd(goal, today))
      && WorstRun(NegSteps(w), goal.startDate, r.worstNegativeStreak, r.worstNegativeStreakStart)
      && |r.weekdayPerformance| == 7
      && (forall k :: 0 <= k < 7 ==>
            r.weekdayPerformance[k].total == WeekdayCount(w, goal.startDate, k, false)
            && r.weekdayPerformance[k].done == WeekdayCount(w, goal.startDate, k, true)
            && r.weekdayPerformance[k].rate <= 100)
      && r.worstDay == WorstDay(r.weekdayPerformance)
      && r.heatmapData == YearHeatmap(logs, goal.id, today)
      && r.trendData == Trend31(logs, goal.id, today)
  {
    var w := Window(logs, goal.id, goal.startDate, RangeEnd(goal, today));
    var totalDays := |w|;
    var doneDays := CountOf(w, Some(Done));
    var missedDays := CountOf(w, Some(Missed));
    TalliesFit(w);
    var completionRate := if totalDays > 0 then Percent(doneDays, totalDays) else 0;
    var current, best, broken, worstNeg, worstNegStart := StreakFigures(w, goal.startDate);
    var perf := WeekdayFigures(w, goal.startDate);
    r := SingleGoalStats(totalDays, doneDays, missedDays, completionRate, current, best,
                         LastFiveNewestFirst(broken), worstNeg, worstNegStart, perf, WorstDay(perf),
                         YearHeatmap(logs, goal.id, today), Trend31(logs, goal.id, today));
  }

  /** The streak figures of the panel for the days of w, the first of which is lo. */
  method StreakFigures(w: seq<Entry>, lo: int)
    returns (current: nat, best: nat, broken: seq<BrokenStreak>, worstNeg: nat, worstNegStart: Option<int>)
    ensures best == Best(DoneSteps(w)) && current <= best <= CountOf(w, Some(Done))
    ensures forall i :: |w| - current <= i < |w| ==> w[i] == Some(Done)
    ensures current < |w| ==> w[|w| - 1 - current] != Some(Done)
    ensures broken == BrokenList(w, lo)
    ensures worstNeg == Best(NegSteps(w))
    ensures WorstRun(NegSteps(w), lo, worstNeg, worstNegStart)
  {
    best, broken, worstNeg, worstNegStart := ScanStreaks(w, lo);
    current := TrailingDone(w);
    TrailingAtMostBest(w, current);
    BestAtMostIncs(DoneSteps(w));
    DoneStepsCount(w);
  }

  /** The weekday figures of the panel for the days of w, the first of which is lo. */
  method WeekdayFigures(w: seq<Entry>, lo: int) returns (perf: seq<WeekdayPerf>)
    ensures |perf| == 7
    ensures forall k :: 0 <= k < 7 ==>
      perf[k].total == WeekdayCount(w, lo, k, false) && perf[k].done == WeekdayCount(w, lo, k, true)
      && perf[k].rate <= 100
  {
    var done, total := WeekdayBuckets(w, lo);
    WeekdayBucketsPartition(w, lo);
    perf := Performance(done, total);
  }

  /** The done-streak steps count exactly the done days. */
  lemma {:induction false} DoneStepsCount(w: seq<Entry>)
    ensures Incs(DoneSteps(w)) == CountOf(w, Some(Done))
  {
    if w != [] {
      DoneStepsCount(w[..|w| - 1]);
      StepsOfPrefix(w, |w| - 1);
    }
  }
}
