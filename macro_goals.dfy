/**
 * The long-term goals statistics page: headline figures over a list of goals
 * (annual, quarterly, monthly, weekly, lifetime), per-type and per-category
 * completion, and the bucket counters the period charts share. The category
 * label lookup and the table of default labels belong to another hook and are
 * parameters here.
 */
module MacroGoals {

  import opened Wrappers
  import opened Arith
  import opened Rounding
  import opened Lists

  datatype GoalType = Annual | Quarterly | Monthly | Weekly | Lifetime | StatsGoal

  /** A long-term goal; a `null` column is None. */
  datatype LongTermGoal = LongTermGoal(
    id: string, title: string, isCompleted: bool, kind: GoalType,
    year: Option<int>, quarter: Option<int>, month: Option<int>, color: Option<string>)

  /** How many goals fell in a bucket, and how many of those are completed. */
  datatype Tally = Tally(total: nat, completed: nat)

  /** One chart or table row: a label with its tally and completion percentage. */
  datatype Row<L> = Row(name: L, total: nat, completed: nat, rate: nat)

  /** `total > 0 ? Math.round((completed / total) * 100) : 0`. */
  function Rate(t: Tally): (r: nat)
    ensures t.completed <= t.total ==> r <= 100
    ensures t.total > 0 && t.completed == t.total ==> r == 100
    ensures t.completed == 0 ==> r == 0
  {
    if t.total > 0 then Percent(t.completed, t.total) else 0
  }

  function RowOf<L>(name: L, t: Tally): Row<L> {
    Row(name, t.total, t.completed, Rate(t))
  }

  // ---------------------------------------------------------------- counting by key

  function Counted(g: LongTermGoal): Tally {
    Tally(1, if g.isCompleted then 1 else 0)
  }

  function Plus(a: Tally, b: Tally): Tally {
    Tally(a.total + b.total, a.completed + b.completed)
  }

  /** The goals whose key is k, with how many of them are completed. */
  function TallyOf<K(==)>(goals: seq<LongTermGoal>, key: LongTermGoal -> Option<K>, k: K): (t: Tally)
    ensures t.completed <= t.total <= |goals|
  {
    if goals == [] then Tally(0, 0)
    else
      var n := |goals| - 1;
      var t := TallyOf(goals[..n], key, k);
      if key(goals[n]) == Some(k) then Plus(t, Counted(goals[n])) else t
  }

  lemma TallyOfStep<K>(goals: seq<LongTermGoal>, key: LongTermGoal -> Option<K>, k: K, i: nat)
    requires i < |goals|
    ensures TallyOf(goals[..i + 1], key, k)
         == if key(goals[i]) == Some(k) then Plus(TallyOf(goals[..i], key, k), Counted(goals[i]))
            else TallyOf(goals[..i], key, k)
  {
    PrefixOfLongerPrefix(goals, i);
  }

  /** A key has goals exactly when some goal carries it. */
  lemma {:induction false} TallyOfPositive<K>(goals: seq<LongTermGoal>, key: LongTermGoal -> Option<K>, k: K)
    ensures TallyOf(goals, key, k).total > 0 <==> exists i :: 0 <= i < |goals| && key(goals[i]) == Some(k)
  {
    if goals != [] {
      var n := |goals| - 1;
      TallyOfPositive(goals[..n], key, k);
      if exists i :: 0 <= i < n && key(goals[..n][i]) == Some(k) {
        var i :| 0 <= i < n && key(goals[..n][i]) == Some(k);
        assert goals[i] == goals[..n][i];
      }
      if exists i :: 0 <= i < |goals| && key(goals[i]) == Some(k) {
        var i :| 0 <= i < |goals| && key(goals[i]) == Some(k);
        if i < n {
          assert goals[..n][i] == goals[i];
        }
      }
    }
  }

  /** The position of the first goal whose key is k, or |goals| when no goal has it. */
  function FirstIndex<K(==)>(goals: seq<LongTermGoal>, key: LongTermGoal -> Option<K>, k: K): (i: nat)
    ensures i <= |goals|
    ensures i < |goals| ==> key(goals[i]) == Some(k)
  {
    if goals == [] then 0
    else if key(goals[0]) == Some(k) then 0
    else 1 + FirstIndex(goals[1..], key, k)
  }

  /** No goal before FirstIndex has the key. */
  lemma {:induction false} FirstIndexIsFirst<K>(goals: seq<LongTermGoal>, key: LongTermGoal -> Option<K>, k: K)
    ensures forall j :: 0 <= j < FirstIndex(goals, key, k) ==> key(goals[j]) != Some(k)
  {
    if goals != [] && key(goals[0]) != Some(k) {
      FirstIndexIsFirst(goals[1..], key, k);
      forall j | 0 < j < FirstIndex(goals, key, k) ensures key(goals[j]) != Some(k) {
        assert goals[j] == goals[1..][j - 1];
      }
    }
  }

  /**
   * A `forEach` that creates a key's counter on first sight and bumps it: the
   * counters, and the keys in the order they were created (the order
   * `Object.entries` gives them back in), that is, by their first goal.
   */
  method TallyByKey<K(==)>(goals: seq<LongTermGoal>, key: LongTermGoal -> Option<K>)
    returns (counts: map<K, Tally>, order: seq<K>)
    ensures forall k :: k in counts <==> TallyOf(goals, key, k).total > 0
    ensures forall k :: k in counts ==> counts[k] == TallyOf(goals, key, k)
    ensures forall k :: k in order <==> k in counts
    ensures forall i, j :: 0 <= i < j < |order| ==> order[i] != order[j]
    ensures forall i, j {:trigger FirstIndex(goals, key, order[i]), FirstIndex(goals, key, order[j])} ::
      0 <= i < j < |order| ==> FirstIndex(goals, key, order[i]) < FirstIndex(goals, key, order[j])
  {
    counts := map[];
    order := [];
    for i := 0 to |goals|
      invariant forall k :: k in counts <==> TallyOf(goals[..i], key, k).total > 0
      invariant forall k :: k in counts ==> counts[k] == TallyOf(goals[..i], key, k)
      invariant forall k :: k in order <==> k in counts
      invariant forall a, b :: 0 <= a < b < |order| ==> order[a] != order[b]
      invariant FirstSeen(goals, key, order, i)
    {
      var g := goals[i];
      var counts', order' := counts, order;
      if key(g).Some? {
        var k := key(g).value;
        if k !in counts {
          order' := order + [k];
        }
        var current := if k in counts then counts[k] else Tally(0, 0);
        counts' := counts[k := Plus(current, Counted(g))];
      }
      TallyByKeyStep(goals, key, i, counts, order, counts', order');
      FirstSeenStep(goals, key, i, counts, order, order');
      counts, order := counts', order';
    }
    WholePrefix(goals);
  }

  /** The keys met in the first i goals are listed by the position of their first goal. */
  ghost predicate FirstSeen<K>(goals: seq<LongTermGoal>, key: LongTermGoal -> Option<K>, order: seq<K>, i: nat) {
    && (forall a {:trigger FirstIndex(goals, key, order[a])} :: 0 <= a < |order| ==> FirstIndex(goals, key, order[a]) < i)
    && (forall a, b {:trigger FirstIndex(goals, key, order[a]), FirstIndex(goals, key, order[b])} ::
          0 <= a < b < |order| ==> FirstIndex(goals, key, order[a]) < FirstIndex(goals, key, order[b]))
  }

  /** A key appended when goal i is the first to carry it has its first goal after every listed key's. */
  lemma FirstSeenStep<K>(goals: seq<LongTermGoal>, key: LongTermGoal -> Option<K>, i: nat,
                         counts: map<K, Tally>, order: seq<K>, order': seq<K>)
    requires i < |goals|
    requires forall k :: k in counts <==> TallyOf(goals[..i], key, k).total > 0
    requires FirstSeen(goals, key, order, i)
    requires key(goals[i]).None? ==> order' == order
    requires key(goals[i]).Some? ==>
      order' == if key(goals[i]).value in counts then order else order + [key(goals[i]).value]
    ensures FirstSeen(goals, key, order', i + 1)
  {
    if key(goals[i]).Some? && key(goals[i]).value !in counts {
      var k := key(goals[i]).value;
      TallyOfPositive(goals[..i], key, k);
      assert TallyOf(goals[..i], key, k).total == 0;
      forall j | 0 <= j < i ensures key(goals[j]) != Some(k) {
        assert goals[..i][j] == goals[j];
      }
      FirstIndexIsFirst(goals, key, k);
      assert FirstIndex(goals, key, k) == i;
      forall a, b | 0 <= a < b < |order'|
        ensures FirstIndex(goals, key, order'[a]) < FirstIndex(goals, key, order'[b])
      {
        assert order'[a] == order[a];
      }
    }
  }

  lemma TallyByKeyStep<K>(goals: seq<LongTermGoal>, key: LongTermGoal -> Option<K>, i: nat,
                          counts: map<K, Tally>, order: seq<K>, counts': map<K, Tally>, order': seq<K>)
    requires i < |goals|
    requires forall k :: k in counts <==> TallyOf(goals[..i], key, k).total > 0
    requires forall k :: k in counts ==> counts[k] == TallyOf(goals[..i], key, k)
    requires forall k :: k in order <==> k in counts
    requires forall a, b :: 0 <= a < b < |order| ==> order[a] != order[b]
    requires key(goals[i]).None? ==> counts' == counts && order' == order
    requires key(goals[i]).Some? ==>
      var k := key(goals[i]).value;
      && counts' == counts[k := Plus(if k in counts then counts[k] else Tally(0, 0), Counted(goals[i]))]
      && order' == if k in counts then order else order + [k]
    ensures forall k :: k in counts' <==> TallyOf(goals[..i + 1], key, k).total > 0
    ensures forall k :: k in counts' ==> counts'[k] == TallyOf(goals[..i + 1], key, k)
    ensures forall k :: k in order' <==> k in counts'
    ensures forall a, b :: 0 <= a < b < |order'| ==> order'[a] != order'[b]
  {
    forall k | true
      ensures k in counts' <==> TallyOf(goals[..i + 1], key, k).total > 0
      ensures k in counts' ==> counts'[k] == TallyOf(goals[..i + 1], key, k)
    {
      TallyOfStep(goals, key, k, i);
      CounterStep(Counted(goals[i]), key(goals[i]), counts, counts', k, TallyOf(goals[..i], key, k), TallyOf(goals[..i + 1], key, k));
    }
    if key(goals[i]).Some? {
      var c := key(goals[i]).value;
      assert forall k :: k in counts' <==> k in counts || k == c;
      OrderStep(order, order', counts, counts', c);
    }
  }

  /** A key is appended to the creation order exactly when its counter is new. */
  lemma OrderStep<K>(order: seq<K>, order': seq<K>, counts: map<K, Tally>, counts': map<K, Tally>, c: K)
    requires forall k :: k in order <==> k in counts
    requires forall a, b :: 0 <= a < b < |order| ==> order[a] != order[b]
    requires order' == if c in counts then order else order + [c]
    requires forall k :: k in counts' <==> k in counts || k == c
    ensures forall k :: k in order' <==> k in counts'
    ensures forall a, b :: 0 <= a < b < |order'| ==> order'[a] != order'[b]
  {
    if c !in counts {
      forall a, b | 0 <= a < b < |order'| ensures order'[a] != order'[b] {
        if b == |order| {
          assert order'[a] == order[a];
        }
      }
    }
  }

  /** One goal changes only its own key's counter: t and t' are k's tallies before and after it. */
  lemma CounterStep<K>(u: Tally, c: Option<K>, counts: map<K, Tally>, counts': map<K, Tally>,
                       k: K, t: Tally, t': Tally)
    requires u.total == 1
    requires t.completed <= t.total
    requires k in counts <==> t.total > 0
    requires k in counts ==> counts[k] == t
    requires c.None? ==> counts' == counts
    requires c.Some? ==>
      counts' == counts[c.value := Plus(if c.value in counts then counts[c.value] else Tally(0, 0), u)]
    requires t' == if c == Some(k) then Plus(t, u) else t
    ensures k in counts' <==> t'.total > 0
    ensures k in counts' ==> counts'[k] == t'
  {
    if c == Some(k) {
      assert c.value == k;
      if k !in counts {
        assert t == Tally(0, 0);
      }
    } else if c.Some? {
      assert c.value != k;
    }
  }

  /** A fixed array of n counters, bumped at the index the bucket function picks (if any). */
  method TallyBuckets(goals: seq<LongTermGoal>, bucket: LongTermGoal -> Option<int>, n: nat)
    returns (buckets: seq<Tally>)
    requires forall g <- goals :: bucket(g).Some? ==> 0 <= bucket(g).value < n
    ensures |buckets| == n
    ensures forall k :: 0 <= k < n ==> buckets[k] == TallyOf(goals, bucket, k)
  {
    buckets := seq(n, _ => Tally(0, 0));
    for i := 0 to |goals|
      invariant |buckets| == n
      invariant forall k :: 0 <= k < n ==> buckets[k] == TallyOf(goals[..i], bucket, k)
    {
      forall k | 0 <= k < n
        ensures TallyOf(goals[..i + 1], bucket, k)
             == if bucket(goals[i]) == Some(k) then Plus(TallyOf(goals[..i], bucket, k), Counted(goals[i]))
                else TallyOf(goals[..i], bucket, k)
      {
        TallyOfStep(goals, bucket, k, i);
      }
      var g := goals[i];
      if bucket(g).Some? {
        var idx := bucket(g).value;
        buckets := buckets[idx := Plus(buckets[idx], Counted(g))];
      }
    }
    WholePrefix(goals);
  }

  // ---------------------------------------------------------------- headline figures

  function Everything(g: LongTermGoal): Option<bool> {
    Some(true)
  }

  datatype Kpis = Kpis(totalGoals: nat, completedGoals: nat, completionRate: nat)

  /** The headline figures, or None for an empty list (the page shows a placeholder instead). */
  function KpisOf(goals: seq<LongTermGoal>): (r: Option<Kpis>)
    ensures r.None? <==> goals == []
  {
    if goals == [] then None
    else
      var t := TallyOf(goals, Everything, true);
      Some(Kpis(t.total, t.completed, Rate(t)))
  }

  /** Every goal is counted once; the rate is the rounded share of completed goals and lies in [0, 100]. */
  lemma {:induction false} KpisFacts(goals: seq<LongTermGoal>)
    requires goals != []
    ensures var k := KpisOf(goals).value;
      && k.totalGoals == |goals|
      && k.completedGoals == |Filter(goals, IsCompleted)|
      && k.completionRate == Percent(k.completedGoals, k.totalGoals)
      && k.completionRate <= 100
  {
    EverythingCounted(goals);
  }

  function IsCompleted(g: LongTermGoal): bool {
    g.isCompleted
  }

  lemma {:induction false} EverythingCounted(goals: seq<LongTermGoal>)
    ensures TallyOf(goals, Everything, true) == Tally(|goals|, |Filter(goals, IsCompleted)|)
  {
    if goals != [] {
      var n := |goals| - 1;
      EverythingCounted(goals[..n]);
      FilterSnoc(goals[..n], goals[n], IsCompleted);
      assert goals[..n] + [goals[n]] == goals;
    }
  }

  lemma {:induction false} FilterSnoc<T>(s: seq<T>, x: T, p: T -> bool)
    ensures Filter(s + [x], p) == Filter(s, p) + (if p(x) then [x] else [])
  {
    if s == [] {
      assert [x][1..] == [];
    } else {
      assert (s + [x])[1..] == s[1..] + [x];
      FilterSnoc(s[1..], x, p);
    }
  }

  function IsLifetime(g: LongTermGoal): bool {
    g.kind == Lifetime
  }

  function IsTimeBased(g: LongTermGoal): bool {
    g.kind != Lifetime
  }

  /** `allGoals.filter(g => g.type !== 'lifetime')`. */
  function TimeBased(goals: seq<LongTermGoal>): (r: seq<LongTermGoal>)
    ensures forall g <- r :: g.kind != Lifetime
  {
    Filter(goals, IsTimeBased)
  }

  /** Lifetime and time-based goals split the list between them. */
  lemma {:induction false} LifetimeAndTimeBasedPartition(goals: seq<LongTermGoal>)
    ensures |Filter(goals, IsLifetime)| + |TimeBased(goals)| == |goals|
    ensures multiset(Filter(goals, IsLifetime)) + multiset(TimeBased(goals)) == multiset(goals)
  {
    if goals != [] {
      LifetimeAndTimeBasedPartition(goals[1..]);
      assert goals == [goals[0]] + goals[1..];
    }
  }

  /** The least year among goals that have one, if any. */
  function LeastYear(goals: seq<LongTermGoal>): (r: Option<int>)
    ensures r.None? <==> forall g <- goals :: g.year.None?
    ensures r.Some? ==> (exists g <- goals :: g.year == r) && forall g <- goals :: g.year.Some? ==> r.value <= g.year.value
  {
    if goals == [] then None
    else
      var n := |goals| - 1;
      var m := LeastYear(goals[..n]);
      assert goals == goals[..n] + [goals[n]];
      if goals[n].year.None? then m
      else if m.None? then goals[n].year
      else Some(Min(m.value, goals[n].year.value))
  }

  /** `minYear`: the first year of any time-based goal, or the current year when none has one. */
  function MinYear(goals: seq<LongTermGoal>, currentYear: int): int {
    LeastYear(TimeBased(goals)).GetOr(currentYear)
  }

  /** The label of the "all time" view starts at a year some time-based goal has, no later than any of them. */
  lemma MinYearFacts(goals: seq<LongTermGoal>, currentYear: int)
    ensures (forall g <- TimeBased(goals) :: g.year.None?) ==> MinYear(goals, currentYear) == currentYear
    ensures forall g <- goals :: g.kind != Lifetime && g.year.Some? ==> MinYear(goals, currentYear) <= g.year.value
    ensures (exists g <- TimeBased(goals) :: g.year.Some?) ==>
      exists g <- goals :: g.kind != Lifetime && g.year == Some(MinYear(goals, currentYear))
  {
    var tb := TimeBased(goals);
    forall g <- goals | g.kind != Lifetime && g.year.Some? ensures MinYear(goals, currentYear) <= g.year.value {
      var i :| 0 <= i < |goals| && goals[i] == g;
      assert g in tb;
    }
    if exists g <- tb :: g.year.Some? {
      var g :| g in tb && g.year == LeastYear(tb);
      var i :| 0 <= i < |tb| && tb[i] == g;
    }
  }

  // ---------------------------------------------------------------- by type

  function KindKey(g: LongTermGoal): Option<GoalType> {
    Some(g.kind)
  }

  /** `g => g.type === kind`. */
  function OfKind(kind: GoalType): LongTermGoal -> bool {
    (g: LongTermGoal) => g.kind == kind
  }

  /** `g => g.type === kind && g.is_completed`. */
  function DoneOfKind(kind: GoalType): LongTermGoal -> bool {
    (g: LongTermGoal) => g.kind == kind && g.isCompleted
  }

  /** `byType`: how many goals of each type, `allGoals.filter(g => g.type === kind).length`. */
  function ByType(goals: seq<LongTermGoal>, kind: GoalType): nat {
    |Filter(goals, OfKind(kind))|
  }

  /** A type's tally counts the goals of that type and the completed ones among them, as the filters do. */
  lemma {:induction false} TallyOfKind(goals: seq<LongTermGoal>, kind: GoalType)
    ensures TallyOf(goals, KindKey, kind) == Tally(ByType(goals, kind), |Filter(goals, DoneOfKind(kind))|)
  {
    if goals != [] {
      var n := |goals| - 1;
      assert goals == goals[..n] + [goals[n]];
      TallyOfKind(goals[..n], kind);
      FilterSnoc(goals[..n], goals[n], OfKind(kind));
      FilterSnoc(goals[..n], goals[n], DoneOfKind(kind));
    }
  }

  /** Rows are ranked by rate, highest first, then by completed goals; `bound` is at least every completed count. */
  function RankKey<L>(bound: nat): Row<L> -> int {
    (r: Row<L>) => -(r.rate * (bound + 1) + r.completed)
  }

  /** The rank key orders rows as `b.rate - a.rate || b.completed - a.completed` does. */
  lemma RankKeyOrder<L>(a: Row<L>, b: Row<L>, bound: nat)
    requires a.completed <= bound && b.completed <= bound
    ensures RankKey(bound)(a) < RankKey(bound)(b) <==> a.rate > b.rate || (a.rate == b.rate && a.completed > b.completed)
  {
    if a.rate > b.rate {
      MulMonotone(bound + 1, b.rate + 1, a.rate);
    } else if a.rate < b.rate {
      MulMonotone(bound + 1, a.rate + 1, b.rate);
    }
  }

  /** Among rows whose completed counts are bounded, the first in rank order beats or equals every row. */
  lemma RankedFirstIsBest<L>(rows: seq<Row<L>>, bound: nat, x: Row<L>)
    requires forall r <- rows :: r.completed <= bound
    requires x in rows
    ensures var best := SortByKey(rows, RankKey(bound))[0];
      x.rate <= best.rate && (x.rate == best.rate ==> x.completed <= best.completed)
  {
    SortedHeadIsLeast(rows, RankKey(bound), x);
    var sorted := SortByKey(rows, RankKey(bound));
    SortByKeyMembers(rows, RankKey(bound));
    RankKeyOrder(x, sorted[0], bound);
    RankKeyOrder(sorted[0], x, bound);
  }

  /** The five type rows before ranking: lifetime, annual, quarterly, monthly, weekly. */
  function TypeRows(goals: seq<LongTermGoal>): (rows: seq<Row<GoalType>>)
    ensures |rows| == 5
    ensures forall r <- rows :: r.completed <= r.total <= |goals| && r.rate <= 100
  {
    seq(5, i requires 0 <= i < 5 => RowOf(TypeOrder[i], TallyOf(goals, KindKey, TypeOrder[i])))
  }

  const TypeOrder: seq<GoalType> := [Lifetime, Annual, Quarterly, Monthly, Weekly]

  /** Each type row holds `byType`'s count of its type and the count of its completed goals. */
  lemma TypeRowsByType(goals: seq<LongTermGoal>)
    ensures forall i :: 0 <= i < 5 ==>
      (TypeRows(goals)[i].name == TypeOrder[i]
       && TypeRows(goals)[i].total == ByType(goals, TypeOrder[i])
       && TypeRows(goals)[i].completed == |Filter(goals, DoneOfKind(TypeOrder[i]))|)
  {
    forall i | 0 <= i < 5
      ensures TypeRows(goals)[i].total == ByType(goals, TypeOrder[i])
      ensures TypeRows(goals)[i].completed == |Filter(goals, DoneOfKind(TypeOrder[i]))|
    {
      TallyOfKind(goals, TypeOrder[i]);
    }
  }

  /** `typeStats`: the type rows ranked by rate, then by completed goals. */
  function TypeStats(goals: seq<LongTermGoal>): (rows: seq<Row<GoalType>>)
    ensures |rows| == 5
  {
    SortByKey(TypeRows(goals), RankKey(|goals|))
  }

  /** `bestType` has the highest rate of all types and, among those tied on rate, the most completed goals. */
  lemma BestTypeIsBest(goals: seq<LongTermGoal>, kind: GoalType)
    requires kind != StatsGoal
    ensures var best := TypeStats(goals)[0];
      var t := TallyOf(goals, KindKey, kind);
      Rate(t) <= best.rate && (Rate(t) == best.rate ==> t.completed <= best.completed)
  {
    var rows := TypeRows(goals);
    var i := match kind
      case Lifetime => 0 case Annual => 1 case Quarterly => 2 case Monthly => 3 case Weekly => 4;
    assert rows[i].name == kind;
    RankedFirstIsBest(rows, |goals|, rows[i]);
  }

  // ---------------------------------------------------------------- by category

  /** `g.color || 'null'`: the category key, with a missing or empty colour as "null". */
  function CategoryKey(g: LongTermGoal): string {
    if g.color.Some? && g.color.value != "" then g.color.value else "null"
  }

  /** `c === 'null' ? 'Generale' : (DEFAULT_CATEGORY_LABELS[c] || c)`. */
  function DefaultLabel(c: string, defaults: map<string, string>): string {
    if c == "null" then "Generale" else if c in defaults && defaults[c] != "" then defaults[c] else c
  }

  /** A category is shown when it is "null" or the user has renamed it away from its default label. */
  predicate IsActive(c: string, getLabel: Option<string> -> string, defaults: map<string, string>) {
    c == "null" || getLabel(Some(c)) != DefaultLabel(c, defaults)
  }

  function ActiveCategory(getLabel: Option<string> -> string, defaults: map<string, string>): LongTermGoal -> Option<string> {
    g => if IsActive(CategoryKey(g), getLabel, defaults) then Some(CategoryKey(g)) else None
  }

  /** `categoryStats`: per active category, its goals and completed goals; categories in first-seen order. */
  method CategoryStats(goals: seq<LongTermGoal>, getLabel: Option<string> -> string, defaults: map<string, string>)
    returns (stats: map<string, Tally>, order: seq<string>)
    ensures forall c :: c in stats <==>
      IsActive(c, getLabel, defaults) && exists i :: 0 <= i < |goals| && CategoryKey(goals[i]) == c
    ensures forall c :: c in stats ==> 0 < stats[c].total && stats[c].completed <= stats[c].total
    ensures forall c :: c in stats ==> stats[c] == TallyOf(goals, ActiveCategory(getLabel, defaults), c)
    ensures forall c :: c in order <==> c in stats
    ensures forall i, j :: 0 <= i < j < |order| ==> order[i] != order[j]
    ensures forall i, j {:trigger FirstIndex(goals, ActiveCategory(getLabel, defaults), order[i]), FirstIndex(goals, ActiveCategory(getLabel, defaults), order[j])} ::
      0 <= i < j < |order| ==>
      FirstIndex(goals, ActiveCategory(getLabel, defaults), order[i]) < FirstIndex(goals, ActiveCategory(getLabel, defaults), order[j])
  {
    var key := ActiveCategory(getLabel, defaults);
    stats, order := TallyByKey(goals, key);
    forall c ensures c in stats <==> IsActive(c, getLabel, defaults) && exists i :: 0 <= i < |goals| && CategoryKey(goals[i]) == c {
      TallyOfPositive(goals, key, c);
      if IsActive(c, getLabel, defaults) && exists i :: 0 <= i < |goals| && CategoryKey(goals[i]) == c {
        var i :| 0 <= i < |goals| && CategoryKey(goals[i]) == c;
        assert key(goals[i]) == Some(c);
      }
    }
  }

  /** The category rows in first-seen order; every listed category has goals. */
  function CategoryRows(stats: map<string, Tally>, order: seq<string>): (rows: seq<Row<string>>)
    requires forall c <- order :: c in stats
    ensures |rows| == |order|
    ensures forall i :: 0 <= i < |rows| ==> rows[i] == RowOf(order[i], stats[order[i]])
  {
    seq(|order|, i requires 0 <= i < |order| => RowOf(order[i], stats[order[i]]))
  }

  function NegRate(r: Row<string>): int {
    -(r.rate as int)
  }

  function NegTotal(r: Row<string>): int {
    -(r.total as int)
  }

  /** `radarData`: the category rows, highest rate first. */
  function RadarData(stats: map<string, Tally>, order: seq<string>): seq<Row<string>>
    requires forall c <- order :: c in stats
  {
    SortByKey(CategoryRows(stats, order), NegRate)
  }

  /** `pieData`: the category rows, most goals first. */
  function PieData(stats: map<string, Tally>, order: seq<string>): seq<Row<string>>
    requires forall c <- order :: c in stats
  {
    SortByKey(CategoryRows(stats, order), NegTotal)
  }

  /** `bestCategory`: the first radar row, or None when no category is active. */
  function BestCategory(stats: map<string, Tally>, order: seq<string>): (r: Option<Row<string>>)
    requires forall c <- order :: c in stats
    ensures r.None? <==> order == []
  {
    var radar := RadarData(stats, order);
    if |radar| > 0 then Some(radar[0]) else None
  }

  /**
   * The radar rows are the category rows rearranged, highest rate first, and
   * categories with the same rate stay in the order they were first seen.
   */
  lemma RadarDataOrdered(stats: map<string, Tally>, order: seq<string>)
    requires forall c <- order :: c in stats
    ensures var radar := RadarData(stats, order);
      && multiset(radar) == multiset(CategoryRows(stats, order))
      && (forall i, j :: 0 <= i < j < |radar| ==> radar[i].rate >= radar[j].rate)
      && forall n :: WithKey(radar, NegRate, n) == WithKey(CategoryRows(stats, order), NegRate, n)
  {
    var rows := CategoryRows(stats, order);
    SortByKeyAscending(rows, NegRate);
    forall n ensures WithKey(RadarData(stats, order), NegRate, n) == WithKey(rows, NegRate, n) {
      SortByKeyStable(rows, NegRate, n);
    }
  }

  /**
   * The pie slices are the category rows rearranged, most goals first, and
   * categories with as many goals stay in the order they were first seen.
   */
  lemma PieDataOrdered(stats: map<string, Tally>, order: seq<string>)
    requires forall c <- order :: c in stats
    ensures var pie := PieData(stats, order);
      && multiset(pie) == multiset(CategoryRows(stats, order))
      && (forall i, j :: 0 <= i < j < |pie| ==> pie[i].total >= pie[j].total)
      && forall n :: WithKey(pie, NegTotal, n) == WithKey(CategoryRows(stats, order), NegTotal, n)
  {
    var rows := CategoryRows(stats, order);
    SortByKeyAscending(rows, NegTotal);
    forall n ensures WithKey(PieData(stats, order), NegTotal, n) == WithKey(rows, NegTotal, n) {
      SortByKeyStable(rows, NegTotal, n);
    }
  }

  /** On a tie for the highest rate, the best category is the one seen first: every category before it has a lower rate. */
  lemma BestCategoryFirstOfTies(stats: map<string, Tally>, order: seq<string>)
    requires forall c <- order :: c in stats
    requires order != []
    ensures exists i :: (0 <= i < |order| && BestCategory(stats, order).value == RowOf(order[i], stats[order[i]])
      && forall j :: 0 <= j < i ==> Rate(stats[order[j]]) < Rate(stats[order[i]]))
  {
    var rows := CategoryRows(stats, order);
    SortedHeadIsFirstLeast(rows, NegRate);
    var i :| 0 <= i < |rows| && SortByKey(rows, NegRate)[0] == rows[i] && forall j :: 0 <= j < i ==> NegRate(rows[i]) < NegRate(rows[j]);
    forall j | 0 <= j < i ensures Rate(stats[order[j]]) < Rate(stats[order[i]]) {
      assert NegRate(rows[i]) < NegRate(rows[j]);
    }
  }

  /** The best category is an active category and no active category has a higher rate. */
  lemma BestCategoryIsBest(stats: map<string, Tally>, order: seq<string>, c: string)
    requires forall c <- order :: c in stats
    requires c in order
    ensures var best := BestCategory(stats, order).value;
      best.name in order && Rate(stats[c]) <= best.rate
  {
    var rows := CategoryRows(stats, order);
    var i :| 0 <= i < |order| && order[i] == c;
    SortedHeadIsLeast(rows, NegRate, rows[i]);
    SortByKeyMembers(rows, NegRate);
    var best := RadarData(stats, order)[0];
    var j :| 0 <= j < |rows| && rows[j] == best;
  }
}
