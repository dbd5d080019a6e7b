/**
 * The monthly reading goal: a number of days between 1 and 31, 20 until the
 * saved value arrives. Updating it clamps the request into range and shows
 * the clamped value at once, before the value is saved.
 */
module MonthlyGoal {

  import opened Wrappers
  import opened Arith

  const DefaultGoal: int := 20
  const MinGoal: int := 1
  const MaxGoal: int := 31

  /** `Math.max(1, Math.min(31, newGoal))`. */
  function ClampGoal(n: int): (g: int)
    ensures MinGoal <= g <= MaxGoal
    ensures MinGoal <= n <= MaxGoal ==> g == n
    ensures n < MinGoal ==> g == MinGoal
    ensures n > MaxGoal ==> g == MaxGoal
  {
    Max(MinGoal, Min(MaxGoal, n))
  }

  /** Clamping a clamped goal changes nothing. */
  lemma ClampIdempotent(n: int)
    ensures ClampGoal(ClampGoal(n)) == ClampGoal(n)
  {
  }

  /** A larger request never yields a smaller goal. */
  lemma ClampMonotone(n: int, m: int)
    requires n <= m
    ensures ClampGoal(n) <= ClampGoal(m)
  {
  }

  /** The hook's state: the current goal and whether the saved value is still loading. */
  class GoalState {
    var goal: int
    var isLoading: bool

    /** The initial state: the default goal while the saved value loads. */
    constructor()
      ensures goal == DefaultGoal && isLoading
    {
      goal := DefaultGoal;
      isLoading := true;
    }

    /**
     * `updateGoal`: sets the goal to the clamped request and returns the value
     * handed to the store. A failed save is only logged, so the local goal
     * keeps the clamped value whatever the store answers.
     */
    method UpdateGoal(newGoal: int) returns (saved: int)
      modifies this
      ensures goal == saved == ClampGoal(newGoal)
      ensures isLoading == old(isLoading)
    {
      var clampedGoal := ClampGoal(newGoal);
      goal := clampedGoal;
      saved := clampedGoal;
    }

    /**
     * The end of the initial fetch: a stored value replaces the goal as it was
     * stored (it is not clamped on the way in); no stored value, or a failed
     * fetch, keeps the current goal. Either way loading is over.
     */
    method FinishLoading(stored: Option<int>)
      modifies this
      ensures goal == (if stored.Some? then stored.value else old(goal))
      ensures !isLoading
    {
      if stored.Some? {
        goal := stored.value;
      }
      isLoading := false;
    }
  }
}
