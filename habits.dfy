/**
 * The habit tracker's records: a habit (goal) with its validity dates, and the
 * per-day log that maps a date to each habit's status. A habit with no entry
 * for a day (or an explicit `null`) has no status that day.
 */
module Habits {

  import opened Wrappers

  datatype Status = Done | Missed | Skipped

  type HabitId = string

  /** A habit; `startDate` and `endDate` are inclusive day numbers. */
  datatype Goal = Goal(id: HabitId, title: string, color: string, startDate: int, endDate: Option<int>)

  /** `GoalLogsMap`: day -> habit id -> status. */
  type GoalLogs = map<int, map<HabitId, Status>>

  /** `logs[day]?.[id]`, with a missing or null entry read as None. */
  function StatusOn(logs: GoalLogs, day: int, id: HabitId): (s: Option<Status>)
    ensures s.Some? <==> day in logs && id in logs[day]
    ensures s.Some? ==> s.value == logs[day][id]
  {
    if day in logs && id in logs[day] then Some(logs[day][id]) else None
  }
}
