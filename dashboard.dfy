/**
 * The reading dashboard's month card: the share of this month's marked days
 * that were read, and the card's colour variant.
 */
module Dashboard {

  import opened Rounding

  /** `monthPercentage`: the rounded percentage of marked days that were read, 0 with nothing marked. */
  function MonthPercentage(monthDone: nat, monthMissed: nat): (p: nat)
    ensures p <= 100
    ensures monthDone == 0 ==> p == 0
    ensures monthMissed == 0 && monthDone > 0 ==> p == 100
    ensures monthDone + monthMissed > 0 ==>
      2 * (monthDone + monthMissed) * p <= 200 * monthDone + (monthDone + monthMissed) < 2 * (monthDone + monthMissed) * (p + 1)
  {
    var monthTotal := monthDone + monthMissed;
    if monthTotal > 0 then
      PercentBracket(monthDone, monthTotal);
      Percent(monthDone, monthTotal)
    else 0
  }

  /** More days read against the same number missed never lowers the percentage. */
  lemma MonthPercentageGrowsWithReading(done: nat, missed: nat)
    ensures MonthPercentage(done, missed) <= MonthPercentage(done + 1, missed)
  {
    if done + missed > 0 {
      PercentCrossMonotone(done, done + missed, done + 1, done + 1 + missed);
    }
  }

  datatype Variant = Success | Default | Destructive

  /** `success` from 70%, `default` from 40%, `destructive` below. */
  function VariantFor(percentage: nat): (v: Variant)
    ensures v == Success <==> percentage >= 70
    ensures v == Default <==> 40 <= percentage < 70
    ensures v == Destructive <==> percentage < 40
  {
    if percentage >= 70 then Success else if percentage >= 40 then Default else Destructive
  }

  /** An empty month shows as destructive; a month with every marked day read shows as success. */
  lemma VariantExtremes(done: nat, missed: nat)
    ensures done == 0 ==> VariantFor(MonthPercentage(done, missed)) == Destructive
    ensures done > 0 && missed == 0 ==> VariantFor(MonthPercentage(done, missed)) == Success
  {
  }
}
