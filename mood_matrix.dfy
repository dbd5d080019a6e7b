/**
 * The mood/energy performance matrix: only habits with at least five days of
 * mood data are shown, each cell tinted by its completion rate in five bands
 * and written in white on the two strongest tints.
 */
module MoodMatrix {

  import opened Lists

  /** The fields of a habit's correlation record that the matrix reads. */
  datatype Correlation = Correlation(habitId: string, totalDaysWithMoodData: int)

  const MinDays: int := 5

  function HasEnoughData(c: Correlation): bool {
    c.totalDaysWithMoodData >= MinDays
  }

  datatype MatrixView = Placeholder | Matrix(rows: seq<Correlation>)

  /** The placeholder when no habit has five days of data, else the matrix of those that do, in order. */
  function View(correlations: seq<Correlation>): (v: MatrixView)
    ensures v.Placeholder? <==> forall i :: 0 <= i < |correlations| ==> correlations[i].totalDaysWithMoodData < MinDays
    ensures v.Matrix? ==> forall i :: 0 <= i < |v.rows| ==> v.rows[i] in correlations && v.rows[i].totalDaysWithMoodData >= MinDays
    ensures v.Matrix? ==> forall i :: 0 <= i < |correlations| && HasEnoughData(correlations[i]) ==> correlations[i] in v.rows
  {
    var valid := Filter(correlations, HasEnoughData);
    if |valid| == 0 then
      Placeholder
    else
      assert valid[0] in correlations && HasEnoughData(valid[0]);
      Matrix(valid)
  }

  /** The two-digit alpha suffix `getColorIntensity` appends to the base colour. */
  function Alpha(rate: real): (a: nat)
    ensures a == 90 <==> rate >= 80.0
    ensures a == 70 <==> 60.0 <= rate < 80.0
    ensures a == 50 <==> 40.0 <= rate < 60.0
    ensures a == 30 <==> 20.0 <= rate < 40.0
    ensures a == 10 <==> rate < 20.0
  {
    if rate >= 80.0 then 90
    else if rate >= 60.0 then 70
    else if rate >= 40.0 then 50
    else if rate >= 20.0 then 30
    else 10
  }

  /** A higher rate never gets a lighter tint. */
  lemma AlphaMonotone(r: real, s: real)
    requires r <= s
    ensures Alpha(r) <= Alpha(s)
  {
  }

  function Digit(n: nat): char
    requires n < 10
  {
    "0123456789"[n]
  }

  /** `getColorIntensity(rate, baseColor)`: the base colour followed by the alpha's two digits. */
  function ColorIntensity(rate: real, baseColor: string): (c: string)
    ensures |c| == |baseColor| + 2 && c[..|baseColor|] == baseColor
    ensures c[|baseColor|..] in ["90", "70", "50", "30", "10"]
  {
    var a := Alpha(rate);
    baseColor + [Digit(a / 10), Digit(a % 10)]
  }

  datatype TextColor = White | Foreground

  /** `getTextColor`. */
  function TextColorFor(rate: real): (t: TextColor)
    ensures t == White <==> rate >= 60.0
  {
    if rate >= 60.0 then White else Foreground
  }

  /** White text goes exactly on the two strongest tints. */
  lemma WhiteOnStrongTints(rate: real)
    ensures TextColorFor(rate) == White <==> Alpha(rate) >= 70
  {
  }

  /** `Math.round(rate)`: the nearest whole percentage, halves rounding up. */
  function RoundRate(rate: real): (r: int)
    ensures (r as real) - 0.5 <= rate < (r as real) + 0.5
  {
    (rate + 0.5).Floor
  }

  /** One mood or energy cell: the rounded rate it shows, its tint and its text colour. */
  datatype MatrixCell = MatrixCell(percent: int, background: string, text: TextColor)

  function CellFor(rate: real, baseColor: string): (c: MatrixCell)
    ensures c.percent == RoundRate(rate)
    ensures c.background == ColorIntensity(c.percent as real, baseColor)
    ensures c.text == TextColorFor(c.percent as real)
  {
    var r := RoundRate(rate);
    MatrixCell(r, ColorIntensity(r as real, baseColor), TextColorFor(r as real))
  }

  /**
   * Because the rate is rounded first, a cell is written in white exactly when
   * its raw rate is at least 59.5, and gets the strongest tint from 79.5.
   */
  lemma CellThresholds(rate: real, baseColor: string)
    ensures CellFor(rate, baseColor).text == White <==> rate >= 59.5
    ensures Alpha(CellFor(rate, baseColor).percent as real) == 90 <==> rate >= 79.5
  {
    var r := RoundRate(rate);
    if rate >= 59.5 {
      assert (r as real) > 59.0;
      assert r >= 60;
    }
    if rate >= 79.5 {
      assert (r as real) > 79.0;
      assert r >= 80;
    }
  }
}
