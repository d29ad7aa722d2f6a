/**
 The level computation behind the analysis histogram (`AnalysisViewModel`): the decayed
 sum of logged intakes at a time, and twelve samples two hours apart ending now.
 */
module Analysis {
  import opened Decay

  /** A logged intake (`CaffeineIntake`). */
  datatype Intake = Intake(sourceName: string, amount: int, timestampMillis: int)

  /** One bar of the histogram: its hour label and the level at the end of its interval. */
  datatype HistogramData = HistogramData(timeLabel: string, level: real)

  /** Two hours in milliseconds: the width of one bar. */
  const TwoHoursMillis: int := 2 * 60 * 60 * 1000

  /** Twelve bars cover the past 24 hours. */
  const BucketCount: nat := 12

  /** What one intake adds to the level at `target`: nothing when logged after it. */
  function Contribution(x: Intake, target: int, decay: DecayFn): real
  {
    if x.timestampMillis <= target then x.amount as real * decay(target - x.timestampMillis) else 0.0
  }

  /** The sum of the contributions, accumulated front to back. */
  function Total(intakes: seq<Intake>, target: int, decay: DecayFn): real
  {
    if |intakes| == 0 then 0.0
    else Total(intakes[..|intakes| - 1], target, decay) + Contribution(intakes[|intakes| - 1], target, decay)
  }

  /** The level shown at `target`: the total, floored at 1 mg. */
  function LevelAt(intakes: seq<Intake>, target: int, decay: DecayFn): (r: real)
    ensures r == 0.0 || r >= 1.0
    ensures |intakes| == 0 ==> r == 0.0
  {
    FloorLevel(Total(intakes, target, decay))
  }

  /** `calculateCaffeineLevelAtTime`: the loop over the intakes computes `LevelAt`. */
  method CalculateLevelAtTime(intakes: seq<Intake>, target: int, decay: DecayFn) returns (level: real)
    ensures level == LevelAt(intakes, target, decay)
  {
    var total := 0.0;
    var i := 0;
    while i < |intakes|
      invariant 0 <= i <= |intakes|
      invariant total == Total(intakes[..i], target, decay)
    {
      var intake := intakes[i];
      if intake.timestampMillis <= target {
        var elapsed := target - intake.timestampMillis;
        total := total + intake.amount as real * decay(elapsed);
      }
      assert intakes[..i + 1][..i] == intakes[..i];
      i := i + 1;
    }
    assert intakes[..i] == intakes;
    level := if total < 1.0 then 0.0 else total;
  }

  /** The time at which the `i`-th bar, oldest first, is evaluated. */
  function BucketTime(now: int, i: int): (r: int)
    ensures i == BucketCount - 1 ==> r == now
    ensures 0 <= i < BucketCount ==> now - 22 * 60 * 60 * 1000 <= r <= now
    ensures 0 < i < BucketCount ==> r == BucketTime(now, i - 1) + TwoHoursMillis
  {
    now - (BucketCount - 1 - i) * TwoHoursMillis
  }

  /** The entries of `s` in reverse order. */
  function Reversed<T>(s: seq<T>): (r: seq<T>)
    ensures |r| == |s|
    ensures forall i | 0 <= i < |s| :: r[i] == s[|s| - 1 - i]
  {
    if |s| == 0 then [] else [s[|s| - 1]] + Reversed(s[..|s| - 1])
  }

  /**
   `getHistogramData`: bar `j` of the loop is evaluated at `now - j * 2h`, and the list
   is then reversed so that it runs oldest to newest and ends at `now`. The hour label
   of a time is computed by `hourLabel`.
   */
  method GetHistogramData(intakes: seq<Intake>, now: int, decay: DecayFn, hourLabel: int -> string)
    returns (r: seq<HistogramData>)
    ensures |r| == BucketCount
    ensures forall i | 0 <= i < |r| ::
      r[i] == HistogramData(hourLabel(BucketTime(now, i)), LevelAt(intakes, BucketTime(now, i), decay))
    ensures r[BucketCount - 1].level == LevelAt(intakes, now, decay)
    ensures |intakes| == 0 ==> forall i | 0 <= i < |r| :: r[i].level == 0.0
  {
    var data: seq<HistogramData> := [];
    var j := 0;
    while j < BucketCount
      invariant 0 <= j <= BucketCount
      invariant |data| == j
      invariant forall k | 0 <= k < j ::
        data[k] == HistogramData(hourLabel(now - k * TwoHoursMillis),
                                 LevelAt(intakes, now - k * TwoHoursMillis, decay))
    {
      var intervalEnd := now - j * TwoHoursMillis;
      var level := CalculateLevelAtTime(intakes, intervalEnd, decay);
      data := data + [HistogramData(hourLabel(intervalEnd), level)];
      j := j + 1;
    }
    r := Reversed(data);
  }
}
