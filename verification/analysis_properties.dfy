/**
 Properties of the histogram level: which intakes count at a time, in what measure,
 and that the order in which they were logged does not matter.
 */
module AnalysisProperties {
  import opened Decay
  import opened Analysis

  /** The total over two logs laid end to end is the sum of their totals. */
  lemma {:induction false} TotalConcat(a: seq<Intake>, b: seq<Intake>, target: int, decay: DecayFn)
    ensures Total(a + b, target, decay) == Total(a, target, decay) + Total(b, target, decay)
    decreases |b|
  {
    if |b| == 0 {
      assert a + b == a;
    } else {
      var b' := b[..|b| - 1];
      assert (a + b)[..|a + b| - 1] == a + b';
      TotalConcat(a, b', target, decay);
    }
  }

  /** The level does not depend on the order of the log. */
  lemma TotalSwap(a: seq<Intake>, b: seq<Intake>, target: int, decay: DecayFn)
    ensures Total(a + b, target, decay) == Total(b + a, target, decay)
  {
    TotalConcat(a, b, target, decay);
    TotalConcat(b, a, target, decay);
  }

  lemma TotalSingle(x: Intake, target: int, decay: DecayFn)
    ensures Total([x], target, decay) == Contribution(x, target, decay)
  {
    assert [x][..0] == [];
  }

  /** An intake logged after the target time adds nothing, wherever it sits in the log. */
  lemma LaterIntakeIgnored(a: seq<Intake>, x: Intake, b: seq<Intake>, target: int, decay: DecayFn)
    requires x.timestampMillis > target
    ensures LevelAt(a + [x] + b, target, decay) == LevelAt(a + b, target, decay)
  {
    TotalConcat(a + [x], b, target, decay);
    TotalConcat(a, [x], target, decay);
    TotalConcat(a, b, target, decay);
    TotalSingle(x, target, decay);
  }

  /** An intake logged exactly at the target time adds its full amount. */
  lemma IntakeAtTargetCountsFully(a: seq<Intake>, x: Intake, b: seq<Intake>, target: int, decay: DecayFn)
    requires IsDecay(decay)
    requires x.timestampMillis == target
    ensures Total(a + [x] + b, target, decay) == Total(a + b, target, decay) + x.amount as real
  {
    TotalConcat(a + [x], b, target, decay);
    TotalConcat(a, [x], target, decay);
    TotalConcat(a, b, target, decay);
    TotalSingle(x, target, decay);
  }

  /** The undecayed sum of the amounts logged at or before `target`. */
  function AmountUpTo(intakes: seq<Intake>, target: int): int
  {
    if |intakes| == 0 then 0
    else
      var last := intakes[|intakes| - 1];
      AmountUpTo(intakes[..|intakes| - 1], target) + if last.timestampMillis <= target then last.amount else 0
  }

  /** A non-negative intake contributes between 0 and its undecayed amount. */
  lemma ContributionWithin(x: Intake, target: int, decay: DecayFn)
    requires IsDecay(decay) && x.amount >= 0
    ensures 0.0 <= Contribution(x, target, decay)
    ensures Contribution(x, target, decay) <= if x.timestampMillis <= target then x.amount as real else 0.0
  {
    if x.timestampMillis <= target {
      DecayedWithin(x.amount as real, decay(target - x.timestampMillis));
    }
  }

  /** With non-negative amounts, decay only ever shrinks the total below the undecayed sum. */
  lemma {:induction false} TotalWithinAmounts(intakes: seq<Intake>, target: int, decay: DecayFn)
    requires IsDecay(decay)
    requires forall i | 0 <= i < |intakes| :: intakes[i].amount >= 0
    ensures 0.0 <= Total(intakes, target, decay) <= AmountUpTo(intakes, target) as real
    decreases |intakes|
  {
    if |intakes| > 0 {
      var init := intakes[..|intakes| - 1];
      var last := intakes[|intakes| - 1];
      assert forall i | 0 <= i < |init| :: init[i].amount >= 0 by {
        forall i | 0 <= i < |init| ensures init[i].amount >= 0 {
          assert init[i] == intakes[i];
        }
      }
      TotalWithinAmounts(init, target, decay);
      ContributionWithin(last, target, decay);
      var c := Contribution(last, target, decay);
      var counted := if last.timestampMillis <= target then last.amount else 0;
      assert Total(intakes, target, decay) == Total(init, target, decay) + c;
      assert AmountUpTo(intakes, target) == AmountUpTo(init, target) + counted;
      assert c <= counted as real;
    }
  }
}
