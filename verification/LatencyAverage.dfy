/** The running average of `handleAvgLatencyMsg`: each new sample is averaged with the average so far,
    in int64 with Go's truncating division. */
module LatencyAverage {
  import opened GoInts
  import opened Basics

  /** `(nowAvgLatency + latency) / 2`. */
  function Half(avg: int, x: int): int {
    TruncDiv(Wrap64(avg + x), 2)
  }

  /** The entry after one more sample. */
  function Step(entry: Option<int>, x: int): int {
    if entry.None? then x else Half(entry.value, x)
  }

  /** The average after the samples, from the entry that was there before. */
  function Average(before: Option<int>, samples: seq<int>): Option<int> {
    if samples == [] then before
    else Some(Step(Average(before, samples[..|samples| - 1]), samples[|samples| - 1]))
  }

  /** One step stays between the average and the sample if and only if their sum fits in an int64;
      otherwise it lands beyond one of them. */
  lemma HalfBetweenExactly(avg: int, x: int)
    requires InInt64(avg) && InInt64(x)
    ensures (avg <= Half(avg, x) <= x || x <= Half(avg, x) <= avg) <==> InInt64(avg + x)
  {
    if InInt64(avg + x) {
      WrapIsIdentity(avg + x);
    } else if avg + x >= TWO_63 {
      assert (avg + x) % TWO_64 == avg + x;
    } else {
      assert (avg + x) % TWO_64 == avg + x + TWO_64;
    }
  }

  /** The half is rounded toward zero. */
  lemma HalfTowardZero(avg: int, x: int)
    requires InInt64(avg + x)
    ensures avg + x >= 0 ==> 0 <= 2 * Half(avg, x) <= avg + x < 2 * Half(avg, x) + 2
    ensures avg + x <= 0 ==> 2 * Half(avg, x) - 2 < avg + x <= 2 * Half(avg, x) <= 0
  {
    WrapIsIdentity(avg + x);
  }

  /** No step of the average overflows: each sum of the average so far and the sample fits. */
  ghost predicate SumsFit(before: Option<int>, samples: seq<int>) {
    samples == [] ||
    var front, x := samples[..|samples| - 1], samples[|samples| - 1];
    SumsFit(before, front) && (Average(before, front).Some? ==> InInt64(Average(before, front).value + x))
  }

  /** Each step of the average lands between the average so far and the sample. */
  ghost predicate StepsBetween(before: Option<int>, samples: seq<int>) {
    samples == [] ||
    var front, x := samples[..|samples| - 1], samples[|samples| - 1];
    && StepsBetween(before, front)
    && var avg := Average(before, front);
      avg.Some? ==> avg.value <= Half(avg.value, x) <= x || x <= Half(avg.value, x) <= avg.value
  }

  ghost predicate AllInt64(before: Option<int>, samples: seq<int>) {
    (before.Some? ==> InInt64(before.value)) && forall i :: 0 <= i < |samples| ==> InInt64(samples[i])
  }

  lemma {:induction false} AverageInInt64(before: Option<int>, samples: seq<int>)
    requires AllInt64(before, samples)
    ensures Average(before, samples).Some? ==> InInt64(Average(before, samples).value)
  {
    if samples != [] {
      AverageInInt64(before, samples[..|samples| - 1]);
    }
  }

  /** For whole sequences: the average never leaves its inputs if and only if no sum overflows. */
  lemma {:induction false} BetweenExactlyWhenSumsFit(before: Option<int>, samples: seq<int>)
    requires AllInt64(before, samples)
    ensures StepsBetween(before, samples) <==> SumsFit(before, samples)
    decreases |samples|
  {
    if samples != [] {
      var front, x := samples[..|samples| - 1], samples[|samples| - 1];
      BetweenExactlyWhenSumsFit(before, front);
      AverageInInt64(before, front);
      if Average(before, front).Some? {
        HalfBetweenExactly(Average(before, front).value, x);
      }
    }
  }

  /** Samples within bounds whose doubles fit never overflow; for nanoseconds that is 146 years. */
  lemma {:induction false} BoundedSumsFit(before: Option<int>, samples: seq<int>, lo: int, hi: int)
    requires -TWO_63 <= 2 * lo && 2 * hi < TWO_63
    requires (before.Some? ==> lo <= before.value <= hi) && forall i :: 0 <= i < |samples| ==> lo <= samples[i] <= hi
    ensures SumsFit(before, samples)
    ensures Average(before, samples).Some? ==> lo <= Average(before, samples).value <= hi
    decreases |samples|
  {
    if samples != [] {
      var front, x := samples[..|samples| - 1], samples[|samples| - 1];
      BoundedSumsFit(before, front, lo, hi);
      if Average(before, front).Some? {
        WrapIsIdentity(Average(before, front).value + x);
      }
    }
  }

  /** The exact average that the code approximates: each sample halves the weight of the past. */
  ghost function Exact(samples: seq<int>): real
    requires samples != []
  {
    var x := samples[|samples| - 1] as real;
    if |samples| == 1 then x else (Exact(samples[..|samples| - 1]) + x) / 2.0
  }

  /** While the sums fit the average lies between the bounds of the samples and within 1 ns of the exact
      one. */
  lemma {:induction false} AverageIsAccurate(samples: seq<int>, lo: int, hi: int)
    requires samples != [] && SumsFit(None, samples) && forall i :: 0 <= i < |samples| ==> lo <= samples[i] <= hi
    ensures var a := Average(None, samples);
      && a.Some? && lo <= a.value <= hi
      && -1.0 < a.value as real - Exact(samples) < 1.0
  {
    if |samples| > 1 {
      var front := samples[..|samples| - 1];
      var x := samples[|samples| - 1];
      AverageIsAccurate(front, lo, hi);
      var avg := Average(None, front).value;
      WrapIsIdentity(avg + x);
      HalfError(avg, x, Exact(front));
    } else {
      assert samples[..0] == [];
    }
  }

  /** Halving halves the error and adds at most one half. */
  lemma HalfError(avg: int, x: int, exact: real)
    requires InInt64(avg + x) && -1.0 < avg as real - exact < 1.0
    ensures -1.0 < Half(avg, x) as real - (exact + x as real) / 2.0 < 1.0
  {
    WrapIsIdentity(avg + x);
    var h := Half(avg, x);
    assert -1 <= 2 * h - (avg + x) <= 1;
    assert 2.0 * (h as real) - (avg as real + x as real) == (2 * h - (avg + x)) as real;
  }

  /** A distance that started as `d0` and was halved `n` times, each time up to 1 ns. */
  ghost predicate Halved(d: nat, n: nat, d0: nat) {
    d * Pow2(n) <= d0 + Pow2(n) - 1
  }

  /** On a constant input the distance to it halves with each sample, up to 1 ns. */
  lemma {:induction false} ConvergesToConstant(a0: int, c: int, samples: seq<int>)
    requires SumsFit(Some(a0), samples) && forall i :: 0 <= i < |samples| ==> samples[i] == c
    ensures var a := Average(Some(a0), samples);
      a.Some? && Halved(Abs(a.value - c), |samples|, Abs(a0 - c))
  {
    if samples != [] {
      var front := samples[..|samples| - 1];
      ConvergesToConstant(a0, c, front);
      ConstantStep(Average(Some(a0), front).value, c, |front|, Abs(a0 - c));
    }
  }

  lemma ConstantStep(avg: int, c: int, n: nat, d0: nat)
    requires InInt64(avg + c) && Halved(Abs(avg - c), n, d0)
    ensures Halved(Abs(Half(avg, c) - c), n + 1, d0)
  {
    HalfDistance(avg, c);
    HalvingStep(Abs(Half(avg, c) - c), Abs(avg - c), Pow2(n), d0);
  }

  lemma HalfDistance(avg: int, c: int)
    requires InInt64(avg + c)
    ensures 2 * Abs(Half(avg, c) - c) <= Abs(avg - c) + 1
  {
    WrapIsIdentity(avg + c);
  }

  lemma HalvingStep(d': nat, d: nat, p: nat, d0: nat)
    requires 2 * d' <= d + 1 && d * p <= d0 + p - 1
    ensures d' * (2 * p) <= d0 + 2 * p - 1
  {
    assert (2 * d') * p <= (d + 1) * p;
  }
}
