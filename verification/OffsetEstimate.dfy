/** The server-time difference of `TestBinanceHttpAndWsLatency`: probes that may fail, the midpoint
    estimate of each, and the truncated average that is written back to the run case. */
module OffsetEstimate {
  import opened GoInts

  const MS_IN_NS: int := 1000000

  /** One probe: it failed somewhere, or it has the local times of request and response and the
      server's time stamp in milliseconds. */
  datatype Probe = Failed | Answer(start: int, end: int, serverMs: int)

  /** The estimate of one answer: midpoint of the request minus server time. */
  function Diff(p: Probe): int
    requires p.Answer?
  {
    Wrap64(TruncDiv(Wrap64(p.end + p.start), 2) - Wrap64(p.serverMs * MS_IN_NS))
  }

  function Diffs(probes: seq<Probe>): seq<int> {
    if probes == [] then []
    else
      var front, last := Diffs(probes[..|probes| - 1]), probes[|probes| - 1];
      if last.Failed? then front else front + [Diff(last)]
  }

  /** The int64 sum of the estimates. */
  function WrappedSum(ds: seq<int>): int {
    if ds == [] then 0 else Wrap64(WrappedSum(ds[..|ds| - 1]) + ds[|ds| - 1])
  }

  /** The average, or 0 when no probe succeeded. */
  function Estimate(ds: seq<int>): int {
    if ds == [] then 0 else TruncDiv(WrappedSum(ds), |ds|)
  }

  datatype RunCase = RunCase(name: string, serverTimeDiff: int)

  // ----- the mean

  /** How many probes succeeded. */
  ghost function Successes(probes: seq<Probe>): nat {
    if probes == [] then 0 else (if probes[0].Answer? then 1 else 0) + Successes(probes[1..])
  }

  /** The sum of their estimates, without a bound. */
  ghost function ExactSum(probes: seq<Probe>): int {
    if probes == [] then 0 else (if probes[0].Answer? then Diff(probes[0]) else 0) + ExactSum(probes[1..])
  }

  /** `avg` is `sum / n` rounded toward zero. */
  ghost predicate RoundedMean(avg: int, sum: int, n: nat) {
    && (sum >= 0 ==> 0 <= avg && avg * n <= sum < (avg + 1) * n)
    && (sum <= 0 ==> avg <= 0 && (avg - 1) * n < sum <= avg * n)
  }

  lemma {:induction false} SuccessesAppend(a: seq<Probe>, p: Probe)
    ensures Successes(a + [p]) == Successes(a) + (if p.Answer? then 1 else 0)
    ensures ExactSum(a + [p]) == ExactSum(a) + (if p.Answer? then Diff(p) else 0)
  {
    if a == [] {
      assert a + [p] == [p] && [p][1..] == [];
    } else {
      assert (a + [p])[1..] == a[1..] + [p];
      SuccessesAppend(a[1..], p);
    }
  }

  lemma WrapAdd(x: int, y: int)
    ensures Wrap64(Wrap64(x) + y) == Wrap64(x + y)
  {
    var q := (Wrap64(x) - x) / TWO_64;
    assert Wrap64(x) + y == x + y + q * TWO_64;
    ModShift(x + y, q);
  }

  lemma ModShift(x: int, q: int)
    ensures (x + q * TWO_64) % TWO_64 == x % TWO_64
  {
    var k, r := x / TWO_64, x % TWO_64;
    assert x + q * TWO_64 == (k + q) * TWO_64 + r;
    ModOf(k + q, r);
  }

  lemma ModOf(k: int, r: int)
    requires 0 <= r < TWO_64
    ensures (k * TWO_64 + r) % TWO_64 == r
  {}

  /** The wrapped sum is the exact one, wrapped once. */
  lemma {:induction false} SumIsExact(probes: seq<Probe>)
    ensures |Diffs(probes)| == Successes(probes) && WrappedSum(Diffs(probes)) == Wrap64(ExactSum(probes))
  {
    if probes != [] {
      var n := |probes| - 1;
      SumIsExact(probes[..n]);
      SuccessesAppend(probes[..n], probes[n]);
      assert probes[..n] + [probes[n]] == probes;
      if probes[n].Answer? {
        var front := Diffs(probes[..n]);
        assert (front + [Diff(probes[n])])[..|front|] == front;
        WrapAdd(ExactSum(probes[..n]), Diff(probes[n]));
      }
    }
  }

  lemma TruncIsRounded(x: int, n: nat)
    requires n > 0
    ensures RoundedMean(TruncDiv(x, n), x, n)
  {}

  /** The estimate is the mean of the successful estimates, rounded toward zero, if their sum fits in an
      int64, whatever overflows on the way; without a success it is 0. */
  lemma EstimateIsMean(probes: seq<Probe>)
    ensures Successes(probes) == 0 ==> Estimate(Diffs(probes)) == 0
    ensures Successes(probes) > 0 && InInt64(ExactSum(probes)) ==>
              RoundedMean(Estimate(Diffs(probes)), ExactSum(probes), Successes(probes))
  {
    SumIsExact(probes);
    if Successes(probes) > 0 && InInt64(ExactSum(probes)) {
      WrapIsIdentity(ExactSum(probes));
      TruncIsRounded(ExactSum(probes), Successes(probes));
    }
  }

  /** A rounded mean is less than 1 ns from the exact one. */
  lemma RoundedMeanIsNear(avg: int, sum: int, n: nat)
    requires n > 0 && RoundedMean(avg, sum, n)
    ensures -1.0 < avg as real - sum as real / n as real < 1.0
  {
    MeanGap(avg, sum, n);
    ProductAsReal(avg, n);
    QuotientGap(avg as real, sum as real, n as real);
  }

  lemma MeanGap(avg: int, sum: int, n: nat)
    requires n > 0 && RoundedMean(avg, sum, n)
    ensures avg * n < sum + n && sum < avg * n + n
  {
    assert (avg + 1) * n == avg * n + n && (avg - 1) * n == avg * n - n;
  }

  lemma {:induction false} ProductAsReal(x: int, n: nat)
    ensures (x * n) as real == x as real * n as real
  {
    if n > 0 {
      ProductAsReal(x, n - 1);
      assert x * n == x * (n - 1) + x;
      assert x as real * n as real == x as real * (n - 1) as real + x as real;
    }
  }

  lemma QuotientGap(avg: real, sum: real, n: real)
    requires n > 0.0 && avg * n < sum + n && sum < avg * n + n
    ensures -1.0 < avg - sum / n < 1.0
  {
    var mean := sum / n;
    assert mean * n == sum;
    var gap, p := avg - mean, avg * n;
    Distributes(avg, mean, n);
    assert gap * n == p - sum;
    assert p - sum < n && -n < p - sum;
    NearScaled(gap, n);
  }

  lemma Distributes(x: real, y: real, n: real)
    ensures (x - y) * n == x * n - y * n
  {}

  lemma NearScaled(x: real, n: real)
    requires n > 0.0 && -n < x * n < n
    ensures -1.0 < x < 1.0
  {
    ProductSign(x - 1.0, n);
    ProductSign(x + 1.0, n);
    assert (x - 1.0) * n == x * n - n && (x + 1.0) * n == x * n + n;
  }

  lemma ProductSign(x: real, n: real)
    requires n > 0.0
    ensures x >= 0.0 ==> x * n >= 0.0
    ensures x <= 0.0 ==> x * n <= 0.0
  {}

  /** The probe loop of one run case. */
  method MeasureOffset(probes: seq<Probe>) returns (avg: int)
    ensures avg == Estimate(Diffs(probes))
    ensures Successes(probes) == 0 ==> avg == 0
    ensures Successes(probes) > 0 && InInt64(ExactSum(probes)) ==> RoundedMean(avg, ExactSum(probes), Successes(probes))
  {
    var sum, count := 0, 0;
    for i := 0 to |probes|
      invariant sum == WrappedSum(Diffs(probes[..i])) && count == |Diffs(probes[..i])|
    {
      assert probes[..i + 1][..i] == probes[..i];
      if probes[i].Failed? {
        continue;
      }
      var serverNs := Wrap64(probes[i].serverMs * MS_IN_NS);
      var mid := TruncDiv(Wrap64(probes[i].end + probes[i].start), 2);
      var diff := Wrap64(mid - serverNs);
      sum := Wrap64(sum + diff);
      count := count + 1;
    }
    assert probes[..|probes|] == probes;
    EstimateIsMean(probes);
    avg := 0;
    if count > 0 {
      avg := TruncDiv(sum, count);
    }
  }

  /** The loop that writes an average back: the first run case of that name gets it, no other changes. */
  method WriteBack(runCases: array<RunCase>, name: string, avg: int)
    modifies runCases
    ensures forall i :: 0 <= i < runCases.Length ==>
              runCases[i] == if old(runCases[i]).name == name && (forall j :: 0 <= j < i ==> old(runCases[j]).name != name)
                             then RunCase(name, avg) else old(runCases[i])
  {
    for i := 0 to runCases.Length
      invariant forall j :: 0 <= j < i ==> old(runCases[j]).name != name
      invariant forall j :: 0 <= j < runCases.Length ==> runCases[j] == old(runCases[j])
    {
      if runCases[i].name == name {
        runCases[i] := RunCase(name, avg);
        break;
      }
    }
  }

  // ----- accuracy

  /** The server stamped at local time `tau`, between request and response, with a clock that is
      `offset` behind the local one and shows whole milliseconds. */
  ghost predicate Stamped(p: Probe, tau: int, offset: int) {
    && p.Answer? && p.start <= tau <= p.end
    && p.serverMs * 1000000 <= tau - offset < (p.serverMs + 1) * 1000000
  }

  /** Clock readings and server stamps are in the first half of the positive range. */
  ghost predicate InRange(p: Probe) {
    p.Answer? ==>
      0 <= p.start < TWO_63 / 2 && 0 <= p.end < TWO_63 / 2 && 0 <= p.serverMs * 1000000 < TWO_63 / 2
  }

  /** Each estimate is off by at most half the round trip, and by the millisecond the stamp cuts off. */
  lemma ProbeBound(p: Probe, tau: int, offset: int)
    requires Stamped(p, tau, offset) && InRange(p)
    ensures var rtt := p.end - p.start;
      offset - (rtt + 1) / 2 <= Diff(p) < offset + rtt / 2 + 1000000
    ensures -TWO_63 / 2 < Diff(p) < TWO_63 / 2
  {
    WrapIsIdentity(p.end + p.start);
    WrapIsIdentity(p.serverMs * 1000000);
    var mid := TruncDiv(p.end + p.start, 2);
    WrapIsIdentity(mid - p.serverMs * 1000000);
  }

  /** No sum overflows, and the sum of `n` bounded estimates has `n` times their bounds. */
  lemma {:induction false} SumBound(ds: seq<int>, lo: int, hi: int, m: int)
    requires forall i :: 0 <= i < |ds| ==> lo <= ds[i] <= hi
    requires 0 <= m && -m <= lo && hi <= m && m * |ds| < TWO_63
    ensures lo * |ds| <= WrappedSum(ds) <= hi * |ds|
  {
    if ds != [] {
      var n := |ds| - 1;
      OneMore(m, n);
      OneMore(lo, n);
      OneMore(hi, n);
      SumBound(ds[..n], lo, hi, m);
      MulMonotone(-m, lo, n);
      MulMonotone(hi, m, n);
      assert (-m) * n == -(m * n);
      WrapIsIdentity(WrappedSum(ds[..n]) + ds[n]);
    }
  }

  lemma OneMore(x: int, n: int)
    ensures x * (n + 1) == x * n + x
  {}

  lemma MulMonotone(x: int, y: int, n: nat)
    requires x <= y
    ensures x * n <= y * n
  {}

  /** Truncation toward zero keeps an average inside integer bounds. */
  lemma TruncDivBound(x: int, n: int, lo: int, hi: int)
    requires n > 0 && lo * n <= x <= hi * n
    ensures lo <= TruncDiv(x, n) <= hi
  {
    var q := TruncDiv(x, n);
    if q < lo {
      MulMonotone(q + 1, lo, n);
    }
    if q > hi {
      MulMonotone(hi, q - 1, n);
    }
  }

  lemma {:induction false} DiffsBound(probes: seq<Probe>, taus: seq<int>, offset: int, rtt: int)
    requires |taus| == |probes|
    requires forall i :: 0 <= i < |probes| && probes[i].Answer? ==>
               Stamped(probes[i], taus[i], offset) && InRange(probes[i]) && probes[i].end - probes[i].start <= rtt
    ensures |Diffs(probes)| <= |probes|
    ensures forall i :: 0 <= i < |Diffs(probes)| ==>
              offset - (rtt + 1) / 2 <= Diffs(probes)[i] < offset + rtt / 2 + 1000000
  {
    if probes != [] {
      var n := |probes| - 1;
      DiffsBound(probes[..n], taus[..n], offset, rtt);
      if probes[n].Answer? {
        ProbeBound(probes[n], taus[n], offset);
      }
    }
  }

  /** The average over any number of probes, at least one of them successful, is within half the
      largest round trip, plus the millisecond, of the true offset; truncation loses nothing. */
  lemma AverageBound(probes: seq<Probe>, taus: seq<int>, offset: int, rtt: int)
    requires |taus| == |probes| && Diffs(probes) != [] && rtt >= 0
    requires forall i :: 0 <= i < |probes| && probes[i].Answer? ==>
               Stamped(probes[i], taus[i], offset) && InRange(probes[i]) && probes[i].end - probes[i].start <= rtt
    requires (Abs(offset) + rtt + 1000000) * |probes| < TWO_63
    ensures offset - (rtt + 1) / 2 <= Estimate(Diffs(probes)) < offset + rtt / 2 + 1000000
  {
    DiffsBound(probes, taus, offset, rtt);
    AverageOf(Diffs(probes), |probes|, offset - (rtt + 1) / 2, offset + rtt / 2 + 1000000 - 1, Abs(offset) + rtt + 1000000);
  }

  lemma AverageOf(ds: seq<int>, n: nat, lo: int, hi: int, m: int)
    requires ds != [] && |ds| <= n && forall i :: 0 <= i < |ds| ==> lo <= ds[i] <= hi
    requires 0 <= m && -m <= lo && hi <= m && m * n < TWO_63
    ensures lo <= Estimate(ds) <= hi
  {
    assert m * |ds| <= m * n;
    SumBound(ds, lo, hi, m);
    TruncDivBound(WrappedSum(ds), |ds|, lo, hi);
  }
}
