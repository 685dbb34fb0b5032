/**
 Round-trip estimator of the sender, over exact reals, in milliseconds.
 */
module RttEstimator {

  datatype Estimator = Estimator(estimate: real, deviation: real, rto: real)

  function Abs(x: real): real {
    if x < 0.0 then -x else x
  }

  function MaxReal(a: real, b: real): real {
    if a >= b then a else b
  }

  /** The handshake's round trip starts the estimator. */
  function FirstSample(rtt: real): Estimator {
    Estimator(rtt, 0.0, rtt + 4.0 * MaxReal(10.0, 0.0))
  }

  /** One measured round trip; the deviation is taken from the old estimate. */
  function Sample(e: Estimator, measured: real): Estimator {
    var deviation := (1.0 - 0.25) * e.deviation + 0.25 * Abs(measured - e.estimate);
    var estimate := (1.0 - 0.125) * e.estimate + 0.125 * measured;
    Estimator(estimate, deviation, estimate + 4.0 * MaxReal(deviation, 10.0))
  }

  /** The estimator after a sequence of measured round trips. */
  function AfterSamples(e: Estimator, measured: seq<real>): Estimator
    decreases |measured|
  {
    if measured == [] then e else AfterSamples(Sample(e, measured[0]), measured[1..])
  }

  predicate Within(e: Estimator, lo: real, hi: real) {
    && lo <= e.estimate <= hi
    && 0.0 <= e.deviation <= hi - lo
    && e.rto == e.estimate + 4.0 * MaxReal(e.deviation, 10.0)
  }

  lemma SampleWithin(e: Estimator, measured: real, lo: real, hi: real)
    requires Within(e, lo, hi) && lo <= measured <= hi
    ensures Within(Sample(e, measured), lo, hi)
  {
    assert 0.0 <= Abs(measured - e.estimate) <= hi - lo;
  }

  /** Whatever the network does within [lo, hi], the estimate stays there, the deviation
      stays below the spread, and the timeout is bounded on both sides. */
  lemma {:induction false} SamplesWithin(e: Estimator, measured: seq<real>, lo: real, hi: real)
    requires Within(e, lo, hi)
    requires forall i :: 0 <= i < |measured| ==> lo <= measured[i] <= hi
    ensures var r := AfterSamples(e, measured);
            && Within(r, lo, hi)
            && lo + 40.0 <= r.rto <= hi + 4.0 * MaxReal(hi - lo, 10.0)
    decreases |measured|
  {
    if measured != [] {
      SampleWithin(e, measured[0], lo, hi);
      SamplesWithin(Sample(e, measured[0]), measured[1..], lo, hi);
    }
  }

  /** The handshake's sample starts the estimator inside its own bounds. */
  lemma TimeoutBounds(rtt: real, measured: seq<real>, lo: real, hi: real)
    requires lo <= rtt <= hi
    requires forall i :: 0 <= i < |measured| ==> lo <= measured[i] <= hi
    ensures var r := AfterSamples(FirstSample(rtt), measured);
            && lo <= r.estimate <= hi
            && 0.0 <= r.deviation <= hi - lo
            && lo + 40.0 <= r.rto <= hi + 4.0 * MaxReal(hi - lo, 10.0)
  {
    SamplesWithin(FirstSample(rtt), measured, lo, hi);
  }

  // ----- convergence

  function Power(x: real, n: nat): real {
    if n == 0 then 1.0 else x * Power(x, n - 1)
  }

  /** `n` samples of the same round trip. */
  function Repeat(m: real, n: nat): (r: seq<real>)
    ensures |r| == n && forall i :: 0 <= i < n ==> r[i] == m
  {
    seq(n, _ => m)
  }

  lemma {:induction false} AfterOneMore(e: Estimator, measured: seq<real>, last: real)
    ensures AfterSamples(e, measured + [last]) == Sample(AfterSamples(e, measured), last)
    decreases |measured|
  {
    if measured == [] {
      assert ([] + [last])[1..] == [];
    } else {
      assert (measured + [last])[1..] == measured[1..] + [last];
      AfterOneMore(Sample(e, measured[0]), measured[1..], last);
    }
  }

  /** Error and deviation after n steady samples, from their initial values. */
  function SteadyError(a: real, n: nat): real {
    a * Power(0.875, n)
  }

  function SteadyDeviation(a: real, d: real, n: nat): real {
    2.0 * a * Power(0.875, n) + (d - 2.0 * a) * Power(0.75, n)
  }

  lemma Scale(c: real, x: real, y: real)
    ensures x * (c * y) == c * (x * y)
  {
  }

  /** One sample takes both closed forms one step further. */
  lemma SteadyStep(a: real, d: real, n: nat)
    ensures SteadyError(a, n + 1) == 0.875 * SteadyError(a, n)
    ensures SteadyDeviation(a, d, n + 1) == 0.75 * SteadyDeviation(a, d, n) + 0.25 * SteadyError(a, n)
  {
    var p, q := Power(0.875, n), Power(0.75, n);
    Scale(0.875, a, p);
    Scale(0.875, 2.0 * a, p);
    Scale(0.75, d - 2.0 * a, q);
    Scale(2.0, p, a);
  }

  lemma SteadySample(e: Estimator, m: real)
    ensures Abs(Sample(e, m).estimate - m) == 0.875 * Abs(e.estimate - m)
    ensures Sample(e, m).deviation == 0.75 * e.deviation + 0.25 * Abs(e.estimate - m)
  {
  }

  /** On a steady network the error of the estimate shrinks by 7/8 per sample, and the
      deviation follows in closed form. */
  lemma {:induction false} SteadyNetwork(e: Estimator, m: real, n: nat)
    ensures Abs(AfterSamples(e, Repeat(m, n)).estimate - m) == SteadyError(Abs(e.estimate - m), n)
    ensures AfterSamples(e, Repeat(m, n)).deviation == SteadyDeviation(Abs(e.estimate - m), e.deviation, n)
  {
    if n > 0 {
      SteadyNetwork(e, m, n - 1);
      assert Repeat(m, n) == Repeat(m, n - 1) + [m];
      AfterOneMore(e, Repeat(m, n - 1), m);
      SteadySample(AfterSamples(e, Repeat(m, n - 1)), m);
      SteadyStep(Abs(e.estimate - m), e.deviation, n - 1);
    }
  }

  lemma {:induction false} PowerMonotone(x: real, y: real, n: nat)
    requires 0.0 <= x <= y
    ensures 0.0 <= Power(x, n) <= Power(y, n)
  {
    if n > 0 {
      PowerMonotone(x, y, n - 1);
      ProductMonotone(x, y, Power(x, n - 1), Power(y, n - 1));
    }
  }

  lemma ProductMonotone(a: real, b: real, c: real, d: real)
    requires 0.0 <= a <= b && 0.0 <= c <= d
    ensures 0.0 <= a * c <= b * d
  {
    assert a * c <= b * c;
    assert b * c <= b * d;
  }

  lemma BoundDeviation(a: real, d: real, p: real, q: real)
    requires 0.0 <= a && 0.0 <= d && 0.0 <= q <= p
    ensures 2.0 * a * p + (d - 2.0 * a) * q <= (d + 2.0 * a) * p
  {
    ProductMonotone(d, d, q, p);
    ProductMonotone(0.0, 2.0 * a, 0.0, q);
    assert (d - 2.0 * a) * q == d * q - 2.0 * a * q;
    assert (d + 2.0 * a) * p == d * p + 2.0 * a * p;
  }

  lemma SteadyDeviationBound(a: real, d: real, n: nat)
    requires 0.0 <= a && 0.0 <= d
    ensures SteadyDeviation(a, d, n) <= SteadyError(d + 2.0 * a, n)
  {
    PowerMonotone(0.75, 0.875, n);
    BoundDeviation(a, d, Power(0.875, n), Power(0.75, n));
  }

  /** So the deviation vanishes at the same rate. */
  lemma DeviationVanishes(e: Estimator, m: real, n: nat)
    requires 0.0 <= e.deviation
    ensures AfterSamples(e, Repeat(m, n)).deviation
         <= SteadyError(e.deviation + 2.0 * Abs(e.estimate - m), n)
  {
    var r := AfterSamples(e, Repeat(m, n)).deviation;
    assert exists a: real :: 0.0 <= a && a == Abs(e.estimate - m) && r == SteadyDeviation(a, e.deviation, n) by {
      SteadyNetwork(e, m, n);
    }
    var a: real :| 0.0 <= a && a == Abs(e.estimate - m) && r == SteadyDeviation(a, e.deviation, n);
    SteadyDeviationBound(a, e.deviation, n);
  }
}
