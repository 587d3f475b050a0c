/** Jacobson's round trip estimator: two exponential averages, truncated to whole
    microseconds after every sample. Weights are exact reals here. */
module RttModel {
  const ALPHA: real := 0.125
  const BETA: real := 0.25
  const TIMEOUT_RATIO: real := 1.1

  datatype Estimator = Estimator(timeoutUs: nat, stdDevUs: nat)

  function Init(initTimeoutUs: nat): Estimator {
    Estimator(initTimeoutUs, initTimeoutUs / 4)
  }

  predicate Weight(w: real) {
    0.0 <= w <= 1.0
  }

  function Distance(a: nat, b: nat): nat {
    if a >= b then a - b else b - a
  }

  function RealMean(w: real, x: real, y: real): real {
    w * x + (1.0 - w) * y
  }

  lemma Distribute(w: real, x: real, y: real)
    ensures (1.0 - w) * y == y - w * y
    ensures w * (x - y) == w * x - w * y
  {
  }

  lemma Scaled(w: real, d: real)
    requires Weight(w) && d >= 0.0
    ensures 0.0 <= w * d <= d
  {
  }

  lemma RealMeanBetween(w: real, x: real, y: real)
    requires Weight(w)
    ensures x <= RealMean(w, x, y) <= y || y <= RealMean(w, x, y) <= x
  {
    var a, b := w * x, w * y;
    assert RealMean(w, x, y) == y + a - b by {
      Distribute(w, x, y);
    }
    if x >= y {
      Distribute(w, x, y);
      Scaled(w, x - y);
    } else {
      Distribute(w, y, x);
      Scaled(w, y - x);
    }
  }

  /** `(unsigned long)` of a weighted mean. */
  function Mean(w: real, x: nat, y: nat): (m: nat)
    requires Weight(w)
    ensures x <= m <= y || y <= m <= x
  {
    var mean := RealMean(w, x as real, y as real);
    RealMeanBetween(w, x as real, y as real);
    FloorBetween(mean, if x <= y then x else y, if x <= y then y else x);
    mean.Floor
  }

  lemma FloorBetween(v: real, lo: int, hi: int)
    requires lo as real <= v <= hi as real
    ensures lo <= v.Floor <= hi
  {
  }

  /** One sample: the deviation is updated first, from the old timeout. */
  function Sample(alpha: real, beta: real, e: Estimator, elapsedUs: nat): Estimator
    requires Weight(alpha) && Weight(beta)
  {
    Estimator(Mean(alpha, elapsedUs, e.timeoutUs), Mean(beta, Distance(elapsedUs, e.timeoutUs), e.stdDevUs))
  }

  function CurrentTimeout(e: Estimator): nat {
    (e.timeoutUs as real * TIMEOUT_RATIO + 4.0 * e.stdDevUs as real).Floor
  }

  /** The estimator after a whole sequence of samples. */
  function Samples(alpha: real, beta: real, e: Estimator, elapsed: seq<nat>): Estimator
    requires Weight(alpha) && Weight(beta)
    decreases |elapsed|
  {
    if elapsed == [] then e else Samples(alpha, beta, Sample(alpha, beta, e, elapsed[0]), elapsed[1..])
  }

  /** If every sample and the initial timeout lie in [lo, hi], so does the timeout for ever,
      and the deviation never exceeds the larger of hi - lo and its initial value. This holds
      for any pair of weights. */
  lemma {:induction false} SamplesBounded(alpha: real, beta: real, e: Estimator, elapsed: seq<nat>, lo: nat, hi: nat, dev: nat)
    requires Weight(alpha) && Weight(beta)
    requires lo <= e.timeoutUs <= hi && hi - lo <= dev && e.stdDevUs <= dev
    requires forall i :: 0 <= i < |elapsed| ==> lo <= elapsed[i] <= hi
    ensures var r := Samples(alpha, beta, e, elapsed);
            lo <= r.timeoutUs <= hi && r.stdDevUs <= dev
    decreases |elapsed|
  {
    if elapsed != [] {
      SamplesBounded(alpha, beta, Sample(alpha, beta, e, elapsed[0]), elapsed[1..], lo, hi, dev);
    }
  }

  /** The bound for a freshly built estimator. */
  lemma EstimatesBounded(alpha: real, beta: real, initTimeoutUs: nat, elapsed: seq<nat>, lo: nat, hi: nat)
    requires Weight(alpha) && Weight(beta)
    requires lo <= initTimeoutUs <= hi
    requires forall i :: 0 <= i < |elapsed| ==> lo <= elapsed[i] <= hi
    ensures var r := Samples(alpha, beta, Init(initTimeoutUs), elapsed);
            && lo <= r.timeoutUs <= hi
            && (r.stdDevUs <= hi - lo || r.stdDevUs <= initTimeoutUs / 4)
            && (elapsed == [] ==> r.timeoutUs == initTimeoutUs && r.stdDevUs == initTimeoutUs / 4)
  {
    var dev := if hi - lo >= initTimeoutUs / 4 then hi - lo else initTimeoutUs / 4;
    SamplesBounded(alpha, beta, Init(initTimeoutUs), elapsed, lo, hi, dev);
  }

  // ---- the weights the sender uses ----

  function Step(e: Estimator, elapsedUs: nat): Estimator {
    Sample(ALPHA, BETA, e, elapsedUs)
  }

  lemma StepIsIntegral(e: Estimator, r: nat)
    ensures Step(e, r) == Estimator((r + 7 * e.timeoutUs) / 8, (Distance(r, e.timeoutUs) + 3 * e.stdDevUs) / 4)
  {
  }

  lemma CurrentTimeoutIsIntegral(e: Estimator)
    ensures CurrentTimeout(e) == (11 * e.timeoutUs + 40 * e.stdDevUs) / 10
  {
  }

  /** Before any sample the deviation is a quarter of the initial timeout, so the first
      thresholds are about twice the handshake's round trip. */
  lemma FirstTimeout(initTimeoutUs: nat)
    ensures CurrentTimeout(Init(initTimeoutUs)) == (11 * initTimeoutUs + 40 * (initTimeoutUs / 4)) / 10
    ensures 2 * initTimeoutUs - 3 <= CurrentTimeout(Init(initTimeoutUs)) <= 2 * initTimeoutUs + initTimeoutUs / 10
  {
    CurrentTimeoutIsIntegral(Init(initTimeoutUs));
  }

  /** `n` samples of the same round trip time. */
  function Repeat(e: Estimator, r: nat, n: nat): Estimator
    decreases n
  {
    if n == 0 then e else Repeat(Step(e, r), r, n - 1)
  }

  predicate Settled(e: Estimator, r: nat) {
    Step(e, r) == e
  }

  /** The fixed points: the timeout at most 7 below the round trip, the deviation at most 3
      below their distance. */
  lemma SettledIff(e: Estimator, r: nat)
    ensures Settled(e, r) <==> r - 7 <= e.timeoutUs <= r && r - e.timeoutUs - 3 <= e.stdDevUs <= r - e.timeoutUs
  {
  }

  lemma {:induction false} RepeatStays(e: Estimator, r: nat, n: nat)
    requires Settled(e, r)
    ensures Repeat(e, r, n) == e
  {
    if n > 0 {
      RepeatStays(e, r, n - 1);
    }
  }

  lemma {:induction false} RepeatAdds(e: Estimator, r: nat, m: nat, n: nat)
    ensures Repeat(e, r, m + n) == Repeat(Repeat(e, r, m), r, n)
    decreases m
  {
    if m > 0 {
      RepeatAdds(Step(e, r), r, m - 1, n);
    }
  }

  lemma {:induction false} TimeoutSettles(e: Estimator, r: nat, n: nat)
    requires n >= Distance(r, e.timeoutUs) || r - 7 <= e.timeoutUs <= r
    ensures r - 7 <= Repeat(e, r, n).timeoutUs <= r
    decreases n
  {
    StepIsIntegral(e, r);
    if n > 0 {
      TimeoutSettles(Step(e, r), r, n - 1);
    }
  }

  lemma {:induction false} DeviationSettles(e: Estimator, r: nat, n: nat)
    requires r - 7 <= e.timeoutUs <= r
    requires n >= Distance(r - e.timeoutUs, e.stdDevUs) || Settled(e, r)
    ensures Settled(Repeat(e, r, n), r)
    decreases n
  {
    StepIsIntegral(e, r);
    SettledIff(e, r);
    if n > 0 {
      DeviationSettles(Step(e, r), r, n - 1);
    }
  }

  ghost predicate SettledFrom(e: Estimator, r: nat, n: nat) {
    forall m: nat :: m >= n ==> Settled(Repeat(e, r, m), r) && Repeat(e, r, m) == Repeat(e, r, n)
  }

  /** A constant round trip time is settled on after finitely many samples, for good. */
  lemma ConstantSamplesSettle(e: Estimator, r: nat)
    ensures exists n: nat :: SettledFrom(e, r, n)
  {
    var m := Distance(r, e.timeoutUs);
    TimeoutSettles(e, r, m);
    var f := Repeat(e, r, m);
    var k := Distance(r - f.timeoutUs, f.stdDevUs);
    DeviationSettles(f, r, k);
    RepeatAdds(e, r, m, k);
    forall j: nat | j >= m + k ensures Settled(Repeat(e, r, j), r) && Repeat(e, r, j) == Repeat(e, r, m + k) {
      RepeatAdds(e, r, m + k, j - (m + k));
      RepeatStays(Repeat(e, r, m + k), r, j - (m + k));
    }
    assert SettledFrom(e, r, m + k);
  }

  // ---- does a settled timeout cover the round trip? ----

  /** Can the sender's estimator get there, from some initial timeout and by some samples? */
  ghost predicate Produced(e: Estimator) {
    exists initTimeoutUs, elapsed :: e == Samples(ALPHA, BETA, Init(initTimeoutUs), elapsed)
  }

  lemma {:induction false} RepeatIsSamples(e: Estimator, r: nat, n: nat)
    ensures Repeat(e, r, n) == Samples(ALPHA, BETA, e, seq(n, _ => r))
    decreases n
  {
    if n > 0 {
      RepeatIsSamples(Step(e, r), r, n - 1);
      assert seq(n, _ => r)[1..] == seq(n - 1, _ => r);
    }
  }

  /** While every sample equals the timeout, the deviation dies out. */
  lemma {:induction false} DeviationDiesOut(v: nat, d: nat, n: nat)
    requires n >= d
    ensures Repeat(Estimator(v, d), v, n) == Estimator(v, 0)
    decreases n
  {
    StepIsIntegral(Estimator(v, d), v);
    if n > 0 {
      DeviationDiesOut(v, 3 * d / 4, n - 1);
    }
  }

  lemma SteadyIsProduced(v: nat)
    ensures Produced(Estimator(v, 0))
  {
    DeviationDiesOut(v, v / 4, v / 4);
    RepeatIsSamples(Init(v), v, v / 4);
  }

  /** Once an estimator of the sender has settled on a round trip of `r`, the timeout it hands
      out always covers it exactly when `r` is 0 or at least 33 microseconds. */
  lemma SettledTimeoutCovers(r: nat)
    ensures (forall e :: Produced(e) && Settled(e, r) ==> CurrentTimeout(e) >= r) <==> r == 0 || r >= 33
  {
    if r == 0 || r >= 33 {
      forall e | Produced(e) && Settled(e, r) ensures CurrentTimeout(e) >= r {
        SettledIff(e, r);
        CurrentTimeoutIsIntegral(e);
      }
    } else {
      var v: nat := if r >= 3 then r - 3 else 0;
      var e := Estimator(v, 0);
      SteadyIsProduced(v);
      SettledIff(e, r);
      CurrentTimeoutIsIntegral(e);
      assert Settled(e, r) && CurrentTimeout(e) < r;
    }
  }
}
