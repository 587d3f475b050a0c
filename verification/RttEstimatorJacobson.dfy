/** The estimator as the object the ack and timeout threads share. */
module RttEstimators {
  import opened Transfer
  import opened RttModel

  class RttEstimatorJacobson {
    var curTimeoutUs: nat
    var curStdDevUs: nat
    const alpha: real
    const beta: real

    function State(): Estimator
      reads this
    {
      Estimator(curTimeoutUs, curStdDevUs)
    }

    constructor (initTimeoutUs: nat, alpha: real, beta: real)
      ensures State() == Init(initTimeoutUs) && this.alpha == alpha && this.beta == beta
      ensures curTimeoutUs == initTimeoutUs && curStdDevUs == initTimeoutUs / 4
    {
      curTimeoutUs := initTimeoutUs;
      curStdDevUs := initTimeoutUs / 4;
      this.alpha := alpha;
      this.beta := beta;
    }

    /** The deviation is updated before the timeout it is measured from. */
    method AckArrived(sentTime: nat, now: nat)
      requires Weight(alpha) && Weight(beta)
      modifies this
      ensures State() == Sample(alpha, beta, old(State()), Elapsed(sentTime, now))
    {
      var elapsedUs := Elapsed(sentTime, now);
      var distance := if elapsedUs >= curTimeoutUs then elapsedUs - curTimeoutUs else curTimeoutUs - elapsedUs;
      assert Mean(beta, distance, curStdDevUs) >= 0 && Mean(alpha, elapsedUs, curTimeoutUs) >= 0;
      curStdDevUs := (beta * distance as real + (1.0 - beta) * curStdDevUs as real).Floor;
      curTimeoutUs := (alpha * elapsedUs as real + (1.0 - alpha) * curTimeoutUs as real).Floor;
    }

    /** The threshold in whole microseconds: four deviations above the estimate, and at most a
        tenth of the estimate more. */
    method GetCurrentTimeoutUs() returns (timeoutUs: nat)
      ensures timeoutUs == CurrentTimeout(State())
      ensures timeoutUs == (11 * curTimeoutUs + 40 * curStdDevUs) / 10
      ensures curTimeoutUs + 4 * curStdDevUs <= timeoutUs <= curTimeoutUs + 4 * curStdDevUs + curTimeoutUs / 10
    {
      CurrentTimeoutIsIntegral(State());
      timeoutUs := (curTimeoutUs as real * TIMEOUT_RATIO + 4.0 * curStdDevUs as real).Floor;
    }
  }
}
