/** When a transfer can still be completed after everything in flight has been lost: always
    while the receiver is unfinished, and afterwards exactly when the sender can put another
    packet on the wire before the last waiting receiver thread runs into its timeout. */
module Completion {
  import opened Transfer
  import opened Protocol
  import opened ProtocolInvariant
  import opened Schedule
  import RI = ReceiverInvariant
  import S = SenderModel
  import SI = SenderInvariant

  /** Everything in flight is lost. */
  function Drained(sys: System): System {
    sys.(net := {}, acks := {})
  }

  /** `run` finishes both sides within a round per packet still to be passed. */
  ghost predicate Finishes(cfg: Config, sys: System, run: seq<Event>) {
    && Prompt(cfg, sys, run) && Legal(cfg, sys, run)
    && |run| <= ROUND * (cfg.last + 1 - sys.sender.left)
    && SenderFinished(cfg, After(cfg, sys, run)) && ReceiverFinished(After(cfg, sys, run))
  }

  ghost predicate CanFinish(cfg: Config, sys: System) {
    exists run :: Finishes(cfg, sys, run)
  }

  /** A thread waits in `recvfrom` for a packet the sender can still send it in time. */
  predicate StillHeard(sys: System) {
    exists i :: 0 <= i < |sys.listening| && CanEmitBy(sys, sys.listening[i])
  }

  // ---- all rounds ----

  lemma RoundThenFinish(cfg: Config, sys: System, run: seq<Event>, after: System)
    requires RoundTo(cfg, sys, run, after) && |run| <= ROUND
    requires CanFinish(cfg, after)
    ensures CanFinish(cfg, sys)
  {
    var rest :| Finishes(cfg, after, rest);
    Appended(cfg, sys, run, rest);
    assert Finishes(cfg, sys, run + rest);
  }

  lemma {:induction false} RoundsFinish(cfg: Config, sys: System)
    requires Inv(cfg, sys) && (SenderFinished(cfg, sys) || !ReceiverFinished(sys) || StillHeard(sys))
    ensures CanFinish(cfg, sys)
    decreases cfg.last + 1 - sys.sender.left
  {
    Coupling(cfg, sys);
    if SenderFinished(cfg, sys) {
      SI.FinishedMeansAllPassed(cfg, sys.sender);
      RI.FinishedMeansAllReceived(cfg, sys.receiver);
      assert Finishes(cfg, sys, []);
    } else {
      if !ReceiverFinished(sys) {
        RoundExists(cfg, sys);
      } else {
        var i :| 0 <= i < |sys.listening| && CanEmitBy(sys, sys.listening[i]);
        LastRound(cfg, sys, i);
      }
      var run, after :| RoundTo(cfg, sys, run, after) && |run| <= ROUND;
      RunKeepsInv(cfg, sys, run);
      Coupling(cfg, after);
      RoundsFinish(cfg, after);
      RoundThenFinish(cfg, sys, run, after);
    }
  }

  // ---- the converse ----

  /** By time `d` nothing can reach a thread of the receiver. */
  predicate Unheard(sys: System, d: nat) {
    !CanEmitBy(sys, d) && (sys.clock <= d ==> sys.net == {})
  }

  /** The receiver has finished, no ack is on its way, and no waiting thread will hear more. */
  ghost predicate CutOff(sys: System) {
    ReceiverFinished(sys) && sys.acks == {} && forall d :: d in sys.listening ==> Unheard(sys, d)
  }

  /** Whether the sender can emit anything is up to the sender and the clock alone. */
  lemma SameSenderSameEmission(a: System, b: System, d: nat)
    requires a.sender == b.sender && a.clock == b.clock && a.rtt == b.rtt
    requires a.readTimeout == b.readTimeout && a.wakeAt == b.wakeAt
    ensures CanEmitBy(a, d) <==> CanEmitBy(b, d)
  {
    assert forall i :: 0 <= i < CheckReach(a.sender) ==> (ExpiresBy(a, i, d) <==> ExpiresBy(b, i, d));
  }

  lemma TickKeepsUnheard(sys: System, us: nat, d: nat)
    requires Unheard(sys, d)
    ensures Unheard(sys.(clock := sys.clock + us), d)
  {
    var after := sys.(clock := sys.clock + us);
    forall i | 0 <= i < CheckReach(sys.sender) && after.clock <= d ensures !ExpiresBy(after, i, d) {
      assert !ExpiresBy(sys, i, d);
    }
  }

  lemma EmissionsPend(cfg: Config, s: S.Sender, now: nat)
    requires SI.Inv(cfg, s) && S.PreparedPackets(cfg, s, now) != []
    ensures S.HasPending(s.window, s.cwnd)
  {
    var p := S.PreparedPackets(cfg, s, now)[0];
    SI.PreparedPacket(cfg, s, now, p);
    assert S.Pending(s.window[p.seqNum - s.left]);
  }

  lemma SendKeepsUnheard(cfg: Config, sys: System, d: nat)
    requires Inv(cfg, sys) && Unheard(sys, d)
    ensures Unheard(DoSend(cfg, sys), d)
  {
    var after := DoSend(cfg, sys);
    if sys.clock <= d {
      if S.PreparedPackets(cfg, sys.sender, sys.clock) != [] {
        EmissionsPend(cfg, sys.sender, sys.clock);
      }
      assert after.net == {};
      forall i | 0 <= i < |sys.sender.window| ensures after.sender.window[i] == sys.sender.window[i] {
        PrepareItem(sys.sender, sys.clock, sys.sender.left + i);
      }
      assert after.sender.window == sys.sender.window;
      forall i | 0 <= i < CheckReach(after.sender) ensures !ExpiresBy(after, i, d) {
        assert !ExpiresBy(sys, i, d);
      }
    }
  }

  lemma ReadKeepsUnheard(cfg: Config, sys: System, d: nat)
    requires Unheard(sys, d) && Allowed(cfg, sys, ReadTimeout)
    ensures Unheard(DoRead(sys), d)
  {
    var after := DoRead(sys);
    forall i | 0 <= i < CheckReach(sys.sender) && sys.clock <= d ensures !ExpiresBy(after, i, d) {
      assert !ExpiresBy(sys, i, d);
    }
  }

  /** One item across a check: within reach nothing expires, and the sleep that follows was
      already counted. */
  lemma CheckKeepsSilent(cfg: Config, sys: System, d: nat, i: nat)
    requires Inv(cfg, sys) && sys.readTimeout != None && sys.clock <= d && !CanEmitBy(sys, d)
    requires i < CheckReach(sys.sender)
    ensures var after := DoCheck(sys);
            && after.sender.window[i] == sys.sender.window[i]
            && !ExpiresBy(after, i, d)
  {
    assert !ExpiresBy(sys, i, d);
    var q := sys.sender.left + i;
    CheckItem(sys.sender, sys.clock, sys.readTimeout.value, q);
    assert S.At(sys.sender, q) == sys.sender.window[i];
    if InFlight(S.At(sys.sender, q)) {
      InFlightTime(cfg, sys, q);
    }
  }

  lemma CheckKeepsUnheard(cfg: Config, sys: System, d: nat)
    requires Inv(cfg, sys) && Unheard(sys, d) && sys.readTimeout != None
    ensures Unheard(DoCheck(sys), d)
  {
    if sys.clock <= d {
      var after := DoCheck(sys);
      CheckReachAfter(sys.sender, sys.clock, sys.readTimeout.value);
      forall i | 0 <= i < CheckReach(after.sender) ensures !ExpiresBy(after, i, d) && !S.Pending(after.sender.window[i]) {
        CheckKeepsSilent(cfg, sys, d, i);
      }
    }
  }

  /** A check does not widen the reach, unless it marks nothing at all. */
  lemma CheckReachAfter(s: S.Sender, now: nat, us: nat)
    requires s.cwnd >= S.CWND_MIN
    ensures var after := S.CheckTimeout(s, now, us);
            && CheckReach(after) == CheckReach(s)
            && (S.HasPending(after.window, after.cwnd) && !S.HasPending(s.window, s.cwnd) ==>
                  exists i :: 0 <= i < CheckReach(s) && S.Pending(after.window[i]))
  {
    var after := S.CheckTimeout(s, now, us);
    if S.HasPending(after.window, after.cwnd) {
      var k :| 0 <= k < |after.window| && k < after.cwnd && S.Pending(after.window[k]);
      if k >= CheckReach(s) {
        assert !S.SomeExpires(s.window, now, us);
        assert !S.Expires(s.window[k], now, us);
      }
    }
  }

  lemma StepKeepsUnheard(cfg: Config, sys: System, e: Event, d: nat)
    requires Inv(cfg, sys) && sys.acks == {} && Unheard(sys, d)
    requires Allowed(cfg, sys, e) && !e.Deliver?
    ensures Unheard(Step(cfg, sys, e), d)
  {
    match e
    case Tick(us) => TickKeepsUnheard(sys, us, d);
    case SendData => SendKeepsUnheard(cfg, sys, d);
    case ReadTimeout => ReadKeepsUnheard(cfg, sys, d);
    case CheckTimeout => CheckKeepsUnheard(cfg, sys, d);
    case RecvTimeout(i) => SameSenderSameEmission(sys, DoRecvTimeout(sys, i), d);
    case LoopTest => SameSenderSameEmission(sys, DoLoopTest(sys), d);
    case Lose(_, _) => SameSenderSameEmission(sys, Step(cfg, sys, e), d);
    case _ =>
  }

  /** Steps that bring nothing to either end. */
  lemma StepKeepsEnds(cfg: Config, sys: System, e: Event)
    requires Allowed(cfg, sys, e) && sys.acks == {} && !e.Deliver?
    ensures var after := Step(cfg, sys, e);
            && after.acks == {} && after.receiver == sys.receiver
            && after.sender.bytesSent == sys.sender.bytesSent
  {
  }

  lemma StepKeepsListeners(cfg: Config, sys: System, e: Event, d: nat)
    requires Allowed(cfg, sys, e) && ReceiverFinished(sys) && !e.Deliver?
    requires d in Step(cfg, sys, e).listening
    ensures d in sys.listening
  {
  }

  lemma StepKeepsCutOff(cfg: Config, sys: System, e: Event)
    requires Inv(cfg, sys) && CutOff(sys) && Allowed(cfg, sys, e) && OnTime(sys, e)
    ensures CutOff(Step(cfg, sys, e))
    ensures SenderFinished(cfg, Step(cfg, sys, e)) <==> SenderFinished(cfg, sys)
  {
    if e.Deliver? {
      NothingToHear(sys, e.thread);
    }
    StepKeepsEnds(cfg, sys, e);
    forall d | d in Step(cfg, sys, e).listening ensures Unheard(Step(cfg, sys, e), d) {
      StepKeepsListeners(cfg, sys, e, d);
      StepKeepsUnheard(cfg, sys, e, d);
    }
  }

  lemma NothingToHear(sys: System, i: nat)
    requires CutOff(sys) && i < |sys.listening| && sys.clock <= sys.listening[i]
    ensures sys.net == {}
  {
    assert Unheard(sys, sys.listening[i]);
  }

  lemma {:induction false} CutOffNeverFinishes(cfg: Config, sys: System, run: seq<Event>)
    requires Inv(cfg, sys) && CutOff(sys) && !SenderFinished(cfg, sys)
    requires Punctual(cfg, sys, run) && Legal(cfg, sys, run)
    ensures !SenderFinished(cfg, After(cfg, sys, run))
    decreases |run|
  {
    if run != [] {
      StepKeepsCutOff(cfg, sys, run[0]);
      StepKeepsInv(cfg, sys, run[0]);
      CutOffNeverFinishes(cfg, Step(cfg, sys, run[0]), run[1..]);
    }
  }

  // ---- the exact condition ----

  lemma DrainedKeepsInv(cfg: Config, sys: System)
    requires Inv(cfg, sys)
    ensures Inv(cfg, Drained(sys))
  {
    LoseKeepsInv(cfg, sys, sys.net, sys.acks);
    assert Drained(sys) == sys.(net := sys.net - sys.net, acks := sys.acks - sys.acks);
  }

  lemma DrainedHeard(sys: System)
    ensures StillHeard(Drained(sys)) <==> StillHeard(sys)
  {
    forall d: nat ensures CanEmitBy(Drained(sys), d) <==> CanEmitBy(sys, d) {
      SameSenderSameEmission(Drained(sys), sys, d);
    }
  }

  /** Completion: after losing everything in flight in any reachable state, both sides can
      still finish exactly when the sender already has, or the receiver has not, or one of
      its threads waits long enough for the sender's next packet. */
  lemma CompletionIff(cfg: Config, sys: System)
    requires Reachable(cfg, sys)
    ensures CanFinish(cfg, Drained(sys)) <==> SenderFinished(cfg, sys) || !ReceiverFinished(sys) || StillHeard(sys)
  {
    ReachableInv(cfg, sys);
    DrainedKeepsInv(cfg, sys);
    DrainedHeard(sys);
    if SenderFinished(cfg, sys) || !ReceiverFinished(sys) || StillHeard(sys) {
      RoundsFinish(cfg, Drained(sys));
    } else if CanFinish(cfg, Drained(sys)) {
      var run :| Finishes(cfg, Drained(sys), run);
      PromptIsPunctual(cfg, Drained(sys), run);
      NoCompletionOtherwise(cfg, sys, run);
    }
  }

  /** When none of the three holds, no punctual run at all, of whatever length, lets the sender
      finish. */
  lemma NoCompletionOtherwise(cfg: Config, sys: System, run: seq<Event>)
    requires Reachable(cfg, sys)
    requires !SenderFinished(cfg, sys) && ReceiverFinished(sys) && !StillHeard(sys)
    requires Punctual(cfg, Drained(sys), run) && Legal(cfg, Drained(sys), run)
    ensures !SenderFinished(cfg, After(cfg, Drained(sys), run))
  {
    ReachableInv(cfg, sys);
    DrainedKeepsInv(cfg, sys);
    DrainedHeard(sys);
    forall d | d in sys.listening ensures Unheard(Drained(sys), d) {
      var i :| 0 <= i < |sys.listening| && sys.listening[i] == d;
      assert !CanEmitBy(Drained(sys), d);
    }
    CutOffNeverFinishes(cfg, Drained(sys), run);
  }

  /** In particular, completion stays reachable as long as the receiver has not finished. */
  lemma CompletionWhileReceiving(cfg: Config, sys: System)
    requires Reachable(cfg, sys) && !ReceiverFinished(sys)
    ensures CanFinish(cfg, Drained(sys))
  {
    CompletionIff(cfg, sys);
  }
}
