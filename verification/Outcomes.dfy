/** What a transfer can come to, whatever its parameters: both sides finish, with or without
    the file intact, or the sender is left alone for ever. */
module Outcomes {
  import opened Transfer
  import opened Packets
  import opened Protocol
  import opened ProtocolInvariant
  import opened Schedule
  import Completion
  import Delivery
  import Ledger
  import Liveness
  import R = ReceiverModel
  import RI = ReceiverInvariant
  import Rtt = RttModel
  import S = SenderModel
  import SI = SenderInvariant

  /** One way to start: nothing left over on the wire, both threads in `recvfrom`. */
  function Start(cfg: Config): System {
    System(S.Init(cfg), R.Init(), [RECV_TIMEOUT_US, RECV_TIMEOUT_US], 0, Rtt.Init(1000), None, 0, 0,
           {}, {}, {}, {}, false, Ledger.Tally(0, 0, 0, 0))
  }

  lemma StartIsInitial(cfg: Config)
    ensures Initial(cfg, Start(cfg)) && Reachable(cfg, Start(cfg)) && Inv(cfg, Start(cfg))
    ensures !ReceiverFinished(Start(cfg)) && !SenderFinished(cfg, Start(cfg))
  {
    assert Legal(cfg, Start(cfg), []) && After(cfg, Start(cfg), []) == Start(cfg);
    InitialInv(cfg, Start(cfg));
  }

  // ---- both sides finish ----

  ghost predicate BothFinished(cfg: Config, sys: System) {
    Reachable(cfg, sys) && SenderFinished(cfg, sys) && ReceiverFinished(sys)
  }

  /** Every transfer can finish on both sides, and then the file is intact exactly when the
      transfer is within the 32-bit bound. */
  lemma BothFinish(cfg: Config)
    ensures exists sys :: BothFinished(cfg, sys) && (Delivery.Intact(cfg, sys.receiver.file) <==> cfg.last <= LAST_EXACT)
  {
    var start := Start(cfg);
    StartIsInitial(cfg);
    Completion.RoundsFinish(cfg, start);
    var run :| Completion.Finishes(cfg, start, run);
    var sys := After(cfg, start, run);
    ReachableExtends(cfg, start, run);
    Delivery.EndToEnd(cfg, sys);
    assert BothFinished(cfg, sys);
  }

  /** So there is a transfer that both sides report as complete and whose file is not. */
  lemma CorruptSuccess()
    ensures exists cfg: Config, sys :: BothFinished(cfg, sys) && !Delivery.Intact(cfg, sys.receiver.file)
  {
    var n := 4294968151;
    var cfg: Config := ConfigFor(seq(n, _ => 0), n, true);
    BothFinish(cfg);
  }

  /** Every transfer has a fair run, so `Liveness.ReceiverFinishes` is not vacuous. */
  lemma FairRunsExist(cfg: Config)
    ensures exists t :: Liveness.Endless(cfg, t) && Liveness.Fair(cfg, t)
  {
    var start := Start(cfg);
    StartIsInitial(cfg);
    Completion.RoundsFinish(cfg, start);
    var run :| Completion.Finishes(cfg, start, run);
    ReachableExtends(cfg, start, run);
    ReachableInv(cfg, After(cfg, start, run));
    Liveness.ContinuedIsEndless(cfg, start, run);
    Liveness.ContinuedIsFair(cfg, start, run);
  }

  // ---- the sender left alone ----

  /** The sender is unfinished, and no legal run from here ever finishes it. */
  ghost predicate Abandoned(cfg: Config, sys: System) {
    !SenderFinished(cfg, sys) && forall run :: Legal(cfg, sys, run) ==> !SenderFinished(cfg, After(cfg, sys, run))
  }

  /** The receiver has finished, its threads have left, and none of its acks is on the way. */
  predicate Deaf(sys: System) {
    ReceiverFinished(sys) && sys.listening == [] && sys.testing == 0 && sys.acks == {}
  }

  lemma StepKeepsDeaf(cfg: Config, sys: System, e: Event)
    requires Deaf(sys) && Allowed(cfg, sys, e)
    ensures Deaf(Step(cfg, sys, e)) && (SenderFinished(cfg, Step(cfg, sys, e)) <==> SenderFinished(cfg, sys))
  {
  }

  lemma {:induction false} DeafNeverFinishes(cfg: Config, sys: System, run: seq<Event>)
    requires Deaf(sys) && !SenderFinished(cfg, sys) && Legal(cfg, sys, run)
    ensures !SenderFinished(cfg, After(cfg, sys, run))
    decreases |run|
  {
    if run != [] {
      StepKeepsDeaf(cfg, sys, run[0]);
      DeafNeverFinishes(cfg, Step(cfg, sys, run[0]), run[1..]);
    }
  }

  lemma DeafIsAbandoned(cfg: Config, sys: System)
    requires Deaf(sys) && !SenderFinished(cfg, sys)
    ensures Abandoned(cfg, sys)
  {
    forall run | Legal(cfg, sys, run) ensures !SenderFinished(cfg, After(cfg, sys, run)) {
      DeafNeverFinishes(cfg, sys, run);
    }
  }

  /** A punctual run from `sys` to `after`. */
  ghost predicate LeadsTo(cfg: Config, sys: System, run: seq<Event>, after: System) {
    Punctual(cfg, sys, run) && Legal(cfg, sys, run) && after == After(cfg, sys, run)
  }

  lemma LeadsFirst(cfg: Config, sys: System, e: Event, run: seq<Event>, after: System)
    requires Allowed(cfg, sys, e) && OnTime(sys, e) && LeadsTo(cfg, Step(cfg, sys, e), run, after)
    ensures LeadsTo(cfg, sys, [e] + run, after)
  {
    assert ([e] + run)[1..] == run;
  }

  lemma {:induction false} LeadsThen(cfg: Config, sys: System, first: seq<Event>, mid: System, second: seq<Event>, after: System)
    requires LeadsTo(cfg, sys, first, mid) && LeadsTo(cfg, mid, second, after)
    ensures LeadsTo(cfg, sys, first + second, after)
    decreases |first|
  {
    if first == [] {
      assert first + second == second;
    } else {
      LeadsThen(cfg, Step(cfg, sys, first[0]), first[1..], mid, second, after);
      LeadsFirst(cfg, sys, first[0], first[1..] + second, after);
      assert first + second == [first[0]] + (first[1..] + second);
    }
  }

  /** `sys` once every thread of the receiver has left. */
  function ThreadsGone(sys: System): System {
    sys.(listening := [], testing := 0)
  }

  /** Once their deadlines have passed, the threads of a finished receiver all leave. */
  lemma {:induction false} ThreadsLeave(cfg: Config, sys: System) returns (run: seq<Event>)
    requires ReceiverFinished(sys) && !sys.faulted
    requires forall d :: d in sys.listening ==> d <= sys.clock
    ensures LeadsTo(cfg, sys, run, ThreadsGone(sys))
    ensures forall e :: e in run ==> e.RecvTimeout? || e.LoopTest?
    decreases 2 * |sys.listening| + sys.testing
  {
    if sys.listening != [] {
      assert sys.listening[0] in sys.listening;
      var rest := ThreadsLeave(cfg, DoRecvTimeout(sys, 0));
      assert Step(cfg, sys, RecvTimeout(0)) == DoRecvTimeout(sys, 0);
      run := [RecvTimeout(0)] + rest;
      LeadsFirst(cfg, sys, RecvTimeout(0), rest, ThreadsGone(sys));
    } else if sys.testing > 0 {
      var rest := ThreadsLeave(cfg, DoLoopTest(sys));
      assert Step(cfg, sys, LoopTest) == DoLoopTest(sys);
      run := [LoopTest] + rest;
      LeadsFirst(cfg, sys, LoopTest, rest, ThreadsGone(sys));
    } else {
      run := [];
    }
  }

  /** The receiver falls silent on its own: 50 milliseconds after it has finished, whatever the
      state, all its threads can have left without any help of the network. */
  lemma FallsSilent(cfg: Config, sys: System) returns (run: seq<Event>)
    requires Inv(cfg, sys) && ReceiverFinished(sys)
    ensures LeadsTo(cfg, sys, run, ThreadsGone(sys.(clock := sys.clock + 50_000)))
    ensures forall e :: e in run ==> e.Tick? || e.RecvTimeout? || e.LoopTest?
  {
    var late := sys.(clock := sys.clock + RECV_TIMEOUT_US);
    assert Step(cfg, sys, Tick(RECV_TIMEOUT_US)) == late;
    var rest := ThreadsLeave(cfg, late);
    run := [Tick(RECV_TIMEOUT_US)] + rest;
    LeadsFirst(cfg, sys, Tick(RECV_TIMEOUT_US), rest, ThreadsGone(late));
  }

  /** If the acks of a finished receiver are lost, the sender can be left alone. */
  lemma FinishedReceiverLeaves(cfg: Config, sys: System) returns (run: seq<Event>, after: System)
    requires Inv(cfg, sys) && ReceiverFinished(sys) && !SenderFinished(cfg, sys)
    ensures LeadsTo(cfg, sys, run, after) && Deaf(after) && !SenderFinished(cfg, after)
  {
    var silent := Completion.Drained(sys);
    Completion.DrainedKeepsInv(cfg, sys);
    var rest := FallsSilent(cfg, silent);
    after := ThreadsGone(silent.(clock := silent.clock + RECV_TIMEOUT_US));
    var loss := Lose(sys.net, sys.acks);
    assert Step(cfg, sys, loss) == silent;
    run := [loss] + rest;
    LeadsFirst(cfg, sys, loss, rest, after);
  }

  /** A run that finishes the receiver passes through a state in which the sender does not
      know yet. */
  lemma {:induction false} ReceiverFinishesFirst(cfg: Config, sys: System, run: seq<Event>)
    returns (prefix: seq<Event>, mid: System)
    requires Inv(cfg, sys) && !SenderFinished(cfg, sys)
    requires Prompt(cfg, sys, run) && Legal(cfg, sys, run) && ReceiverFinished(After(cfg, sys, run))
    ensures LeadsTo(cfg, sys, prefix, mid) && Inv(cfg, mid)
    ensures ReceiverFinished(mid) && !SenderFinished(cfg, mid)
    decreases |run|
  {
    if ReceiverFinished(sys) {
      prefix, mid := [], sys;
    } else {
      var next := Step(cfg, sys, run[0]);
      StepKeepsInv(cfg, sys, run[0]);
      SenderWaits(cfg, sys, run[0]);
      var rest;
      rest, mid := ReceiverFinishesFirst(cfg, next, run[1..]);
      prefix := [run[0]] + rest;
      LeadsFirst(cfg, sys, run[0], rest, mid);
    }
  }

  /** No step finishes the sender while the receiver is unfinished. */
  lemma SenderWaits(cfg: Config, sys: System, e: Event)
    requires Inv(cfg, sys) && Allowed(cfg, sys, e) && !ReceiverFinished(sys) && !SenderFinished(cfg, sys)
    ensures !SenderFinished(cfg, Step(cfg, sys, e))
  {
    var after := Step(cfg, sys, e);
    StepKeepsInv(cfg, sys, e);
    Coupling(cfg, after);
    SI.FinishedMeansAllPassed(cfg, after.sender);
    RI.FinishedMeansAllReceived(cfg, after.receiver);
  }

  lemma FinishedStays(cfg: Config, sys: System, run: seq<Event>)
    requires Inv(cfg, sys) && Legal(cfg, sys, run) && SenderFinished(cfg, sys)
    ensures SenderFinished(cfg, After(cfg, sys, run))
  {
    Delivery.EdgesStayAdvanced(cfg, sys, run);
    RunKeepsInv(cfg, sys, run);
    SI.FinishedMeansAllPassed(cfg, sys.sender);
    SI.FinishedMeansAllPassed(cfg, After(cfg, sys, run).sender);
  }

  ghost predicate CanBeAbandoned(cfg: Config, sys: System) {
    exists run, after :: LeadsTo(cfg, sys, run, after) && Abandoned(cfg, after)
  }

  /** From every reachable state, some punctual run leaves the sender running for ever, exactly
      as long as the sender has not finished. */
  lemma AbandonedIff(cfg: Config, sys: System)
    requires Reachable(cfg, sys)
    ensures CanBeAbandoned(cfg, sys) <==> !SenderFinished(cfg, sys)
  {
    ReachableInv(cfg, sys);
    if SenderFinished(cfg, sys) {
      forall run, after | LeadsTo(cfg, sys, run, after) ensures !Abandoned(cfg, after) {
        FinishedStays(cfg, sys, run);
      }
    } else {
      var prefix, mid := [], sys;
      if !ReceiverFinished(sys) {
        Completion.RoundsFinish(cfg, sys);
        var run :| Completion.Finishes(cfg, sys, run);
        prefix, mid := ReceiverFinishesFirst(cfg, sys, run);
      }
      var rest, after := FinishedReceiverLeaves(cfg, mid);
      LeadsThen(cfg, sys, prefix, mid, rest, after);
      DeafIsAbandoned(cfg, after);
    }
  }

  /** In every transfer this happens: the receiver finishes, and the sender never does. */
  lemma SenderCanBeStranded(cfg: Config)
    ensures exists sys :: Reachable(cfg, sys) && ReceiverFinished(sys) && Abandoned(cfg, sys)
  {
    var start := Start(cfg);
    StartIsInitial(cfg);
    Completion.RoundsFinish(cfg, start);
    var run :| Completion.Finishes(cfg, start, run);
    var prefix, mid := ReceiverFinishesFirst(cfg, start, run);
    ReachableExtends(cfg, start, prefix);
    var rest, after := FinishedReceiverLeaves(cfg, mid);
    ReachableExtends(cfg, mid, rest);
    DeafIsAbandoned(cfg, after);
  }

  // ---- a punishment that enlarges the window ----

  lemma StepIsReachable(cfg: Config, sys: System, e: Event)
    requires Reachable(cfg, sys) && Allowed(cfg, sys, e)
    ensures Reachable(cfg, Step(cfg, sys, e)) && Inv(cfg, Step(cfg, sys, e))
  {
    assert [e][1..] == [];
    assert Legal(cfg, Step(cfg, sys, e), []);
    assert After(cfg, sys, [e]) == After(cfg, Step(cfg, sys, e), []);
    ReachableExtends(cfg, sys, [e]);
    ReachableInv(cfg, Step(cfg, sys, e));
  }

  /** The first packet of every transfer. */
  function FirstPacket(cfg: Config): Packet {
    S.ToPacket(cfg, S.Fresh(cfg, 0), 0)
  }

  const FIRST_ACK: Ack := Ack(RegularAck, 1, 0, 0)

  lemma FirstReply(cfg: Config)
    ensures Handle(R.Init(), FirstPacket(cfg)).1 == FIRST_ACK
  {
    var p := FirstPacket(cfg);
    var stored := R.Store(R.NoteLast(R.Init(), p), p);
    assert stored.window[0].received && !stored.window[1].received;
    assert stored.window[1..][0] == stored.window[1];
    assert R.Run(stored.window) == 1;
  }

  /** The first round is sent, its first packet arrives and is acknowledged. */
  lemma FirstAcknowledged(cfg: Config) returns (sys: System)
    ensures Reachable(cfg, sys) && FIRST_ACK in sys.acks && !sys.faulted
    ensures sys.sender == S.Prepare(S.Init(cfg), 0)
  {
    var start := Start(cfg);
    StartIsInitial(cfg);
    SI.InitInv(cfg);
    SI.FillExtends(cfg, 0, [], S.CWND_MIN);
    assert S.Init(cfg).window[0] == S.Fresh(cfg, 0);
    SI.DueIsPrepared(cfg, start.sender, 0, 0);
    StepIsReachable(cfg, start, SendData);
    var sent := DoSend(cfg, start);
    StepIsReachable(cfg, sent, Deliver(FirstPacket(cfg), 0));
    FirstReply(cfg);
    sys := DoDeliver(sent, FirstPacket(cfg), 0);
  }

  /** The sender after that ack has come in once more than `repeated` times. */
  predicate Repeated(s: S.Sender, repeated: nat) {
    s.left == 1 && s.cwnd == 10 && s.growAt == 10 && !s.punished && s.lastAck == 1 && s.lastAckCount == repeated
  }

  lemma RepeatedOnce(cfg: Config, s: S.Sender)
    requires SI.Inv(cfg, s) && cfg.fastRetransmission
    requires (s == S.Prepare(S.Init(cfg), 0) && |s.window| > 0) || Repeated(s, 0)
    ensures Repeated(S.AckArrived(cfg, s, 1, 0), if s.left == 0 then 0 else 1)
  {
    var before := S.BeforeSlide(cfg, s, 1, 0);
    assert before.cwnd == 10 && before.growAt == 10 && !before.punished && before.lastAck == 1;
    SI.SlideControl(before, 1);
    assert !S.Grows(S.Slide(before, 1));
  }

  /** The step in which `a` fires fast retransmission and enlarges the congestion window. */
  ghost predicate Enlarges(cfg: Config, sys: System, a: Ack) {
    && Reachable(cfg, sys) && Allowed(cfg, sys, DeliverAck(a)) && S.FastFires(cfg, sys.sender, a.cumulative)
    && DoAck(cfg, sys, a).sender.cwnd > sys.sender.cwnd
  }

  /** A punishment that enlarges the congestion window happens in every transfer with fast
      retransmission switched on. */
  lemma EnlargingHappensIff(cfg: Config)
    ensures (exists sys, a :: Enlarges(cfg, sys, a)) <==> cfg.fastRetransmission
  {
    if cfg.fastRetransmission {
      var zero := FirstAcknowledged(cfg);
      var a := FIRST_ACK;
      ReachableInv(cfg, zero);
      AckWithinWindow(cfg, zero, a);
      RepeatedOnce(cfg, zero.sender);
      StepIsReachable(cfg, zero, DeliverAck(a));
      var one := DoAck(cfg, zero, a);
      RepeatedOnce(cfg, one.sender);
      StepIsReachable(cfg, one, DeliverAck(a));
      var two := DoAck(cfg, one, a);
      Delivery.PunishmentEnlarges(cfg, two, a);
      assert Enlarges(cfg, two, a);
    }
  }
}
