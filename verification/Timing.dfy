/** What the threads do with the clock and the wire: what is put on it, what a round trip sample
    measures, how long the timeout thread sleeps and how long a `recvfrom` lasts. */
module Timing {
  import opened Transfer
  import opened Packets
  import opened Protocol
  import opened ProtocolInvariant
  import RI = ReceiverInvariant
  import Rtt = RttModel
  import Rules = ReceiverRules
  import S = SenderModel
  import SI = SenderInvariant

  // ---- what goes on the wire ----

  /** A data packet as it leaves the sender at time `now`. */
  predicate Leaves(cfg: Config, s: S.Sender, now: nat, p: Packet) {
    && SI.Due(s, p.seqNum) && p.sentTime == now && p.seqNum <= cfg.last
    && p.data == cfg.Chunk(p.seqNum)
    && p.ptype == if p.seqNum == cfg.last then Finish else Regular
  }

  lemma PreparedIffLeaves(cfg: Config, s: S.Sender, now: nat, p: Packet)
    requires SI.Inv(cfg, s)
    ensures p in S.PreparedPackets(cfg, s, now) <==> Leaves(cfg, s, now, p)
  {
    if p in S.PreparedPackets(cfg, s, now) {
      SI.PreparedPacket(cfg, s, now, p);
    }
    if Leaves(cfg, s, now, p) {
      SI.ShapeItem(cfg, s, p.seqNum);
      SI.DueIsPrepared(cfg, s, now, p.seqNum);
    }
  }

  /** A sending round puts exactly the due packets on the wire, one copy each, and nothing else
      happens to the wire. */
  lemma RoundOnWire(cfg: Config, sys: System, p: Packet)
    requires Reachable(cfg, sys) && Allowed(cfg, sys, SendData)
    ensures var after := DoSend(cfg, sys);
            && (p in after.net <==> p in sys.net || Leaves(cfg, sys.sender, sys.clock, p))
            && (p in after.sentPackets <==> p in sys.sentPackets || Leaves(cfg, sys.sender, sys.clock, p))
            && after.acks == sys.acks && after.sentAcks == sys.sentAcks
  {
    ReachableInv(cfg, sys);
    PreparedIffLeaves(cfg, sys.sender, sys.clock, p);
  }

  /** A delivered packet is answered by one ack with its send time: a handshake by a handshake
      ack and without a trace, a data packet by what the receiver has to reply. */
  lemma ReplyOnWire(cfg: Config, sys: System, p: Packet, i: nat)
    requires Reachable(cfg, sys) && Allowed(cfg, sys, Deliver(p, i))
    ensures var after := DoDeliver(sys, p, i);
            exists a :: after.acks == sys.acks + {a} && after.sentAcks == sys.sentAcks + {a} && after.net == sys.net
                     && a.sentTime == p.sentTime
                     && if p.ptype == Handshake then a == Ack(HandshakeAck, 0, 0, p.sentTime) && after.receiver == sys.receiver
                        else Rules.Receives(sys.receiver, p, after.receiver, a)
  {
    ReachableInv(cfg, sys);
    var a := Handle(sys.receiver, p).1;
    if p.ptype != Handshake {
      Rules.ReceiveMeets(cfg, sys.receiver, p);
    }
    assert DoDeliver(sys, p, i).acks == sys.acks + {a};
  }

  // ---- samples ----

  /** `a` answers `p`: it carries the packet's send time, and names it unless it was dropped. */
  predicate Answers(a: Ack, p: Packet) {
    p.ptype != Handshake && p.sentTime == a.sentTime && (a.selective != a.cumulative ==> p.seqNum == a.selective)
  }

  ghost predicate Answered(a: Ack, packets: set<Packet>) {
    exists p :: p in packets && Answers(a, p)
  }

  ghost predicate AllAnswers(acks: set<Ack>, packets: set<Packet>) {
    forall a :: a in acks && a.atype == RegularAck ==> Answered(a, packets)
  }

  lemma StepKeepsAnswers(cfg: Config, sys: System, e: Event)
    requires Inv(cfg, sys) && Allowed(cfg, sys, e) && AllAnswers(sys.sentAcks, sys.sentPackets)
    ensures AllAnswers(Step(cfg, sys, e).sentAcks, Step(cfg, sys, e).sentPackets)
  {
    var after := Step(cfg, sys, e);
    forall a | a in after.sentAcks && a.atype == RegularAck ensures Answered(a, after.sentPackets) {
      if a in sys.sentAcks {
        var p :| p in sys.sentPackets && Answers(a, p);
        SentStays(cfg, sys, e, p);
      } else {
        NewAckAnswers(cfg, sys, e, a);
      }
    }
  }

  lemma SentStays(cfg: Config, sys: System, e: Event, p: Packet)
    requires Allowed(cfg, sys, e) && p in sys.sentPackets
    ensures p in Step(cfg, sys, e).sentPackets
  {
  }

  lemma NewAckAnswers(cfg: Config, sys: System, e: Event, a: Ack)
    requires Inv(cfg, sys) && Allowed(cfg, sys, e)
    requires a in Step(cfg, sys, e).sentAcks && a !in sys.sentAcks && a.atype == RegularAck
    ensures Answered(a, Step(cfg, sys, e).sentPackets)
  {
    var p := e.packet;
    assert a == Handle(sys.receiver, p).1;
    assert p in sys.sentPackets;
    RI.ReplyIsSound(cfg, sys.receiver, p);
    assert Answers(a, p);
  }

  lemma {:induction false} RunKeepsAnswers(cfg: Config, sys: System, run: seq<Event>)
    requires Inv(cfg, sys) && Legal(cfg, sys, run) && AllAnswers(sys.sentAcks, sys.sentPackets)
    ensures AllAnswers(After(cfg, sys, run).sentAcks, After(cfg, sys, run).sentPackets)
    decreases |run|
  {
    if run != [] {
      StepKeepsAnswers(cfg, sys, run[0]);
      StepKeepsInv(cfg, sys, run[0]);
      RunKeepsAnswers(cfg, Step(cfg, sys, run[0]), run[1..]);
    }
  }

  lemma ReachableAnswers(cfg: Config, sys: System, a: Ack) returns (p: Packet)
    requires Reachable(cfg, sys) && a in sys.sentAcks && a.atype == RegularAck
    ensures p in sys.sentPackets && Answers(a, p)
  {
    var start, run :| Initial(cfg, start) && Legal(cfg, start, run) && sys == After(cfg, start, run);
    InitialInv(cfg, start);
    RunKeepsAnswers(cfg, start, run);
    p :| p in sys.sentPackets && Answers(a, p);
  }

  lemma AckIsPast(cfg: Config, sys: System, a: Ack)
    requires Reachable(cfg, sys) && a in sys.acks
    ensures a in sys.sentAcks && a.sentTime <= sys.clock
  {
    ReachableInv(cfg, sys);
  }

  /** A sample measures the true time since some copy of the acknowledged packet was sent, and
      moves the timeout by an eighth and the deviation by a quarter of the way. */
  lemma SamplesAreRoundTrips(cfg: Config, sys: System, a: Ack) returns (p: Packet)
    requires Reachable(cfg, sys) && Allowed(cfg, sys, SampleRtt(a))
    ensures p in sys.sentPackets && Answers(a, p) && p.sentTime <= sys.clock
    ensures var r, t, d := sys.clock - p.sentTime, sys.rtt.timeoutUs, sys.rtt.stdDevUs;
            DoSample(sys, a).rtt == Rtt.Estimator((r + 7 * t) / 8, ((if r >= t then r - t else t - r) + 3 * d) / 4)
  {
    AckIsPast(cfg, sys, a);
    p := ReachableAnswers(cfg, sys, a);
    Rtt.StepIsIntegral(sys.rtt, sys.clock - p.sentTime);
  }

  // ---- the timeout thread ----

  lemma {:induction false} UnsampledKeeps(cfg: Config, sys: System, run: seq<Event>)
    requires Legal(cfg, sys, run) && forall e :: e in run ==> !e.SampleRtt?
    requires sys.readTimeout == None || sys.readTimeout == Some(Rtt.CurrentTimeout(sys.rtt))
    ensures var after := After(cfg, sys, run);
            after.rtt == sys.rtt && (after.readTimeout == None || after.readTimeout == Some(Rtt.CurrentTimeout(sys.rtt)))
    decreases |run|
  {
    if run != [] {
      UnsampledKeeps(cfg, Step(cfg, sys, run[0]), run[1..]);
    }
  }

  /** Until the first sample every threshold is about twice the round trip of the handshake. */
  lemma FirstThresholds(cfg: Config, start: System, run: seq<Event>)
    requires Initial(cfg, start) && Legal(cfg, start, run) && forall e :: e in run ==> !e.SampleRtt?
    ensures var t, after := start.rtt.timeoutUs, After(cfg, start, run);
            after.readTimeout != None ==>
              && after.readTimeout.value == (11 * t + 40 * (t / 4)) / 10
              && 2 * t - 3 <= after.readTimeout.value
  {
    UnsampledKeeps(cfg, start, run);
    Rtt.FirstTimeout(start.rtt.timeoutUs);
  }

  lemma ClockKeepsOn(cfg: Config, sys: System, e: Event)
    requires Allowed(cfg, sys, e)
    ensures sys.clock <= Step(cfg, sys, e).clock
    ensures !e.CheckTimeout? ==> Step(cfg, sys, e).wakeAt == sys.wakeAt
  {
  }

  lemma {:induction false} SleepGoesOn(cfg: Config, sys: System, run: seq<Event>)
    requires Legal(cfg, sys, run) && forall e :: e in run ==> !e.CheckTimeout?
    ensures After(cfg, sys, run).wakeAt == sys.wakeAt && sys.clock <= After(cfg, sys, run).clock
    decreases |run|
  {
    if run != [] {
      ClockKeepsOn(cfg, sys, run[0]);
      SleepGoesOn(cfg, Step(cfg, sys, run[0]), run[1..]);
    }
  }

  /** Between a check and the next reading of the threshold lies half of the threshold used, and
      no more than that is required. */
  lemma ChecksAreSpaced(cfg: Config, sys: System, run: seq<Event>)
    requires Reachable(cfg, sys) && Allowed(cfg, sys, CheckTimeout)
    requires Legal(cfg, DoCheck(sys), run) && forall e :: e in run ==> !e.CheckTimeout? && !e.ReadTimeout?
    ensures var after, us := After(cfg, DoCheck(sys), run), sys.readTimeout.value;
            Allowed(cfg, after, ReadTimeout) <==> after.clock - sys.clock >= us / 2
  {
    CheckThenUnfaulted(cfg, sys, run);
    SleepGoesOn(cfg, DoCheck(sys), run);
    NotReadYet(cfg, DoCheck(sys), run);
  }

  lemma CheckThenUnfaulted(cfg: Config, sys: System, run: seq<Event>)
    requires Reachable(cfg, sys) && Allowed(cfg, sys, CheckTimeout) && Legal(cfg, DoCheck(sys), run)
    ensures !After(cfg, DoCheck(sys), run).faulted
  {
    ReachableInv(cfg, sys);
    CheckKeepsInv(cfg, sys);
    RunKeepsInv(cfg, DoCheck(sys), run);
  }

  lemma {:induction false} NotReadYet(cfg: Config, sys: System, run: seq<Event>)
    requires Legal(cfg, sys, run) && sys.readTimeout == None
    requires forall e :: e in run ==> !e.CheckTimeout? && !e.ReadTimeout?
    ensures After(cfg, sys, run).readTimeout == None
    decreases |run|
  {
    if run != [] {
      NotReadYet(cfg, Step(cfg, sys, run[0]), run[1..]);
    }
  }

  // ---- the receiver's threads ----

  /** While the receiver is unfinished, two threads serve it. */
  lemma TwoThreadsServe(cfg: Config, sys: System)
    requires Reachable(cfg, sys) && !ReceiverFinished(sys)
    ensures |sys.listening| + sys.testing == 2
  {
    ReachableInv(cfg, sys);
  }

  /** A thread that finds the receiver unfinished calls `recvfrom`, which fails from 50
      milliseconds later on and not before; one that finds it finished leaves. */
  lemma LoopTestDecides(cfg: Config, sys: System, us: nat)
    requires Reachable(cfg, sys) && Allowed(cfg, sys, LoopTest)
    ensures var after, n := DoLoopTest(sys), |sys.listening|;
            if ReceiverFinished(sys) then after.listening == sys.listening && after.testing == sys.testing - 1
            else
              && |after.listening| == n + 1 && after.testing == sys.testing - 1
              && (Allowed(cfg, after.(clock := sys.clock + us), RecvTimeout(n)) <==> us >= 50_000)
  {
  }
}
