/** The inductive invariant of the whole system. Its clauses speak of components only, so
    that an event which leaves a component alone leaves the clause alone. */
module ProtocolInvariant {
  import opened Transfer
  import opened Packets
  import opened Protocol
  import Ledger
  import R = ReceiverModel
  import RI = ReceiverInvariant
  import S = SenderModel
  import SI = SenderInvariant

  /** One past the last packet in the sender's window. */
  function Reach(s: S.Sender): nat {
    s.left + |s.window|
  }

  /** Everything ever sent is a leftover of the handshake or a genuine packet of the window. */
  ghost predicate PacketsOk(cfg: Config, packets: set<Packet>, reach: nat, clock: nat) {
    forall p :: p in packets ==>
      && p.sentTime <= clock
      && if p.ptype == Handshake then p.seqNum == 0 && p.data == [] else RI.Genuine(cfg, p) && p.seqNum < reach
  }

  predicate AckOk(a: Ack, got: set<nat>, next: nat, clock: nat) {
    && a.sentTime <= clock
    && a.cumulative <= next && (a.cumulative != a.selective ==> a.selective in got)
  }

  ghost predicate AcksOk(acks: set<Ack>, got: set<nat>, next: nat, clock: nat) {
    forall a :: a in acks ==> AckOk(a, got, next, clock)
  }

  /** Was `q` ever the receiver's announced next packet? Initially it is 0. */
  ghost predicate Issued(acks: set<Ack>, q: nat) {
    q == 0 || exists a :: a in acks && a.atype == RegularAck && a.cumulative == q
  }

  /** A packet selectively acknowledged from beyond a gap is never announced as next, neither
      before nor after. */
  ghost predicate GapsPassed(acks: set<Ack>) {
    forall a :: a in acks && a.atype == RegularAck && a.cumulative < a.selective ==> !Issued(acks, a.selective)
  }

  /** What the sender believes acknowledged is stored, and was never announced as next. */
  ghost predicate AckedOk(s: S.Sender, got: set<nat>, acks: set<Ack>) {
    forall q: nat :: S.Holds(s, q) && S.At(s, q).state == S.Acked ==> q in got && !Issued(acks, q)
  }

  ghost predicate WasSent(packets: set<Packet>, q: nat) {
    exists p :: p in packets && p.ptype != Handshake && p.seqNum == q
  }

  ghost predicate ReceivedWasSent(got: set<nat>, packets: set<Packet>) {
    forall q :: q in got ==> WasSent(packets, q)
  }

  predicate InFlight(item: S.Item) {
    item.state == S.Sent || item.state == S.Resent
  }

  /** `t` is the send time of the newest copy of packet `q`. */
  ghost predicate NewestCopy(packets: set<Packet>, q: nat, t: nat) {
    && (exists p :: p in packets && p.ptype != Handshake && p.seqNum == q && p.sentTime == t)
    && (forall p :: p in packets && p.ptype != Handshake && p.seqNum == q ==> p.sentTime <= t)
  }

  /** An item is NOT_SENT exactly when no copy of it was ever sent, and an item in flight
      carries the send time of its newest copy. */
  ghost predicate SentOk(s: S.Sender, packets: set<Packet>) {
    forall q: nat :: S.Holds(s, q) ==> ItemSentOk(S.At(s, q), q, packets)
  }

  ghost predicate ItemSentOk(item: S.Item, q: nat, packets: set<Packet>) {
    && (item.state == S.NotSent <==> !WasSent(packets, q))
    && (InFlight(item) ==> NewestCopy(packets, q, item.lastSentTime))
  }

  /** No thread of an unfinished receiver has left, and none waits longer than its timeout. */
  ghost predicate ThreadsOk(sys: System) {
    && |sys.listening| + sys.testing <= RECEIVE_THREADS
    && (!ReceiverFinished(sys) ==> |sys.listening| + sys.testing == RECEIVE_THREADS)
    && (forall d :: d in sys.listening ==> d <= sys.clock + RECV_TIMEOUT_US)
  }

  ghost predicate Endpoints(cfg: Config, sys: System) {
    && SI.Inv(cfg, sys.sender)
    && RI.Inv(cfg, sys.receiver)
    && !sys.faulted
    && ThreadsOk(sys)
    && Ledger.Balanced(sys.tally, sys.sender)
  }

  ghost predicate History(cfg: Config, sys: System) {
    var got := RI.Received(sys.receiver);
    && sys.net <= sys.sentPackets && sys.acks <= sys.sentAcks
    && PacketsOk(cfg, sys.sentPackets, Reach(sys.sender), sys.clock)
    && AcksOk(sys.sentAcks, got, sys.receiver.next, sys.clock)
    && GapsPassed(sys.sentAcks)
    && Issued(sys.sentAcks, sys.sender.left)
    && AckedOk(sys.sender, got, sys.sentAcks)
    && ReceivedWasSent(got, sys.sentPackets)
    && SentOk(sys.sender, sys.sentPackets)
  }

  ghost predicate Inv(cfg: Config, sys: System) {
    Endpoints(cfg, sys) && History(cfg, sys)
  }

  lemma InitialInv(cfg: Config, sys: System)
    requires Initial(cfg, sys)
    ensures Inv(cfg, sys)
  {
    SI.InitInv(cfg);
    RI.InitInv(cfg);
    Ledger.InitBalanced(cfg);
    SI.FillExtends(cfg, 0, [], S.CWND_MIN);
    forall q: nat | S.Holds(sys.sender, q) ensures S.At(sys.sender, q).state == S.NotSent {
      assert sys.sender.window[q] == S.Fresh(cfg, q);
    }
  }

  // ---- the couplings the clauses imply ----

  /** The window of the sender always contains what the receiver expects next:
      `left <= next <= left + |window|`. */
  lemma Coupling(cfg: Config, sys: System)
    requires Inv(cfg, sys)
    ensures sys.sender.left <= sys.receiver.next <= Reach(sys.sender) <= cfg.last + 1
  {
    var next := sys.receiver.next;
    RI.NextIsLeastMissing(cfg, sys.receiver);
    if next > 0 {
      assert next - 1 in RI.Received(sys.receiver);
      assert WasSent(sys.sentPackets, next - 1);
    }
  }

  lemma InFlightTime(cfg: Config, sys: System, q: nat)
    requires Inv(cfg, sys) && S.Holds(sys.sender, q) && InFlight(S.At(sys.sender, q))
    ensures S.At(sys.sender, q).lastSentTime <= sys.clock
    ensures NewestCopy(sys.sentPackets, q, S.At(sys.sender, q).lastSentTime)
  {
    assert ItemSentOk(S.At(sys.sender, q), q, sys.sentPackets);
  }

  /** The head of the window is never acknowledged, so it is always retransmitted. */
  lemma HeadNotAcked(cfg: Config, sys: System)
    requires Inv(cfg, sys)
    ensures sys.sender.window != [] ==> sys.sender.window[0].state != S.Acked
  {
  }

  // ---- one lemma per event ----

  lemma TickKeepsInv(cfg: Config, sys: System, us: nat)
    requires Inv(cfg, sys)
    ensures Inv(cfg, sys.(clock := sys.clock + us))
  {
  }

  lemma LoseKeepsInv(cfg: Config, sys: System, packets: set<Packet>, replies: set<Ack>)
    requires Inv(cfg, sys)
    ensures Inv(cfg, sys.(net := sys.net - packets, acks := sys.acks - replies))
  {
  }

  lemma RecvTimeoutKeepsInv(cfg: Config, sys: System, i: nat)
    requires Inv(cfg, sys) && i < |sys.listening|
    ensures Inv(cfg, DoRecvTimeout(sys, i))
  {
  }

  lemma ReadKeepsInv(cfg: Config, sys: System)
    requires Inv(cfg, sys)
    ensures Inv(cfg, DoRead(sys))
  {
  }

  lemma LoopTestKeepsInv(cfg: Config, sys: System)
    requires Inv(cfg, sys) && sys.testing > 0
    ensures Inv(cfg, DoLoopTest(sys))
  {
  }

  lemma SampleKeepsInv(cfg: Config, sys: System, a: Ack)
    requires Inv(cfg, sys)
    ensures Inv(cfg, DoSample(sys, a))
  {
  }

  lemma CheckItem(s: S.Sender, now: nat, us: nat, q: nat)
    ensures var r := S.CheckTimeout(s, now, us);
            && r.left == s.left && |r.window| == |s.window|
            && (S.Holds(s, q) ==>
                 S.At(r, q) == S.At(s, q).(state := if S.Expires(S.At(s, q), now, us) then S.TimedOut else S.At(s, q).state))
  {
  }

  lemma CheckKeepsInv(cfg: Config, sys: System)
    requires Inv(cfg, sys) && sys.readTimeout != None
    ensures Inv(cfg, DoCheck(sys))
  {
    var r, us := DoCheck(sys).sender, sys.readTimeout.value;
    SI.CheckTimeoutKeepsInv(cfg, sys.sender, sys.clock, us);
    Ledger.TimeoutKeepsBalance(sys.tally, sys.sender, sys.clock, us);
    forall q: nat | S.Holds(r, q)
      ensures S.Holds(sys.sender, q)
      ensures S.At(r, q).state == S.Acked ==> S.At(sys.sender, q).state == S.Acked
      ensures ItemSentOk(S.At(r, q), q, sys.sentPackets)
    {
      CheckItem(sys.sender, sys.clock, us, q);
      assert ItemSentOk(S.At(sys.sender, q), q, sys.sentPackets);
    }
    CheckItem(sys.sender, sys.clock, us, 0);
  }

  lemma PrepareItem(s: S.Sender, now: nat, q: nat)
    ensures var r := S.Prepare(s, now);
            && r.left == s.left && |r.window| == |s.window|
            && (S.Holds(s, q) ==> S.At(r, q) == if SI.Due(s, q) then S.Transmit(S.At(s, q), now) else S.At(s, q))
  {
  }

  lemma SendKeepsPackets(cfg: Config, sys: System)
    requires Inv(cfg, sys)
    ensures PacketsOk(cfg, DoSend(cfg, sys).sentPackets, Reach(sys.sender), sys.clock)
  {
    forall p | p in S.PreparedPackets(cfg, sys.sender, sys.clock)
      ensures p.sentTime == sys.clock && RI.Genuine(cfg, p) && p.seqNum < Reach(sys.sender)
    {
      SI.PreparedPacket(cfg, sys.sender, sys.clock, p);
    }
  }

  lemma SendKeepsItem(cfg: Config, sys: System, q: nat)
    requires Inv(cfg, sys) && S.Holds(sys.sender, q)
    ensures var after := DoSend(cfg, sys);
            && S.Holds(after.sender, q)
            && (S.At(after.sender, q).state == S.Acked ==> S.At(sys.sender, q).state == S.Acked)
            && ItemSentOk(S.At(after.sender, q), q, after.sentPackets)
  {
    var after := DoSend(cfg, sys);
    PrepareItem(sys.sender, sys.clock, q);
    assert ItemSentOk(S.At(sys.sender, q), q, sys.sentPackets);
    forall p | p in S.PreparedPackets(cfg, sys.sender, sys.clock) && p.seqNum == q
      ensures SI.Due(sys.sender, q) && p.sentTime == sys.clock && p.ptype != Handshake
    {
      SI.PreparedPacket(cfg, sys.sender, sys.clock, p);
    }
    if SI.Due(sys.sender, q) {
      SI.DueIsPrepared(cfg, sys.sender, sys.clock, q);
      assert S.At(sys.sender, q).seqNum == q;
      var p := S.ToPacket(cfg, S.At(sys.sender, q), sys.clock);
      assert p in after.sentPackets && p.seqNum == q;
    }
  }

  lemma SendKeepsInv(cfg: Config, sys: System)
    requires Inv(cfg, sys)
    ensures Inv(cfg, DoSend(cfg, sys))
  {
    var after := DoSend(cfg, sys);
    SI.PrepareKeepsInv(cfg, sys.sender, sys.clock);
    Ledger.RoundKeepsBalance(sys.tally, sys.sender, sys.clock);
    SendKeepsPackets(cfg, sys);
    forall q: nat | S.Holds(after.sender, q)
      ensures S.Holds(sys.sender, q)
      ensures S.At(after.sender, q).state == S.Acked ==> S.At(sys.sender, q).state == S.Acked
      ensures ItemSentOk(S.At(after.sender, q), q, after.sentPackets)
    {
      PrepareItem(sys.sender, sys.clock, q);
      SendKeepsItem(cfg, sys, q);
    }
    PrepareItem(sys.sender, sys.clock, 0);
    assert forall q :: WasSent(sys.sentPackets, q) ==> WasSent(after.sentPackets, q);
  }

  /** A reply keeps both ack clauses: what it announces as next is missing and new, what it
      marks is stored. */
  lemma ReplyKeepsAcks(acks: set<Ack>, b: Ack, got: set<nat>, got': set<nat>, next: nat, next': nat, clock: nat)
    requires AcksOk(acks, got, next, clock) && GapsPassed(acks)
    requires got <= got' && next <= next' && next' !in got'
    requires AckOk(b, got', next', clock) && (b.atype == RegularAck ==> b.cumulative == next')
    ensures AcksOk(acks + {b}, got', next', clock) && GapsPassed(acks + {b})
  {
    forall a | a in acks + {b} && a.atype == RegularAck && a.cumulative < a.selective
      ensures !Issued(acks + {b}, a.selective)
    {
      assert AckOk(a, got', next', clock);
      if a == b {
        assert forall c :: c in acks ==> AckOk(c, got, next, clock);
      }
    }
  }

  lemma ReplyKeepsAcked(s: S.Sender, got: set<nat>, got': set<nat>, acks: set<Ack>, b: Ack)
    requires AckedOk(s, got, acks) && got <= got'
    requires b.atype == RegularAck ==> b.cumulative !in got'
    ensures AckedOk(s, got', acks + {b})
  {
  }

  lemma DataKeepsHistory(cfg: Config, sys: System, p: Packet, i: nat)
    requires Inv(cfg, sys) && p in sys.net && i < |sys.listening| && p.ptype != Handshake
    ensures History(cfg, DoDeliver(sys, p, i))
  {
    var r, r' := sys.receiver, R.Receive(sys.receiver, p);
    var got, got' := RI.Received(r), RI.Received(r');
    var b := R.Reply(r, p);
    RI.ReceiveKeepsInv(cfg, r, p);
    RI.ReceiveAddsToSet(r, p);
    RI.ReplyIsSound(cfg, r, p);
    ReplyKeepsAcks(sys.sentAcks, b, got, got', r.next, r'.next, sys.clock);
    ReplyKeepsAcked(sys.sender, got, got', sys.sentAcks, b);
    assert WasSent(sys.sentPackets, p.seqNum);
  }

  lemma HandshakeKeepsHistory(cfg: Config, sys: System, p: Packet, i: nat)
    requires Inv(cfg, sys) && p in sys.net && i < |sys.listening| && p.ptype == Handshake
    ensures History(cfg, DoDeliver(sys, p, i))
  {
    var got := RI.Received(sys.receiver);
    var b := Handle(sys.receiver, p).1;
    RI.NextIsLeastMissing(cfg, sys.receiver);
    ReplyKeepsAcks(sys.sentAcks, b, got, got, sys.receiver.next, sys.receiver.next, sys.clock);
    ReplyKeepsAcked(sys.sender, got, got, sys.sentAcks, b);
  }

  lemma DeliverKeepsInv(cfg: Config, sys: System, p: Packet, i: nat)
    requires Inv(cfg, sys) && p in sys.net && i < |sys.listening|
    ensures Inv(cfg, DoDeliver(sys, p, i))
  {
    if p.ptype == Handshake {
      HandshakeKeepsHistory(cfg, sys, p, i);
    } else {
      DataKeepsHistory(cfg, sys, p, i);
      RI.ReceiveKeepsInv(cfg, sys.receiver, p);
      RI.FinishedMeansAllReceived(cfg, sys.receiver);
      RI.FinishedMeansAllReceived(cfg, R.Receive(sys.receiver, p));
      RI.NextIsLeastMissing(cfg, R.Receive(sys.receiver, p));
    }
  }

  /** The pop loop never pops an empty deque: no ack on the wire acknowledges more than the
      window holds. */
  lemma AckWithinWindow(cfg: Config, sys: System, a: Ack)
    requires Inv(cfg, sys) && a in sys.sentAcks && a.atype == RegularAck
    ensures S.Passed(sys.sender, a.cumulative) <= |sys.sender.window|
  {
    Coupling(cfg, sys);
    assert AckOk(a, RI.Received(sys.receiver), sys.receiver.next, sys.clock);
  }

  /** An item acknowledged after the step was so before, or is the one marked beyond a gap. */
  lemma AckKeepsItem(cfg: Config, sys: System, a: Ack, q: nat)
    requires Inv(cfg, sys) && a in sys.acks && a.atype == RegularAck
    requires S.Passed(sys.sender, a.cumulative) <= |sys.sender.window|
    ensures var r := S.AckArrived(cfg, sys.sender, a.cumulative, a.selective);
            S.Holds(r, q) ==>
              && (S.At(r, q).state == S.Acked ==> q in RI.Received(sys.receiver) && !Issued(sys.sentAcks, q))
              && ItemSentOk(S.At(r, q), q, sys.sentPackets)
  {
    var r := S.AckArrived(cfg, sys.sender, a.cumulative, a.selective);
    if S.Holds(r, q) {
      SI.AckArrivedItem(cfg, sys.sender, a.cumulative, a.selective, q);
      SI.AckArrivedKeepsInv(cfg, sys.sender, a.cumulative, a.selective);
      assert AckOk(a, RI.Received(sys.receiver), sys.receiver.next, sys.clock);
      if S.Holds(sys.sender, q) {
        assert ItemSentOk(S.At(sys.sender, q), q, sys.sentPackets);
      }
    }
  }

  lemma AckKeepsInv(cfg: Config, sys: System, a: Ack)
    requires Inv(cfg, sys) && a in sys.acks && a.atype == RegularAck
    ensures Inv(cfg, DoAck(cfg, sys, a))
  {
    AckWithinWindow(cfg, sys, a);
    var r := S.AckArrived(cfg, sys.sender, a.cumulative, a.selective);
    SI.AckArrivedKeepsInv(cfg, sys.sender, a.cumulative, a.selective);
    Ledger.AckKeepsBalance(sys.tally, cfg, sys.sender, a.cumulative, a.selective);
    forall q: nat | S.Holds(r, q)
      ensures S.At(r, q).state == S.Acked ==> q in RI.Received(sys.receiver) && !Issued(sys.sentAcks, q)
      ensures ItemSentOk(S.At(r, q), q, sys.sentPackets)
    {
      AckKeepsItem(cfg, sys, a, q);
    }
  }

  // ---- every run ----

  lemma StepKeepsInv(cfg: Config, sys: System, e: Event)
    requires Inv(cfg, sys) && Allowed(cfg, sys, e)
    ensures Inv(cfg, Step(cfg, sys, e))
  {
    match e
    case Tick(us) => TickKeepsInv(cfg, sys, us);
    case SendData => SendKeepsInv(cfg, sys);
    case Deliver(p, i) => DeliverKeepsInv(cfg, sys, p, i);
    case RecvTimeout(i) => RecvTimeoutKeepsInv(cfg, sys, i);
    case LoopTest => LoopTestKeepsInv(cfg, sys);
    case SampleRtt(a) => SampleKeepsInv(cfg, sys, a);
    case DeliverAck(a) => AckKeepsInv(cfg, sys, a);
    case ReadTimeout => ReadKeepsInv(cfg, sys);
    case CheckTimeout => CheckKeepsInv(cfg, sys);
    case Lose(packets, replies) => LoseKeepsInv(cfg, sys, packets, replies);
  }

  lemma {:induction false} RunKeepsInv(cfg: Config, sys: System, run: seq<Event>)
    requires Inv(cfg, sys) && Legal(cfg, sys, run)
    ensures Inv(cfg, After(cfg, sys, run))
    decreases |run|
  {
    if run != [] {
      StepKeepsInv(cfg, sys, run[0]);
      RunKeepsInv(cfg, Step(cfg, sys, run[0]), run[1..]);
    }
  }

  /** Every state the programs can reach, whatever the network and the scheduler do. */
  ghost predicate Reachable(cfg: Config, sys: System) {
    exists start, run :: Initial(cfg, start) && Legal(cfg, start, run) && sys == After(cfg, start, run)
  }

  lemma {:induction false} LegalAppended(cfg: Config, sys: System, first: seq<Event>, second: seq<Event>)
    requires Legal(cfg, sys, first) && Legal(cfg, After(cfg, sys, first), second)
    ensures Legal(cfg, sys, first + second)
    ensures After(cfg, sys, first + second) == After(cfg, After(cfg, sys, first), second)
    decreases |first|
  {
    if first == [] {
      assert first + second == second;
    } else {
      LegalAppended(cfg, Step(cfg, sys, first[0]), first[1..], second);
      assert (first + second)[1..] == first[1..] + second;
    }
  }

  lemma ReachableExtends(cfg: Config, sys: System, run: seq<Event>)
    requires Reachable(cfg, sys) && Legal(cfg, sys, run)
    ensures Reachable(cfg, After(cfg, sys, run))
  {
    var start, past :| Initial(cfg, start) && Legal(cfg, start, past) && sys == After(cfg, start, past);
    LegalAppended(cfg, start, past, run);
  }

  lemma ReachableInv(cfg: Config, sys: System)
    requires Reachable(cfg, sys)
    ensures Inv(cfg, sys)
  {
    var start, run :| Initial(cfg, start) && Legal(cfg, start, run) && sys == After(cfg, start, run);
    InitialInv(cfg, start);
    RunKeepsInv(cfg, start, run);
  }
}
