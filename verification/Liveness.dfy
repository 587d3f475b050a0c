/** Liveness: on every endless run in which threads and network are fair, the receiver
    finishes. */
module Liveness {
  import opened Transfer
  import opened Packets
  import opened Protocol
  import opened ProtocolInvariant
  import opened Schedule
  import Delivery
  import RI = ReceiverInvariant
  import Rtt = RttModel
  import S = SenderModel
  import SI = SenderInvariant

  // ---- endless runs ----

  datatype Trace = Trace(at: nat -> System, ev: nat -> Event)

  ghost predicate StepAt(cfg: Config, t: Trace, i: nat) {
    Allowed(cfg, t.at(i), t.ev(i)) && t.at(i + 1) == Step(cfg, t.at(i), t.ev(i))
  }

  ghost predicate Endless(cfg: Config, t: Trace) {
    Reachable(cfg, t.at(0)) && forall i: nat :: StepAt(cfg, t, i)
  }

  /** What can happen at one moment of a run. */
  datatype Happening =
    | TimePasses(us: nat)        // the clock is past `us`
    | Checks                     // the timeout thread checks
    | Sends                      // the send thread prepares a round
    | Emits(q: nat)              // and puts packet `q` on the wire
    | Arrives(q: nat)            // packet `q` reaches a receiver thread
    | Replies(next: nat)         // which answers that it expects `next`
    | Acknowledges(next: nat)    // such an ack reaches the sender's window
    | Delivers(p: Packet)        // this very packet reaches a receiver thread
    | Samples(a: Ack)            // this very ack reaches the estimator

  ghost predicate Happens(cfg: Config, t: Trace, h: Happening, i: nat) {
    var sys, e := t.at(i), t.ev(i);
    match h
    case TimePasses(us) => sys.clock >= us
    case Checks => e.CheckTimeout?
    case Sends => e.SendData?
    case Emits(q) => e.SendData? && q in SI.Numbers(S.PreparedPackets(cfg, sys.sender, sys.clock))
    case Arrives(q) => e.Deliver? && e.packet.ptype != Handshake && e.packet.seqNum == q
    case Replies(next) =>
      e.Deliver? && Handle(sys.receiver, e.packet).1.atype == RegularAck && Handle(sys.receiver, e.packet).1.cumulative == next
    case Acknowledges(next) => e.DeliverAck? && e.ack.cumulative == next
    case Delivers(p) => e.Deliver? && e.packet == p
    case Samples(a) => e == SampleRtt(a)
  }

  /** At or after `i` it happens, unless the receiver finishes. */
  ghost predicate Later(cfg: Config, t: Trace, h: Happening, i: nat) {
    exists j: nat :: i <= j && (Happens(cfg, t, h, j) || ReceiverFinished(t.at(j)))
  }

  /** It happens again and again, unless the receiver finishes. */
  ghost predicate Recurs(cfg: Config, t: Trace, h: Happening) {
    forall i: nat :: Later(cfg, t, h, i)
  }

  ghost predicate Ceases(cfg: Config, t: Trace, h: Happening, from: nat) {
    forall j: nat :: from <= j ==> !Happens(cfg, t, h, j)
  }

  /** It happens finitely often. */
  ghost predicate Seldom(cfg: Config, t: Trace, h: Happening) {
    exists from: nat :: Ceases(cfg, t, h, from)
  }

  /** While the receiver is unfinished: the clock runs on without bound, the timeout thread keeps
      checking, announced data is sent some time, what is sent again and again arrives again and
      again, in both directions, and no datagram is duplicated without end. */
  ghost predicate Fair(cfg: Config, t: Trace) {
    && (forall us: nat :: Recurs(cfg, t, TimePasses(us)))
    && Recurs(cfg, t, Checks)
    && (forall i: nat :: S.HasDataToSend(cfg, t.at(i).sender) ==> Later(cfg, t, Sends, i))
    && (forall q: nat :: Recurs(cfg, t, Emits(q)) ==> Recurs(cfg, t, Arrives(q)))
    && (forall next: nat :: Recurs(cfg, t, Replies(next)) ==> Recurs(cfg, t, Acknowledges(next)))
    && (forall p: Packet :: Seldom(cfg, t, Delivers(p)))
    && (forall a: Ack :: Seldom(cfg, t, Samples(a)))
  }

  ghost predicate Unfinished(t: Trace) {
    forall i: nat :: !ReceiverFinished(t.at(i))
  }

  lemma {:induction false} InvAt(cfg: Config, t: Trace, i: nat)
    requires Endless(cfg, t)
    ensures Inv(cfg, t.at(i))
  {
    if i == 0 {
      ReachableInv(cfg, t.at(0));
    } else {
      InvAt(cfg, t, i - 1);
      assert StepAt(cfg, t, i - 1);
      StepKeepsInv(cfg, t.at(i - 1), t.ev(i - 1));
    }
  }

  lemma ClockAdvances(cfg: Config, sys: System, e: Event)
    requires Allowed(cfg, sys, e)
    ensures sys.clock <= Step(cfg, sys, e).clock
  {
  }

  predicate NoFurther(a: System, b: System) {
    a.sender.left <= b.sender.left && a.receiver.next <= b.receiver.next && a.clock <= b.clock
  }

  lemma NextIsFurther(cfg: Config, t: Trace, i: nat)
    requires Endless(cfg, t)
    ensures NoFurther(t.at(i), t.at(i + 1))
  {
    InvAt(cfg, t, i);
    assert StepAt(cfg, t, i);
    Delivery.EdgesAdvance(cfg, t.at(i), t.ev(i));
    ClockAdvances(cfg, t.at(i), t.ev(i));
  }

  lemma {:induction false} EdgesAt(cfg: Config, t: Trace, i: nat, j: nat)
    requires Endless(cfg, t) && i <= j
    ensures NoFurther(t.at(i), t.at(j))
    decreases j - i
  {
    if i < j {
      EdgesAt(cfg, t, i, j - 1);
      NextIsFurther(cfg, t, j - 1);
    }
  }

  // ---- the edges come to rest ----

  predicate SameEdges(a: System, b: System) {
    a.sender.left == b.sender.left && a.receiver.next == b.receiver.next
  }

  /** From `from` on neither the sender's left bound nor the receiver's next number moves. */
  ghost predicate Stalled(t: Trace, from: nat) {
    forall j: nat :: from <= j ==> SameEdges(t.at(from), t.at(j))
  }

  lemma {:induction false} EdgesRest(cfg: Config, t: Trace, i: nat) returns (from: nat)
    requires Endless(cfg, t)
    ensures i <= from && Stalled(t, from)
    decreases 2 * (cfg.last + 1) - t.at(i).sender.left - t.at(i).receiver.next
  {
    if j: nat :| i <= j && !SameEdges(t.at(i), t.at(j)) {
      EdgesAt(cfg, t, i, j);
      InvAt(cfg, t, j);
      Coupling(cfg, t.at(j));
      from := EdgesRest(cfg, t, j);
    } else {
      from := i;
    }
  }

  // ---- a waiting head is sent ----

  predicate HeadPends(s: S.Sender) {
    s.window != [] && S.Pending(s.window[0])
  }

  predicate HeadFlies(s: S.Sender) {
    s.window != [] && InFlight(s.window[0])
  }

  lemma HeadPendsOrFlies(cfg: Config, sys: System)
    requires Inv(cfg, sys) && !ReceiverFinished(sys)
    ensures HeadPends(sys.sender) || HeadFlies(sys.sender)
  {
    Coupling(cfg, sys);
    SI.FinishedMeansAllPassed(cfg, sys.sender);
    RI.FinishedMeansAllReceived(cfg, sys.receiver);
    HeadNotAcked(cfg, sys);
  }

  lemma StepKeepsHeadPending(cfg: Config, sys: System, e: Event)
    requires Inv(cfg, sys) && Allowed(cfg, sys, e) && !e.SendData? && HeadPends(sys.sender)
    requires Step(cfg, sys, e).sender.left == sys.sender.left
    ensures HeadPends(Step(cfg, sys, e).sender)
  {
    var q := sys.sender.left;
    assert S.At(sys.sender, q) == sys.sender.window[0];
    match e
    case CheckTimeout => CheckItem(sys.sender, sys.clock, sys.readTimeout.value, q);
    case DeliverAck(a) =>
      AckWithinWindow(cfg, sys, a);
      AckKeepsInv(cfg, sys, a);
      HeadNotAcked(cfg, DoAck(cfg, sys, a));
      SI.AckArrivedKeepsInv(cfg, sys.sender, a.cumulative, a.selective);
      SI.AckArrivedItem(cfg, sys.sender, a.cumulative, a.selective, q);
    case _ =>
  }

  lemma HeadIsEmitted(cfg: Config, sys: System)
    requires Inv(cfg, sys) && HeadPends(sys.sender)
    ensures S.HasDataToSend(cfg, sys.sender)
    ensures sys.sender.left in SI.Numbers(S.PreparedPackets(cfg, sys.sender, sys.clock))
  {
    assert S.At(sys.sender, sys.sender.left) == sys.sender.window[0];
    SI.PendingHeadIsDue(cfg, sys.sender);
    SI.FinishedMeansAllPassed(cfg, sys.sender);
    SI.PreparedNumbers(cfg, sys.sender, sys.clock, sys.sender.left);
  }

  lemma {:induction false} PendingHeadGoesOut(cfg: Config, t: Trace, from: nat, i: nat, sends: nat)
    requires Endless(cfg, t) && Stalled(t, from) && from <= i <= sends
    requires HeadPends(t.at(i).sender) && t.ev(sends).SendData?
    ensures exists j: nat :: i <= j && Happens(cfg, t, Emits(t.at(from).sender.left), j)
    decreases sends - i
  {
    InvAt(cfg, t, i);
    if t.ev(i).SendData? {
      HeadIsEmitted(cfg, t.at(i));
      assert Happens(cfg, t, Emits(t.at(from).sender.left), i);
    } else {
      assert StepAt(cfg, t, i);
      assert SameEdges(t.at(from), t.at(i)) && SameEdges(t.at(from), t.at(i + 1));
      StepKeepsHeadPending(cfg, t.at(i), t.ev(i));
      PendingHeadGoesOut(cfg, t, from, i + 1, sends);
    }
  }

  // ---- a head that is never sent again ----

  /** From `from` on the edges rest and the head stays in flight. */
  ghost predicate Held(cfg: Config, t: Trace, from: nat) {
    Endless(cfg, t) && Stalled(t, from) && forall j: nat :: from <= j ==> HeadFlies(t.at(j).sender)
  }

  function HeadTime(s: S.Sender): nat
    requires s.window != []
  {
    s.window[0].lastSentTime
  }

  lemma StepKeepsHeadTime(cfg: Config, sys: System, e: Event)
    requires Inv(cfg, sys) && Allowed(cfg, sys, e) && HeadFlies(sys.sender)
    requires Step(cfg, sys, e).sender.left == sys.sender.left && HeadFlies(Step(cfg, sys, e).sender)
    ensures HeadTime(Step(cfg, sys, e).sender) == HeadTime(sys.sender) <= sys.clock
  {
    var q := sys.sender.left;
    assert S.At(sys.sender, q) == sys.sender.window[0];
    InFlightTime(cfg, sys, q);
    match e
    case SendData => PrepareItem(sys.sender, sys.clock, q);
    case CheckTimeout => CheckItem(sys.sender, sys.clock, sys.readTimeout.value, q);
    case DeliverAck(a) =>
      AckWithinWindow(cfg, sys, a);
      SI.AckArrivedKeepsInv(cfg, sys.sender, a.cumulative, a.selective);
      SI.AckArrivedItem(cfg, sys.sender, a.cumulative, a.selective, q);
    case _ =>
  }

  lemma HeldNext(cfg: Config, t: Trace, from: nat, j: nat)
    requires Held(cfg, t, from) && from <= j
    ensures t.at(j).sender.left == t.at(j + 1).sender.left == t.at(from).sender.left
    ensures HeadFlies(t.at(j).sender) && HeadFlies(t.at(j + 1).sender)
    ensures HeadTime(t.at(j + 1).sender) == HeadTime(t.at(j).sender) <= t.at(j).clock
  {
    InvAt(cfg, t, j);
    assert StepAt(cfg, t, j);
    assert SameEdges(t.at(from), t.at(j)) && SameEdges(t.at(from), t.at(j + 1));
    StepKeepsHeadTime(cfg, t.at(j), t.ev(j));
  }

  /** A held head keeps the time at which it was last sent. */
  lemma {:induction false} HeldAt(cfg: Config, t: Trace, from: nat, j: nat)
    requires Held(cfg, t, from) && from <= j
    ensures HeadFlies(t.at(j).sender)
    ensures HeadTime(t.at(j).sender) == HeadTime(t.at(from).sender) <= t.at(j).clock
    decreases j - from
  {
    HeldNext(cfg, t, from, j);
    if from < j {
      HeldAt(cfg, t, from, j - 1);
      HeldNext(cfg, t, from, j - 1);
    }
  }

  lemma FreshHeadMissed(cfg: Config, sys: System)
    requires Inv(cfg, sys) && sys.readTimeout != None && HeadFlies(sys.sender) && HeadFlies(DoCheck(sys).sender)
    ensures sys.clock <= HeadTime(sys.sender) + sys.readTimeout.value
  {
    var q := sys.sender.left;
    CheckItem(sys.sender, sys.clock, sys.readTimeout.value, q);
    assert S.At(sys.sender, q) == sys.sender.window[0];
    assert S.At(DoCheck(sys).sender, q) == DoCheck(sys).sender.window[0];
  }

  /** No check ever finds the held head too old. */
  lemma ChecksMiss(cfg: Config, t: Trace, from: nat, j: nat)
    requires Held(cfg, t, from) && from <= j && t.ev(j).CheckTimeout?
    ensures t.at(j).readTimeout != None
    ensures t.at(j).clock <= HeadTime(t.at(from).sender) + t.at(j).readTimeout.value
  {
    InvAt(cfg, t, j);
    assert StepAt(cfg, t, j);
    HeldAt(cfg, t, from, j);
    FreshHeadMissed(cfg, t.at(j));
  }

  /** Packet `q` does not wait, and if it is in flight it was last sent no earlier than `since`. */
  predicate Recent(s: S.Sender, q: nat, since: nat) {
    && S.Holds(s, q) && !S.Pending(S.At(s, q))
    && (InFlight(S.At(s, q)) ==> since <= S.At(s, q).lastSentTime)
  }

  lemma CheckKeepsRecent(cfg: Config, sys: System, q: nat, since: nat)
    requires Inv(cfg, sys) && sys.readTimeout != None && Recent(sys.sender, q, since)
    requires sys.clock <= since + sys.readTimeout.value
    ensures Recent(DoCheck(sys).sender, q, since)
  {
    CheckItem(sys.sender, sys.clock, sys.readTimeout.value, q);
    if InFlight(S.At(sys.sender, q)) {
      InFlightTime(cfg, sys, q);
    }
  }

  lemma AckKeepsRecent(cfg: Config, sys: System, a: Ack, q: nat, since: nat)
    requires Inv(cfg, sys) && a in sys.acks && a.atype == RegularAck && Recent(sys.sender, q, since)
    requires DoAck(cfg, sys, a).sender.left == sys.sender.left
    requires q == sys.sender.left ==> HeadFlies(DoAck(cfg, sys, a).sender)
    ensures Recent(DoAck(cfg, sys, a).sender, q, since)
  {
    AckWithinWindow(cfg, sys, a);
    SI.AckArrivedKeepsInv(cfg, sys.sender, a.cumulative, a.selective);
    SI.AckArrivedItem(cfg, sys.sender, a.cumulative, a.selective, q);
    if q == sys.sender.left {
      assert S.At(DoAck(cfg, sys, a).sender, q) == DoAck(cfg, sys, a).sender.window[0];
    } else {
      SI.AckArrivedBehindHead(cfg, sys.sender, a.cumulative, a.selective, q);
    }
  }

  lemma StepKeepsRecent(cfg: Config, sys: System, e: Event, q: nat, since: nat)
    requires Inv(cfg, sys) && Allowed(cfg, sys, e) && Recent(sys.sender, q, since)
    requires Step(cfg, sys, e).sender.left == sys.sender.left && HeadFlies(Step(cfg, sys, e).sender)
    requires e.CheckTimeout? ==> sys.clock <= since + sys.readTimeout.value
    ensures Recent(Step(cfg, sys, e).sender, q, since)
  {
    match e
    case SendData => PrepareItem(sys.sender, sys.clock, q);
    case CheckTimeout => CheckKeepsRecent(cfg, sys, q, since);
    case DeliverAck(a) => AckKeepsRecent(cfg, sys, a, q, since);
    case _ =>
  }

  lemma RecentNext(cfg: Config, t: Trace, from: nat, q: nat, j: nat, since: nat)
    requires Held(cfg, t, from) && from <= j && since == HeadTime(t.at(from).sender)
    requires Recent(t.at(j).sender, q, since)
    ensures Recent(t.at(j + 1).sender, q, since)
  {
    InvAt(cfg, t, j);
    assert StepAt(cfg, t, j);
    HeldNext(cfg, t, from, j);
    if t.ev(j).CheckTimeout? {
      ChecksMiss(cfg, t, from, j);
    }
    StepKeepsRecent(cfg, t.at(j), t.ev(j), q, since);
  }

  lemma {:induction false} RecentStays(cfg: Config, t: Trace, from: nat, q: nat, i: nat, j: nat, since: nat)
    requires Held(cfg, t, from) && from <= i <= j && since == HeadTime(t.at(from).sender)
    requires Recent(t.at(i).sender, q, since)
    ensures Recent(t.at(j).sender, q, since)
    decreases j - i
  {
    if i < j {
      RecentStays(cfg, t, from, q, i, j - 1, since);
      RecentNext(cfg, t, from, q, j - 1, since);
    }
  }

  lemma EmittedIsRecent(cfg: Config, sys: System, q: nat, since: nat)
    requires Inv(cfg, sys) && since <= sys.clock
    requires q in SI.Numbers(S.PreparedPackets(cfg, sys.sender, sys.clock))
    ensures Recent(DoSend(cfg, sys).sender, q, since)
  {
    SI.PreparedNumbers(cfg, sys.sender, sys.clock, q);
    PrepareItem(sys.sender, sys.clock, q);
  }

  lemma EmissionIsRecent(cfg: Config, t: Trace, from: nat, q: nat, i: nat, since: nat)
    requires Held(cfg, t, from) && from <= i && since == HeadTime(t.at(from).sender)
    requires Happens(cfg, t, Emits(q), i)
    ensures Recent(t.at(i + 1).sender, q, since)
  {
    InvAt(cfg, t, i);
    assert StepAt(cfg, t, i);
    HeldAt(cfg, t, from, i);
    EmittedIsRecent(cfg, t.at(i), q, since);
  }

  lemma RecentIsQuiet(cfg: Config, t: Trace, q: nat, i: nat, since: nat)
    requires Endless(cfg, t) && Recent(t.at(i).sender, q, since)
    ensures !Happens(cfg, t, Emits(q), i)
  {
    InvAt(cfg, t, i);
    SI.PreparedNumbers(cfg, t.at(i).sender, t.at(i).clock, q);
  }

  /** So while the head is held, every packet is emitted at most once more. */
  lemma EmissionsCease(cfg: Config, t: Trace, from: nat, q: nat)
    requires Held(cfg, t, from)
    ensures Seldom(cfg, t, Emits(q))
  {
    var since := HeadTime(t.at(from).sender);
    if i: nat :| from <= i && Happens(cfg, t, Emits(q), i) {
      EmissionIsRecent(cfg, t, from, q, i, since);
      forall j: nat | i + 1 <= j ensures !Happens(cfg, t, Emits(q), j) {
        RecentStays(cfg, t, from, q, i + 1, j, since);
        RecentIsQuiet(cfg, t, q, j, since);
      }
      assert Ceases(cfg, t, Emits(q), i + 1);
    } else {
      assert Ceases(cfg, t, Emits(q), from);
    }
  }

  // ---- then everything falls silent ----

  lemma {:induction false} AllCease(cfg: Config, t: Trace, hs: set<Happening>, after: nat) returns (from: nat)
    requires forall h :: h in hs ==> Seldom(cfg, t, h)
    ensures after <= from && forall h :: h in hs ==> Ceases(cfg, t, h, from)
    decreases |hs|
  {
    if hs == {} {
      from := after;
    } else {
      var h :| h in hs;
      var rest := AllCease(cfg, t, hs - {h}, after);
      var own: nat :| Ceases(cfg, t, h, own);
      from := Max(own, rest);
      forall g | g in hs ensures Ceases(cfg, t, g, from) {
        assert g == h || g in hs - {h};
      }
    }
  }

  lemma RoundNumber(cfg: Config, sys: System) returns (q: nat)
    requires Inv(cfg, sys) && DoSend(cfg, sys).sentPackets != sys.sentPackets
    ensures q <= cfg.last && q in SI.Numbers(S.PreparedPackets(cfg, sys.sender, sys.clock))
  {
    var p := S.PreparedPackets(cfg, sys.sender, sys.clock)[0];
    SI.PreparedPacket(cfg, sys.sender, sys.clock, p);
    q := p.seqNum;
  }

  lemma NewPacketsAreEmitted(cfg: Config, t: Trace, j: nat) returns (q: nat)
    requires Endless(cfg, t) && t.at(j + 1).sentPackets != t.at(j).sentPackets
    ensures q <= cfg.last && Happens(cfg, t, Emits(q), j)
  {
    InvAt(cfg, t, j);
    assert StepAt(cfg, t, j);
    q := RoundNumber(cfg, t.at(j));
  }

  ghost predicate NoEmissions(cfg: Config, t: Trace, from: nat) {
    forall q: nat, j: nat :: q <= cfg.last && from <= j ==> !Happens(cfg, t, Emits(q), j)
  }

  lemma {:induction false} SentPacketsRest(cfg: Config, t: Trace, i: nat, j: nat)
    requires Endless(cfg, t) && NoEmissions(cfg, t, i) && i <= j
    ensures t.at(j).sentPackets == t.at(i).sentPackets
    decreases j - i
  {
    if i < j {
      SentPacketsRest(cfg, t, i, j - 1);
      if t.at(j).sentPackets != t.at(j - 1).sentPackets {
        var q := NewPacketsAreEmitted(cfg, t, j - 1);
      }
    }
  }

  ghost predicate NoDeliveries(t: Trace, from: nat) {
    forall j: nat :: from <= j ==> !t.ev(j).Deliver?
  }

  ghost predicate NoSamples(t: Trace, from: nat) {
    forall j: nat :: from <= j ==> !t.ev(j).SampleRtt?
  }

  lemma OnlyWhatWasSent(cfg: Config, t: Trace, j: nat)
    requires Endless(cfg, t)
    ensures t.ev(j).Deliver? ==> t.ev(j).packet in t.at(j).sentPackets
    ensures t.ev(j).SampleRtt? ==> t.ev(j).ack in t.at(j).sentAcks
  {
    InvAt(cfg, t, j);
    assert StepAt(cfg, t, j);
  }

  /** Without new packets, deliveries come to an end. */
  lemma DeliveriesStop(cfg: Config, t: Trace, i: nat) returns (from: nat)
    requires Endless(cfg, t) && NoEmissions(cfg, t, i)
    requires forall p: Packet :: Seldom(cfg, t, Delivers(p))
    ensures i <= from && NoDeliveries(t, from)
  {
    var sent := t.at(i).sentPackets;
    var hs := set p | p in sent :: Delivers(p);
    from := AllCease(cfg, t, hs, i);
    forall j: nat | from <= j ensures !t.ev(j).Deliver? {
      SentPacketsRest(cfg, t, i, j);
      OnlyWhatWasSent(cfg, t, j);
      if t.ev(j).Deliver? {
        assert Delivers(t.ev(j).packet) in hs;
        assert Happens(cfg, t, Delivers(t.ev(j).packet), j);
      }
    }
  }

  lemma {:induction false} SentAcksRest(cfg: Config, t: Trace, i: nat, j: nat)
    requires Endless(cfg, t) && NoDeliveries(t, i) && i <= j
    ensures t.at(j).sentAcks == t.at(i).sentAcks
    decreases j - i
  {
    if i < j {
      SentAcksRest(cfg, t, i, j - 1);
      assert StepAt(cfg, t, j - 1);
    }
  }

  /** Without deliveries, samples come to an end. */
  lemma SamplesStop(cfg: Config, t: Trace, i: nat) returns (from: nat)
    requires Endless(cfg, t) && NoDeliveries(t, i)
    requires forall a: Ack :: Seldom(cfg, t, Samples(a))
    ensures i <= from && NoSamples(t, from)
  {
    var sent := t.at(i).sentAcks;
    var hs := set a | a in sent :: Samples(a);
    from := AllCease(cfg, t, hs, i);
    forall j: nat | from <= j ensures !t.ev(j).SampleRtt? {
      SentAcksRest(cfg, t, i, j);
      OnlyWhatWasSent(cfg, t, j);
      if t.ev(j).SampleRtt? {
        assert Samples(t.ev(j).ack) in hs;
        assert Happens(cfg, t, Samples(t.ev(j).ack), j);
      }
    }
  }

  /** No threshold read, or still to be read without a further sample, exceeds `us`. */
  predicate ThresholdsUpTo(sys: System, us: nat) {
    && Rtt.CurrentTimeout(sys.rtt) <= us
    && (sys.readTimeout != None ==> sys.readTimeout.value <= us)
  }

  lemma {:induction false} ThresholdsRest(cfg: Config, t: Trace, i: nat, j: nat, us: nat)
    requires Endless(cfg, t) && NoSamples(t, i) && i <= j && ThresholdsUpTo(t.at(i), us)
    ensures ThresholdsUpTo(t.at(j), us)
    decreases j - i
  {
    if i < j {
      ThresholdsRest(cfg, t, i, j - 1, us);
      assert StepAt(cfg, t, j - 1);
    }
  }

  /** Once the thresholds rest, some check finds the held head too old after all. */
  lemma ChecksHit(cfg: Config, t: Trace, from: nat, i: nat)
    requires Held(cfg, t, from) && NoSamples(t, i) && from <= i
    requires forall us: nat :: Recurs(cfg, t, TimePasses(us))
    requires Recurs(cfg, t, Checks)
    ensures !Unfinished(t)
  {
    if Unfinished(t) {
      var us := Max(Rtt.CurrentTimeout(t.at(i).rtt), if t.at(i).readTimeout == None then 0 else t.at(i).readTimeout.value);
      var late := HeadTime(t.at(from).sender) + us + 1;
      assert Recurs(cfg, t, TimePasses(late)) && Later(cfg, t, TimePasses(late), i);
      var j: nat :| i <= j && Happens(cfg, t, TimePasses(late), j);
      assert Later(cfg, t, Checks, j);
      var k: nat :| j <= k && Happens(cfg, t, Checks, k);
      ThresholdsRest(cfg, t, i, k, us);
      EdgesAt(cfg, t, j, k);
      ChecksMiss(cfg, t, from, k);
    }
  }

  /** A fair run does not hold the head for ever. */
  lemma HeadIsReleased(cfg: Config, t: Trace, from: nat)
    requires Held(cfg, t, from) && Fair(cfg, t)
    ensures !Unfinished(t)
  {
    var hs := set q: nat | q <= cfg.last :: Emits(q);
    forall h | h in hs ensures Seldom(cfg, t, h) {
      EmissionsCease(cfg, t, from, h.q);
    }
    var silent := AllCease(cfg, t, hs, from);
    forall q: nat, j: nat | q <= cfg.last && silent <= j ensures !Happens(cfg, t, Emits(q), j) {
      assert Emits(q) in hs;
    }
    var unanswered := DeliveriesStop(cfg, t, silent);
    var unsampled := SamplesStop(cfg, t, unanswered);
    ChecksHit(cfg, t, from, unsampled);
  }

  // ---- so the head is sent again and again, arrives, and moves an edge ----

  /** At or after `i` the head of the resting window is put on the wire. */
  lemma HeadGoesOut(cfg: Config, t: Trace, from: nat, i: nat)
    requires Endless(cfg, t) && Fair(cfg, t) && Unfinished(t) && Stalled(t, from) && from <= i
    ensures Later(cfg, t, Emits(t.at(from).sender.left), i)
  {
    if j: nat :| i <= j && HeadPends(t.at(j).sender) {
      InvAt(cfg, t, j);
      HeadIsEmitted(cfg, t.at(j));
      assert Later(cfg, t, Sends, j);
      var k: nat :| j <= k && Happens(cfg, t, Sends, k);
      PendingHeadGoesOut(cfg, t, from, j, k);
    } else {
      forall j: nat | i <= j ensures HeadFlies(t.at(j).sender) {
        InvAt(cfg, t, j);
        HeadPendsOrFlies(cfg, t.at(j));
      }
      forall j: nat | i <= j ensures SameEdges(t.at(i), t.at(j)) {
        assert SameEdges(t.at(from), t.at(i)) && SameEdges(t.at(from), t.at(j));
      }
      HeadIsReleased(cfg, t, i);
    }
  }

  lemma LaterStill(cfg: Config, t: Trace, h: Happening, i: nat, j: nat)
    requires i <= j && Later(cfg, t, h, j)
    ensures Later(cfg, t, h, i)
  {
  }

  /** If the head arrives and nothing moves, it was an old packet, and the reply asks for more
      than the sender's left bound. */
  lemma ArrivalIsAnswered(cfg: Config, t: Trace, from: nat, j: nat)
    requires Endless(cfg, t) && Unfinished(t) && Stalled(t, from) && from <= j
    requires Happens(cfg, t, Arrives(t.at(from).sender.left), j)
    ensures Happens(cfg, t, Replies(t.at(from).receiver.next), j)
    ensures t.at(from).sender.left < t.at(from).receiver.next
  {
    var sys, e := t.at(j), t.ev(j);
    InvAt(cfg, t, j);
    assert StepAt(cfg, t, j);
    assert SameEdges(t.at(from), sys) && SameEdges(t.at(from), t.at(j + 1));
    Coupling(cfg, sys);
    SI.FinishedMeansAllPassed(cfg, sys.sender);
    RI.FinishedMeansAllReceived(cfg, sys.receiver);
    ReplyAdvances(cfg, sys, e.packet, e.thread);
  }

  lemma AckMovesOn(cfg: Config, t: Trace, next: nat, j: nat)
    requires Endless(cfg, t) && Happens(cfg, t, Acknowledges(next), j)
    ensures next <= t.at(j + 1).sender.left
  {
    var sys, a := t.at(j), t.ev(j).ack;
    InvAt(cfg, t, j);
    assert StepAt(cfg, t, j);
    AckWithinWindow(cfg, sys, a);
    SI.AckArrivedKeepsInv(cfg, sys.sender, a.cumulative, a.selective);
  }

  lemma SomeAckMovesOn(cfg: Config, t: Trace, from: nat, next: nat)
    requires Endless(cfg, t) && Unfinished(t)
    requires Later(cfg, t, Acknowledges(next), from) && t.at(from).sender.left < next
    ensures !Stalled(t, from)
  {
    var k: nat :| from <= k && Happens(cfg, t, Acknowledges(next), k);
    AckMovesOn(cfg, t, next, k);
    assert !SameEdges(t.at(from), t.at(k + 1));
  }

  /** In a fair run edges that rest belong to a receiver that finishes. */
  lemma RestingEdgesMove(cfg: Config, t: Trace, from: nat)
    requires Endless(cfg, t) && Fair(cfg, t) && Stalled(t, from)
    ensures !Unfinished(t)
  {
    if Unfinished(t) {
      var left, next := t.at(from).sender.left, t.at(from).receiver.next;
      forall i: nat ensures Later(cfg, t, Emits(left), i) {
        HeadGoesOut(cfg, t, from, Max(i, from));
        LaterStill(cfg, t, Emits(left), i, Max(i, from));
      }
      assert Recurs(cfg, t, Emits(left));
      assert Recurs(cfg, t, Arrives(left));
      forall i: nat ensures Later(cfg, t, Replies(next), i) && left < next {
        assert Later(cfg, t, Arrives(left), Max(i, from));
        var j: nat :| Max(i, from) <= j && Happens(cfg, t, Arrives(left), j);
        ArrivalIsAnswered(cfg, t, from, j);
      }
      assert Recurs(cfg, t, Replies(next));
      assert Recurs(cfg, t, Acknowledges(next)) && Later(cfg, t, Acknowledges(next), from) && Later(cfg, t, Replies(next), from);
      SomeAckMovesOn(cfg, t, from, next);
    }
  }

  /** Liveness: whatever is lost, duplicated and reordered on the way, in every endless fair
      run the receiver finishes. */
  lemma ReceiverFinishes(cfg: Config, t: Trace)
    requires Endless(cfg, t) && Fair(cfg, t)
    ensures exists i: nat :: ReceiverFinished(t.at(i))
  {
    var from := EdgesRest(cfg, t, 0);
    RestingEdgesMove(cfg, t, from);
  }

  // ---- fair runs exist ----

  /** The state after `i` events of a run, or after all of them. */
  function StateAt(cfg: Config, sys: System, run: seq<Event>, i: nat): System
    requires Legal(cfg, sys, run)
    decreases |run|
  {
    if i == 0 || run == [] then sys else StateAt(cfg, Step(cfg, sys, run[0]), run[1..], i - 1)
  }

  lemma {:induction false} StateAtSteps(cfg: Config, sys: System, run: seq<Event>, i: nat)
    requires Legal(cfg, sys, run)
    ensures i < |run| ==> Allowed(cfg, StateAt(cfg, sys, run, i), run[i])
    ensures i < |run| ==> StateAt(cfg, sys, run, i + 1) == Step(cfg, StateAt(cfg, sys, run, i), run[i])
    ensures i >= |run| ==> StateAt(cfg, sys, run, i) == After(cfg, sys, run)
    decreases |run|
  {
    if run == [] {
    } else if i == 0 {
      assert StateAt(cfg, sys, run, 1) == StateAt(cfg, Step(cfg, sys, run[0]), run[1..], 0);
    } else {
      StateAtSteps(cfg, Step(cfg, sys, run[0]), run[1..], i - 1);
    }
  }

  /** A run, continued by nothing but the passing of no time. */
  function Continued(cfg: Config, sys: System, run: seq<Event>): Trace
    requires Legal(cfg, sys, run)
  {
    Trace((i: nat) => StateAt(cfg, sys, run, i), (i: nat) => if i < |run| then run[i] else Tick(0))
  }

  lemma ContinuedSteps(cfg: Config, sys: System, run: seq<Event>, i: nat)
    requires Legal(cfg, sys, run) && !After(cfg, sys, run).faulted
    ensures StepAt(cfg, Continued(cfg, sys, run), i)
  {
    StateAtSteps(cfg, sys, run, i);
    StateAtSteps(cfg, sys, run, i + 1);
  }

  lemma ContinuedIsEndless(cfg: Config, sys: System, run: seq<Event>)
    requires Reachable(cfg, sys) && Legal(cfg, sys, run) && !After(cfg, sys, run).faulted
    ensures Endless(cfg, Continued(cfg, sys, run))
  {
    forall i: nat ensures StepAt(cfg, Continued(cfg, sys, run), i) {
      ContinuedSteps(cfg, sys, run, i);
    }
  }

  lemma LaterOnceFinished(cfg: Config, t: Trace, h: Happening, i: nat, j: nat)
    requires ReceiverFinished(t.at(Max(i, j)))
    ensures Later(cfg, t, h, i)
  {
  }

  /** Any run that finishes the receiver is the beginning of a fair one. */
  lemma ContinuedIsFair(cfg: Config, sys: System, run: seq<Event>)
    requires Legal(cfg, sys, run) && ReceiverFinished(After(cfg, sys, run))
    ensures Fair(cfg, Continued(cfg, sys, run))
  {
    var t := Continued(cfg, sys, run);
    forall h, i: nat ensures Later(cfg, t, h, i) {
      StateAtSteps(cfg, sys, run, Max(i, |run|));
      LaterOnceFinished(cfg, t, h, i, |run|);
    }
    forall h: Happening | h.Delivers? || h.Samples? ensures Seldom(cfg, t, h) {
      assert Ceases(cfg, t, h, |run|);
    }
  }
}
