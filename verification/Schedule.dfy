/** Schedules that move a transfer on: rounds of timeout check, sending, delivery and ack in
    which every thread keeps its time limits. */
module Schedule {
  import opened Transfer
  import opened Packets
  import opened Protocol
  import opened ProtocolInvariant
  import R = ReceiverModel
  import RI = ReceiverInvariant
  import Rtt = RttModel
  import S = SenderModel
  import SI = SenderInvariant

  /** A waiting `recvfrom` takes a packet no later than its timeout. */
  predicate OnTime(sys: System, e: Event) {
    match e
    case Deliver(_, i) => i < |sys.listening| && sys.clock <= sys.listening[i]
    case _ => true
  }

  /** A legal run in which every `recvfrom` keeps its timeout. */
  predicate Punctual(cfg: Config, sys: System, run: seq<Event>)
    decreases |run|
  {
    run == [] || (Allowed(cfg, sys, run[0]) && OnTime(sys, run[0]) && Punctual(cfg, Step(cfg, sys, run[0]), run[1..]))
  }

  /** A punctual run in which no event comes after the sender has finished, so that none of the
      sender's threads has to outlive `done`. */
  predicate Prompt(cfg: Config, sys: System, run: seq<Event>)
    decreases |run|
  {
    run == [] ||
    (!SenderFinished(cfg, sys) && Allowed(cfg, sys, run[0]) && OnTime(sys, run[0]) && Prompt(cfg, Step(cfg, sys, run[0]), run[1..]))
  }

  lemma {:induction false} PromptIsPunctual(cfg: Config, sys: System, run: seq<Event>)
    requires Prompt(cfg, sys, run)
    ensures Punctual(cfg, sys, run)
    decreases |run|
  {
    if run != [] {
      PromptIsPunctual(cfg, Step(cfg, sys, run[0]), run[1..]);
    }
  }

  // ---- composing runs ----

  /** Prefixing one event to a run. */
  lemma Prefixed(cfg: Config, sys: System, e: Event, run: seq<Event>)
    requires !SenderFinished(cfg, sys) && Allowed(cfg, sys, e) && OnTime(sys, e)
    requires Prompt(cfg, Step(cfg, sys, e), run) && Legal(cfg, Step(cfg, sys, e), run)
    ensures Prompt(cfg, sys, [e] + run) && Legal(cfg, sys, [e] + run)
    ensures After(cfg, sys, [e] + run) == After(cfg, Step(cfg, sys, e), run)
  {
    assert ([e] + run)[1..] == run;
  }

  lemma {:induction false} Appended(cfg: Config, sys: System, first: seq<Event>, second: seq<Event>)
    requires Prompt(cfg, sys, first) && Legal(cfg, sys, first)
    requires Prompt(cfg, After(cfg, sys, first), second) && Legal(cfg, After(cfg, sys, first), second)
    ensures Prompt(cfg, sys, first + second) && Legal(cfg, sys, first + second)
    ensures After(cfg, sys, first + second) == After(cfg, After(cfg, sys, first), second)
    decreases |first|
  {
    if first == [] {
      assert first + second == second;
    } else {
      Appended(cfg, Step(cfg, sys, first[0]), first[1..], second);
      Prefixed(cfg, sys, first[0], first[1..] + second);
      assert first + second == [first[0]] + (first[1..] + second);
    }
  }

  // ---- a round ----

  /** What a round brings about: the left bound moves on, and a receiver that has finished has
      taken the sender with it. */
  ghost predicate RoundTo(cfg: Config, sys: System, run: seq<Event>, after: System) {
    && Prompt(cfg, sys, run) && Legal(cfg, sys, run) && after == After(cfg, sys, run)
    && after.sender.left > sys.sender.left
    && (ReceiverFinished(after) ==> SenderFinished(cfg, after))
  }

  ghost predicate HasRound(cfg: Config, sys: System, length: nat) {
    exists run, after :: RoundTo(cfg, sys, run, after) && |run| <= length
  }

  /** One more event before a round. */
  lemma RoundPrefixed(cfg: Config, sys: System, e: Event, length: nat)
    requires !SenderFinished(cfg, sys) && Allowed(cfg, sys, e) && OnTime(sys, e)
    requires HasRound(cfg, Step(cfg, sys, e), length) && Step(cfg, sys, e).sender.left == sys.sender.left
    ensures HasRound(cfg, sys, length + 1)
  {
    var run, after :| RoundTo(cfg, Step(cfg, sys, e), run, after) && |run| <= length;
    Prefixed(cfg, sys, e, run);
    assert RoundTo(cfg, sys, [e] + run, after);
  }

  // ---- its last steps: delivery, sample and ack ----

  lemma AckAdvances(cfg: Config, sys: System, a: Ack)
    requires Inv(cfg, sys) && a in sys.acks && a.atype == RegularAck && a.cumulative == sys.receiver.next
    requires a.cumulative > sys.sender.left
    ensures var after := DoAck(cfg, sys, a);
            && after.sender.left == sys.receiver.next
            && after.receiver == sys.receiver
            && (ReceiverFinished(after) ==> SenderFinished(cfg, after))
  {
    AckWithinWindow(cfg, sys, a);
    SI.AckArrivedKeepsInv(cfg, sys.sender, a.cumulative, a.selective);
    SI.FinishedMeansAllPassed(cfg, DoAck(cfg, sys, a).sender);
    RI.FinishedMeansAllReceived(cfg, sys.receiver);
  }

  lemma AckStage(cfg: Config, sys: System, a: Ack)
    requires Inv(cfg, sys) && a in sys.acks && a.atype == RegularAck && a.cumulative == sys.receiver.next
    requires a.cumulative > sys.sender.left && !SenderFinished(cfg, sys)
    ensures HasRound(cfg, sys, 1)
  {
    AckAdvances(cfg, sys, a);
    var after := DoAck(cfg, sys, a);
    assert Step(cfg, sys, DeliverAck(a)) == after;
    assert Prompt(cfg, after, []) && Legal(cfg, after, []);
    Prefixed(cfg, sys, DeliverAck(a), []);
    assert RoundTo(cfg, sys, [DeliverAck(a)] + [], after);
  }

  lemma ReplyStage(cfg: Config, sys: System, a: Ack)
    requires Inv(cfg, sys) && a in sys.acks && a.atype == RegularAck && a.cumulative == sys.receiver.next
    requires a.cumulative > sys.sender.left && !SenderFinished(cfg, sys)
    ensures HasRound(cfg, sys, 2)
  {
    SampleKeepsInv(cfg, sys, a);
    AckStage(cfg, DoSample(sys, a), a);
    RoundPrefixed(cfg, sys, SampleRtt(a), 1);
  }

  /** The reply to the head of the window moves the sender: the head is either below what the
      receiver expects, or exactly that, and then the receiver slides. A finished receiver's
      reply to any packet does. */
  lemma ReplyAdvances(cfg: Config, sys: System, p: Packet, i: nat)
    requires Inv(cfg, sys) && i < |sys.listening| && !SenderFinished(cfg, sys)
    requires p in sys.net && p.ptype != Handshake
    requires p.seqNum == sys.sender.left || ReceiverFinished(sys)
    ensures var after := DoDeliver(sys, p, i); var a := Handle(sys.receiver, p).1;
            && Inv(cfg, after) && a in after.acks && a.atype == RegularAck
            && a.cumulative == after.receiver.next > after.sender.left == sys.sender.left
  {
    DeliverKeepsInv(cfg, sys, p, i);
    Coupling(cfg, sys);
    SI.FinishedMeansAllPassed(cfg, sys.sender);
    RI.FinishedMeansAllReceived(cfg, sys.receiver);
    RI.ReplyIsSound(cfg, sys.receiver, p);
    RI.ReceiveKeepsInv(cfg, sys.receiver, p);
    if p.seqNum == sys.receiver.next {
      RI.ReceiveAddsToSet(sys.receiver, p);
      RI.NextIsLeastMissing(cfg, R.Receive(sys.receiver, p));
    }
  }

  lemma DeliverStage(cfg: Config, sys: System, p: Packet, i: nat)
    requires Inv(cfg, sys) && !SenderFinished(cfg, sys)
    requires i < |sys.listening| && sys.clock <= sys.listening[i]
    requires p in sys.net && p.ptype != Handshake
    requires p.seqNum == sys.sender.left || ReceiverFinished(sys)
    ensures HasRound(cfg, sys, 3)
  {
    ReplyAdvances(cfg, sys, p, i);
    var delivered := DoDeliver(sys, p, i);
    ReplyStage(cfg, delivered, Handle(sys.receiver, p).1);
    assert Step(cfg, sys, Deliver(p, i)) == delivered;
    RoundPrefixed(cfg, sys, Deliver(p, i), 2);
  }

  // ---- its first steps: check and send ----

  /** How many items are within reach after a check that marks something. */
  function CheckReach(s: S.Sender): nat {
    if s.punished then S.InReach(s) else Min(S.CWND_MIN, |s.window|)
  }

  /** Is item `q` within reach and waiting, or in flight for longer than `us`? */
  predicate Ripe(s: S.Sender, q: nat, now: nat, us: nat) {
    && S.Holds(s, q) && q < s.left + CheckReach(s)
    && (S.Pending(S.At(s, q)) || (InFlight(S.At(s, q)) && now > S.At(s, q).lastSentTime + us))
  }

  lemma RipeAfterCheck(s: S.Sender, q: nat, now: nat, us: nat)
    requires Ripe(s, q, now, us) && s.cwnd >= S.CWND_MIN
    requires S.At(s, q).lastSentTime <= now || S.Pending(S.At(s, q))
    ensures SI.Due(S.CheckTimeout(s, now, us), q)
  {
    CheckItem(s, now, us, q);
  }

  lemma DueIsAnnounced(cfg: Config, s: S.Sender, q: nat)
    requires SI.Inv(cfg, s) && SI.Due(s, q)
    ensures s.newDataReady
  {
    assert S.Pending(s.window[q - s.left]);
  }

  lemma RipeIsDue(cfg: Config, sys: System, q: nat)
    requires Inv(cfg, sys) && sys.readTimeout != None
    requires Ripe(sys.sender, q, sys.clock, sys.readTimeout.value)
    ensures var after := DoCheck(sys);
            && Inv(cfg, after) && SI.Due(after.sender, q) && after.sender.newDataReady
            && after.sender.left == sys.sender.left && (SenderFinished(cfg, after) <==> SenderFinished(cfg, sys))
  {
    CheckKeepsInv(cfg, sys);
    RipeAfterCheck(sys.sender, q, sys.clock, sys.readTimeout.value);
    DueIsAnnounced(cfg, DoCheck(sys).sender, q);
  }

  lemma DueIsSent(cfg: Config, sys: System, q: nat)
    requires Inv(cfg, sys) && SI.Due(sys.sender, q)
    ensures var after := DoSend(cfg, sys); var p := S.ToPacket(cfg, S.At(sys.sender, q), sys.clock);
            && Inv(cfg, after)
            && p in after.net && p.ptype != Handshake && p.seqNum == q
            && after.sender.left == sys.sender.left
            && (SenderFinished(cfg, after) <==> SenderFinished(cfg, sys))
  {
    SI.DueIsPrepared(cfg, sys.sender, sys.clock, q);
    SendKeepsInv(cfg, sys);
    SI.ShapeItem(cfg, sys.sender, q);
  }

  // ---- rounds while the receiver is unfinished ----

  lemma LoopStage(cfg: Config, sys: System, p: Packet)
    requires Inv(cfg, sys) && !SenderFinished(cfg, sys) && !ReceiverFinished(sys) && sys.testing > 0
    requires p in sys.net && p.ptype != Handshake && p.seqNum == sys.sender.left
    ensures HasRound(cfg, sys, 4)
  {
    var listens := DoLoopTest(sys);
    LoopTestKeepsInv(cfg, sys);
    DeliverStage(cfg, listens, p, |sys.listening|);
    assert Step(cfg, sys, LoopTest) == listens;
    RoundPrefixed(cfg, sys, LoopTest, 3);
  }

  /** Some thread of an unfinished receiver takes the packet in time, if need be by calling
      `recvfrom` anew. */
  lemma ListenStage(cfg: Config, sys: System, p: Packet)
    requires Inv(cfg, sys) && !SenderFinished(cfg, sys) && !ReceiverFinished(sys)
    requires p in sys.net && p.ptype != Handshake && p.seqNum == sys.sender.left
    ensures HasRound(cfg, sys, 5)
  {
    if sys.testing > 0 {
      LoopStage(cfg, sys, p);
    } else if sys.clock <= sys.listening[0] {
      DeliverStage(cfg, sys, p, 0);
    } else {
      var failed := DoRecvTimeout(sys, 0);
      RecvTimeoutKeepsInv(cfg, sys, 0);
      LoopStage(cfg, failed, p);
      assert Step(cfg, sys, RecvTimeout(0)) == failed;
      RoundPrefixed(cfg, sys, RecvTimeout(0), 4);
    }
  }

  lemma SendStage(cfg: Config, sys: System)
    requires Inv(cfg, sys) && !SenderFinished(cfg, sys) && !ReceiverFinished(sys)
    requires SI.Due(sys.sender, sys.sender.left) && sys.sender.newDataReady
    ensures HasRound(cfg, sys, 6)
  {
    DueIsSent(cfg, sys, sys.sender.left);
    ListenStage(cfg, DoSend(cfg, sys), S.ToPacket(cfg, S.At(sys.sender, sys.sender.left), sys.clock));
    RoundPrefixed(cfg, sys, SendData, 5);
  }

  lemma CheckStage(cfg: Config, sys: System)
    requires Inv(cfg, sys) && !SenderFinished(cfg, sys) && !ReceiverFinished(sys)
    requires sys.readTimeout != None && Ripe(sys.sender, sys.sender.left, sys.clock, sys.readTimeout.value)
    ensures HasRound(cfg, sys, 7)
  {
    RipeIsDue(cfg, sys, sys.sender.left);
    SendStage(cfg, DoCheck(sys));
    assert Step(cfg, sys, CheckTimeout) == DoCheck(sys);
    RoundPrefixed(cfg, sys, CheckTimeout, 6);
  }

  /** The head of an unfinished sender's window ripens with time. */
  lemma HeadRipens(cfg: Config, sys: System, now: nat, us: nat)
    requires Inv(cfg, sys) && !SenderFinished(cfg, sys) && now > sys.clock + us
    ensures Ripe(sys.sender, sys.sender.left, now, us)
  {
    SI.FinishedMeansAllPassed(cfg, sys.sender);
    HeadNotAcked(cfg, sys);
    var q := sys.sender.left;
    assert S.At(sys.sender, q) == sys.sender.window[0];
    if InFlight(S.At(sys.sender, q)) {
      InFlightTime(cfg, sys, q);
    }
  }

  /** The timeout thread sleeps out, and long enough for the head to ripen. */
  lemma WaitStage(cfg: Config, sys: System)
    requires Inv(cfg, sys) && !SenderFinished(cfg, sys) && !ReceiverFinished(sys) && sys.readTimeout == None
    ensures HasRound(cfg, sys, 9)
  {
    var us := sys.wakeAt + Rtt.CurrentTimeout(sys.rtt) + 1;
    var waited := sys.(clock := sys.clock + us);
    HeadRipens(cfg, sys, waited.clock, Rtt.CurrentTimeout(sys.rtt));
    TickKeepsInv(cfg, sys, us);
    ReadKeepsInv(cfg, waited);
    CheckStage(cfg, DoRead(waited));
    assert Step(cfg, waited, ReadTimeout) == DoRead(waited);
    RoundPrefixed(cfg, waited, ReadTimeout, 7);
    assert Step(cfg, sys, Tick(us)) == waited;
    RoundPrefixed(cfg, sys, Tick(us), 8);
  }

  /** The most events one round takes. */
  const ROUND: nat := 10

  /** From any state with an unfinished receiver, one round, using freshly emitted messages
      only, moves the left bound on. */
  lemma RoundExists(cfg: Config, sys: System)
    requires Inv(cfg, sys) && !SenderFinished(cfg, sys) && !ReceiverFinished(sys)
    ensures HasRound(cfg, sys, ROUND)
  {
    if sys.readTimeout == None {
      WaitStage(cfg, sys);
    } else {
      var idle := DoCheck(sys);
      CheckKeepsInv(cfg, sys);
      WaitStage(cfg, idle);
      assert Step(cfg, sys, CheckTimeout) == idle;
      RoundPrefixed(cfg, sys, CheckTimeout, 9);
    }
  }

  // ---- the last round, after the receiver has finished ----

  /** The earliest time at which a check finds an item expired that was last sent at `sentAt`,
      if the timeout thread reads its threshold anew after waking at `wake`. */
  function AfterWaking(sys: System, wake: nat, sentAt: nat): nat {
    Max(Max(sys.clock, wake), sentAt + Rtt.CurrentTimeout(sys.rtt) + 1)
  }

  /** The same for the timeout thread as it stands: a threshold read already may be used for
      it, or used up at once, and half of it slept, before the next one is read. */
  function EarliestExpiry(sys: System, sentAt: nat): nat {
    if sys.readTimeout == None then AfterWaking(sys, sys.wakeAt, sentAt)
    else
      var us := sys.readTimeout.value;
      Min(Max(sys.clock, sentAt + us + 1), AfterWaking(sys, sys.clock + us / 2, sentAt))
  }

  /** Can the sender put some packet on the wire by time `d`, if no ack comes in? */
  predicate CanEmitBy(sys: System, d: nat) {
    && sys.clock <= d
    && (S.HasPending(sys.sender.window, sys.sender.cwnd)
        || exists i :: 0 <= i < CheckReach(sys.sender) && ExpiresBy(sys, i, d))
  }

  predicate ExpiresBy(sys: System, i: nat, d: nat) {
    var s := sys.sender;
    i < |s.window| && InFlight(s.window[i]) && EarliestExpiry(sys, s.window[i].lastSentTime) <= d
  }

  lemma LastSend(cfg: Config, sys: System, q: nat, i: nat)
    requires Inv(cfg, sys) && !SenderFinished(cfg, sys) && ReceiverFinished(sys)
    requires i < |sys.listening| && sys.clock <= sys.listening[i]
    requires SI.Due(sys.sender, q) && sys.sender.newDataReady
    ensures HasRound(cfg, sys, 4)
  {
    DueIsSent(cfg, sys, q);
    DeliverStage(cfg, DoSend(cfg, sys), S.ToPacket(cfg, S.At(sys.sender, q), sys.clock), i);
    RoundPrefixed(cfg, sys, SendData, 3);
  }

  lemma LastCheck(cfg: Config, sys: System, q: nat, i: nat)
    requires Inv(cfg, sys) && !SenderFinished(cfg, sys) && ReceiverFinished(sys)
    requires i < |sys.listening| && sys.clock <= sys.listening[i]
    requires sys.readTimeout != None && Ripe(sys.sender, q, sys.clock, sys.readTimeout.value)
    ensures HasRound(cfg, sys, 5)
  {
    RipeIsDue(cfg, sys, q);
    LastSend(cfg, DoCheck(sys), q, i);
    assert Step(cfg, sys, CheckTimeout) == DoCheck(sys);
    RoundPrefixed(cfg, sys, CheckTimeout, 4);
  }

  /** Waiting until `now` with a threshold read already. */
  lemma LastTick(cfg: Config, sys: System, q: nat, i: nat, now: nat)
    requires Inv(cfg, sys) && !SenderFinished(cfg, sys) && ReceiverFinished(sys)
    requires i < |sys.listening| && sys.clock <= now <= sys.listening[i]
    requires sys.readTimeout != None && Ripe(sys.sender, q, now, sys.readTimeout.value)
    ensures HasRound(cfg, sys, 6)
  {
    var us := now - sys.clock;
    TickKeepsInv(cfg, sys, us);
    LastCheck(cfg, sys.(clock := sys.clock + us), q, i);
    assert Step(cfg, sys, Tick(us)) == sys.(clock := sys.clock + us);
    RoundPrefixed(cfg, sys, Tick(us), 5);
  }

  /** Waiting until `now` to read the threshold and use it. */
  lemma LastWait(cfg: Config, sys: System, q: nat, i: nat, now: nat)
    requires Inv(cfg, sys) && !SenderFinished(cfg, sys) && ReceiverFinished(sys)
    requires i < |sys.listening| && sys.clock <= now <= sys.listening[i]
    requires sys.readTimeout == None && sys.wakeAt <= now && Ripe(sys.sender, q, now, Rtt.CurrentTimeout(sys.rtt))
    ensures HasRound(cfg, sys, 7)
  {
    var us := now - sys.clock;
    var waited := sys.(clock := sys.clock + us);
    TickKeepsInv(cfg, sys, us);
    ReadKeepsInv(cfg, waited);
    LastCheck(cfg, DoRead(waited), q, i);
    assert Step(cfg, waited, ReadTimeout) == DoRead(waited);
    RoundPrefixed(cfg, waited, ReadTimeout, 5);
    assert Step(cfg, sys, Tick(us)) == waited;
    RoundPrefixed(cfg, sys, Tick(us), 6);
  }

  /** Using up a threshold read already, then waiting for the next. */
  lemma LastDetour(cfg: Config, sys: System, q: nat, i: nat, now: nat)
    requires Inv(cfg, sys) && !SenderFinished(cfg, sys) && ReceiverFinished(sys)
    requires i < |sys.listening| && sys.clock <= now <= sys.listening[i]
    requires sys.readTimeout != None && sys.clock + sys.readTimeout.value / 2 <= now
    requires Ripe(sys.sender, q, now, Rtt.CurrentTimeout(sys.rtt))
    ensures HasRound(cfg, sys, 8)
  {
    var checked := DoCheck(sys);
    CheckKeepsInv(cfg, sys);
    CheckItem(sys.sender, sys.clock, sys.readTimeout.value, q);
    LastWait(cfg, checked, q, i, now);
    assert Step(cfg, sys, CheckTimeout) == checked;
    RoundPrefixed(cfg, sys, CheckTimeout, 7);
  }

  lemma LastExpiry(cfg: Config, sys: System, q: nat, i: nat)
    requires Inv(cfg, sys) && !SenderFinished(cfg, sys) && ReceiverFinished(sys)
    requires i < |sys.listening| && sys.clock <= sys.listening[i]
    requires S.Holds(sys.sender, q) && q < sys.sender.left + CheckReach(sys.sender) && InFlight(S.At(sys.sender, q))
    requires EarliestExpiry(sys, S.At(sys.sender, q).lastSentTime) <= sys.listening[i]
    ensures HasRound(cfg, sys, ROUND)
  {
    var sentAt := S.At(sys.sender, q).lastSentTime;
    if sys.readTimeout == None {
      LastWait(cfg, sys, q, i, AfterWaking(sys, sys.wakeAt, sentAt));
    } else {
      var us := sys.readTimeout.value;
      if Max(sys.clock, sentAt + us + 1) <= sys.listening[i] {
        LastTick(cfg, sys, q, i, Max(sys.clock, sentAt + us + 1));
      } else {
        LastDetour(cfg, sys, q, i, AfterWaking(sys, sys.clock + us / 2, sentAt));
      }
    }
  }

  lemma LastPending(cfg: Config, sys: System, i: nat)
    requires Inv(cfg, sys) && !SenderFinished(cfg, sys) && ReceiverFinished(sys)
    requires i < |sys.listening| && sys.clock <= sys.listening[i]
    requires S.HasPending(sys.sender.window, sys.sender.cwnd)
    ensures HasRound(cfg, sys, ROUND)
  {
    var q := PendingNumber(sys.sender);
    DueIsAnnounced(cfg, sys.sender, q);
    LastSend(cfg, sys, q, i);
  }

  lemma PendingNumber(s: S.Sender) returns (q: nat)
    requires S.HasPending(s.window, s.cwnd)
    ensures SI.Due(s, q)
  {
    var k :| 0 <= k < |s.window| && k < s.cwnd && S.Pending(s.window[k]);
    q := s.left + k;
  }

  lemma ExpiringNumber(sys: System, d: nat) returns (q: nat)
    requires CanEmitBy(sys, d) && !S.HasPending(sys.sender.window, sys.sender.cwnd)
    ensures S.Holds(sys.sender, q) && q < sys.sender.left + CheckReach(sys.sender) && InFlight(S.At(sys.sender, q))
    ensures EarliestExpiry(sys, S.At(sys.sender, q).lastSentTime) <= d
  {
    var k :| 0 <= k < CheckReach(sys.sender) && ExpiresBy(sys, k, d);
    q := sys.sender.left + k;
    assert S.At(sys.sender, q) == sys.sender.window[k];
  }

  /** One thread of a finished receiver still waits when the sender can put a packet on the
      wire: then one more round finishes the transfer. */
  lemma LastRound(cfg: Config, sys: System, i: nat)
    requires Inv(cfg, sys) && !SenderFinished(cfg, sys) && ReceiverFinished(sys)
    requires i < |sys.listening| && CanEmitBy(sys, sys.listening[i])
    ensures HasRound(cfg, sys, ROUND)
  {
    if S.HasPending(sys.sender.window, sys.sender.cwnd) {
      LastPending(cfg, sys, i);
    } else {
      var q := ExpiringNumber(sys, sys.listening[i]);
      LastExpiry(cfg, sys, q, i);
    }
  }
}
