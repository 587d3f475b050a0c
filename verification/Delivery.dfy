/** What holds in every reachable state: the file arrives intact, and nothing the sender
    relies on without checking ever fails. */
module Delivery {
  import opened Transfer
  import opened Packets
  import opened Protocol
  import opened ProtocolInvariant
  import R = ReceiverModel
  import RI = ReceiverInvariant
  import S = SenderModel
  import SI = SenderInvariant

  // ---- end to end ----

  /** The file holds the first `bytesToSend` bytes of the source and nothing else. */
  ghost predicate Intact(cfg: Config, file: R.File) {
    && (forall o: nat :: o in file <==> o < cfg.bytesToSend)
    && (forall o :: o in file ==> file[o] == cfg.source[o])
  }

  /** Whatever is written is the source byte of that offset, within the bytes asked for. */
  lemma PlacedIsSource(cfg: Config, got: set<nat>, o: nat)
    requires o in RI.Placed(cfg, got)
    ensures o < cfg.bytesToSend && RI.Placed(cfg, got)[o] == cfg.source[o]
  {
    var q :| q in got && RI.Covers(cfg, q, o);
    ChunkIsSlice(cfg, q);
  }

  lemma EveryByteHasAPacket(cfg: Config, o: nat)
    requires cfg.last <= LAST_EXACT && o < cfg.bytesToSend
    ensures RI.Covers(cfg, o / DATA_SIZE, o)
  {
  }

  /** Beyond the 32-bit bound, no packet is ever placed at the true offset of the last one. */
  lemma LastByteUnreachable(cfg: Config, q: nat)
    requires cfg.last > LAST_EXACT
    ensures !RI.Covers(cfg, q, cfg.last * DATA_SIZE)
  {
  }

  /** A file with every packet placed is intact exactly when all offsets fit 32 bits. */
  lemma PlacedIntact(cfg: Config, got: set<nat>)
    requires forall q: nat :: q <= cfg.last <==> q in got
    ensures Intact(cfg, RI.Placed(cfg, got)) <==> cfg.last <= LAST_EXACT
  {
    var file := RI.Placed(cfg, got);
    LastPacket(cfg);
    forall o: nat | o in file ensures o < cfg.bytesToSend && file[o] == cfg.source[o] {
      PlacedIsSource(cfg, got, o);
    }
    if cfg.last <= LAST_EXACT {
      forall o: nat | o < cfg.bytesToSend ensures o in file {
        EveryByteHasAPacket(cfg, o);
        assert o / DATA_SIZE in got;
      }
    } else {
      var o := cfg.last * DATA_SIZE;
      forall q | q in got ensures !RI.Covers(cfg, q, o) {
        LastByteUnreachable(cfg, q);
      }
      assert o !in file && o < cfg.bytesToSend;
    }
  }

  /** End-to-end delivery: over every run with loss, duplication and reordering, a finished
      receiver has written the first `bytesToSend` bytes of the source, exactly when the
      transfer is at most 4294968150 bytes long; and the sender only finishes after it. */
  lemma EndToEnd(cfg: Config, sys: System)
    requires Reachable(cfg, sys)
    ensures ReceiverFinished(sys) ==> (Intact(cfg, sys.receiver.file) <==> cfg.last <= LAST_EXACT)
    ensures SenderFinished(cfg, sys) ==> ReceiverFinished(sys)
  {
    ReachableInv(cfg, sys);
    Coupling(cfg, sys);
    SI.FinishedMeansAllPassed(cfg, sys.sender);
    RI.FinishedMeansAllReceived(cfg, sys.receiver);
    if ReceiverFinished(sys) {
      PlacedIntact(cfg, RI.Received(sys.receiver));
    }
  }

  /** Long before it is complete, the file only ever holds source bytes at their own offsets,
      for transfers of any permitted length. */
  lemma FileIsAlwaysSound(cfg: Config, sys: System, o: nat)
    requires Reachable(cfg, sys) && o in sys.receiver.file
    ensures o < cfg.bytesToSend && sys.receiver.file[o] == cfg.source[o]
  {
    ReachableInv(cfg, sys);
    PlacedIsSource(cfg, RI.Received(sys.receiver), o);
  }

  /** File placement is independent of the order of arrival: two runs that stored the same
      packets wrote the same file, and any two runs agree wherever both have written. */
  lemma OrderIndependent(cfg: Config, a: System, b: System)
    requires Reachable(cfg, a) && Reachable(cfg, b)
    ensures RI.Received(a.receiver) == RI.Received(b.receiver) ==> a.receiver.file == b.receiver.file
    ensures forall o :: o in a.receiver.file && o in b.receiver.file ==> a.receiver.file[o] == b.receiver.file[o]
  {
    ReachableInv(cfg, a);
    ReachableInv(cfg, b);
    forall o | o in a.receiver.file && o in b.receiver.file ensures a.receiver.file[o] == b.receiver.file[o] {
      FileIsAlwaysSound(cfg, a, o);
      FileIsAlwaysSound(cfg, b, o);
    }
  }

  // ---- endpoint coupling ----

  /** The receiver's next expected packet is always within, or just past, the sender's window;
      every packet ever sent is below the end of the window; no ack on the wire, old or new,
      pops more items than there are; so popping an empty deque never happens. */
  lemma EndpointsCoupled(cfg: Config, sys: System)
    requires Reachable(cfg, sys)
    ensures sys.sender.left <= sys.receiver.next <= Reach(sys.sender) <= cfg.last + 1
    ensures forall p :: p in sys.sentPackets && p.ptype != Handshake ==> p.seqNum < Reach(sys.sender)
    ensures forall a :: a in sys.sentAcks && a.atype == RegularAck ==> S.Passed(sys.sender, a.cumulative) <= |sys.sender.window|
    ensures !sys.faulted
  {
    ReachableInv(cfg, sys);
    Coupling(cfg, sys);
    forall a | a in sys.sentAcks && a.atype == RegularAck
      ensures S.Passed(sys.sender, a.cumulative) <= |sys.sender.window|
    {
      AckWithinWindow(cfg, sys, a);
    }
  }

  lemma AckAdvancesEdges(cfg: Config, sys: System, a: Ack)
    requires Inv(cfg, sys) && a in sys.acks && a.atype == RegularAck
    ensures var after := DoAck(cfg, sys, a);
            sys.sender.left <= after.sender.left && Reach(sys.sender) <= Reach(after.sender) && after.receiver == sys.receiver
  {
    AckWithinWindow(cfg, sys, a);
    SI.AckArrivedKeepsInv(cfg, sys.sender, a.cumulative, a.selective);
  }

  /** Neither edge of the sender's window, nor the receiver's, ever moves back. */
  lemma EdgesAdvance(cfg: Config, sys: System, e: Event)
    requires Inv(cfg, sys) && Allowed(cfg, sys, e)
    ensures var after := Step(cfg, sys, e);
            && sys.sender.left <= after.sender.left
            && Reach(sys.sender) <= Reach(after.sender)
            && sys.receiver.next <= after.receiver.next
  {
    match e
    case DeliverAck(a) => AckAdvancesEdges(cfg, sys, a);
    case SendData => PrepareItem(sys.sender, sys.clock, 0);
    case CheckTimeout => CheckItem(sys.sender, sys.clock, sys.readTimeout.value, 0);
    case _ =>
  }

  lemma {:induction false} EdgesStayAdvanced(cfg: Config, sys: System, run: seq<Event>)
    requires Inv(cfg, sys) && Legal(cfg, sys, run)
    ensures var after := After(cfg, sys, run);
            && sys.sender.left <= after.sender.left
            && Reach(sys.sender) <= Reach(after.sender)
            && sys.receiver.next <= after.receiver.next
    decreases |run|
  {
    if run != [] {
      EdgesAdvance(cfg, sys, run[0]);
      StepKeepsInv(cfg, sys, run[0]);
      EdgesStayAdvanced(cfg, Step(cfg, sys, run[0]), run[1..]);
    }
  }

  /** The same over whole runs: in particular the end of the sender's window never decreases. */
  lemma EdgesAdvanceInRuns(cfg: Config, sys: System, run: seq<Event>)
    requires Reachable(cfg, sys) && Legal(cfg, sys, run)
    ensures var after := After(cfg, sys, run);
            && sys.sender.left <= after.sender.left
            && Reach(sys.sender) <= Reach(after.sender)
            && sys.receiver.next <= after.receiver.next
  {
    ReachableInv(cfg, sys);
    EdgesStayAdvanced(cfg, sys, run);
  }

  /** The head of the window is never stuck as ACKED. */
  lemma HeadNeverAcked(cfg: Config, sys: System)
    requires Reachable(cfg, sys) && sys.sender.window != []
    ensures sys.sender.window[0].state != S.Acked
  {
    ReachableInv(cfg, sys);
    HeadNotAcked(cfg, sys);
  }

  /** No gap is ever announced again: a packet acknowledged selectively from beyond a gap is
      never the cumulative field of any ack of the run, earlier or later. */
  lemma GapsNeverAnnounced(cfg: Config, sys: System, a: Ack, b: Ack)
    requires Reachable(cfg, sys)
    requires a in sys.sentAcks && a.atype == RegularAck && a.cumulative < a.selective
    requires b in sys.sentAcks && b.atype == RegularAck
    ensures b.cumulative != a.selective
  {
    ReachableInv(cfg, sys);
  }

  // ---- selective acks ----

  /** Has the sender taken packet `q` as delivered? */
  predicate Settled(s: S.Sender, q: nat) {
    q < s.left || (S.Holds(s, q) && S.At(s, q).state == S.Acked)
  }

  /** Everything the sender takes as delivered is stored at the receiver and was sent. */
  lemma SettledIsStored(cfg: Config, sys: System, q: nat)
    requires Reachable(cfg, sys) && Settled(sys.sender, q)
    ensures q in RI.Received(sys.receiver) && WasSent(sys.sentPackets, q)
  {
    ReachableInv(cfg, sys);
    Coupling(cfg, sys);
    RI.NextIsLeastMissing(cfg, sys.receiver);
  }

  lemma AckKeepsSettled(cfg: Config, sys: System, a: Ack, q: nat)
    requires Inv(cfg, sys) && Settled(sys.sender, q) && a in sys.acks && a.atype == RegularAck
    ensures Settled(DoAck(cfg, sys, a).sender, q)
  {
    AckWithinWindow(cfg, sys, a);
    SI.AckArrivedKeepsInv(cfg, sys.sender, a.cumulative, a.selective);
    if S.Holds(DoAck(cfg, sys, a).sender, q) {
      SI.AckArrivedItem(cfg, sys.sender, a.cumulative, a.selective, q);
    }
  }

  lemma StepKeepsSettled(cfg: Config, sys: System, e: Event, q: nat)
    requires Inv(cfg, sys) && Allowed(cfg, sys, e) && Settled(sys.sender, q)
    ensures Settled(Step(cfg, sys, e).sender, q)
  {
    match e
    case SendData => PrepareItem(sys.sender, sys.clock, q);
    case CheckTimeout => CheckItem(sys.sender, sys.clock, sys.readTimeout.value, q);
    case DeliverAck(a) => AckKeepsSettled(cfg, sys, a, q);
    case _ =>
  }

  lemma {:induction false} RunKeepsSettled(cfg: Config, sys: System, run: seq<Event>, q: nat)
    requires Inv(cfg, sys) && Legal(cfg, sys, run) && Settled(sys.sender, q)
    ensures Inv(cfg, After(cfg, sys, run)) && Settled(After(cfg, sys, run).sender, q)
    decreases |run|
  {
    if run != [] {
      StepKeepsSettled(cfg, sys, run[0], q);
      StepKeepsInv(cfg, sys, run[0]);
      RunKeepsSettled(cfg, Step(cfg, sys, run[0]), run[1..], q);
    }
  }

  /** A packet once taken as delivered stays so, and is never emitted again: whatever legal run
      follows, the packets the sender would prepare at its end do not include it. As every
      prefix of a legal run is one, this covers every sending round to come. */
  lemma SettledNeverResent(cfg: Config, sys: System, run: seq<Event>, q: nat)
    requires Reachable(cfg, sys) && Legal(cfg, sys, run) && Settled(sys.sender, q)
    ensures var after := After(cfg, sys, run);
            && Settled(after.sender, q)
            && q !in SI.Numbers(S.PreparedPackets(cfg, after.sender, after.clock))
  {
    ReachableInv(cfg, sys);
    RunKeepsSettled(cfg, sys, run, q);
    var after := After(cfg, sys, run);
    SI.PreparedNumbers(cfg, after.sender, after.clock, q);
  }

  // ---- the sender's own promises, over every run ----

  /** Window shape: the window reaches as far as the congestion window or the last packet. */
  lemma WindowReaches(cfg: Config, sys: System)
    requires Reachable(cfg, sys)
    ensures Min(sys.sender.left + sys.sender.cwnd, cfg.last + 1) <= Reach(sys.sender) <= cfg.last + 1
  {
    ReachableInv(cfg, sys);
  }

  /** Window shape: items are numbered without a gap and hold exactly their source slices. */
  lemma WindowHoldsSlices(cfg: Config, sys: System, q: nat)
    requires Reachable(cfg, sys) && S.Holds(sys.sender, q)
    ensures S.At(sys.sender, q).seqNum == q <= cfg.last
    ensures Offset32(q) <= Offset32(q) + Size(cfg, q) <= |cfg.source|
    ensures S.At(sys.sender, q).data == cfg.source[Offset32(q)..Offset32(q) + Size(cfg, q)]
  {
    ReachableInv(cfg, sys);
    SI.ShapeItem(cfg, sys.sender, q);
    ChunkIsSlice(cfg, q);
  }

  /** Byte accounting: the bytes counted are those of the packets passed, so the byte-counting
      `finished()` is true exactly when every packet has been passed. */
  lemma BytesAccounted(cfg: Config, sys: System)
    requires Reachable(cfg, sys)
    ensures sys.sender.bytesSent == Min(sys.sender.left * DATA_SIZE, cfg.bytesToSend)
    ensures SenderFinished(cfg, sys) <==> sys.sender.left == cfg.last + 1
  {
    ReachableInv(cfg, sys);
    SI.FinishedMeansAllPassed(cfg, sys.sender);
  }

  /** Waiting packets within the congestion window are always announced. */
  lemma NoWorkForgotten(cfg: Config, sys: System, q: nat)
    requires Reachable(cfg, sys) && SI.Due(sys.sender, q)
    ensures sys.sender.newDataReady && S.HasDataToSend(cfg, sys.sender) && Allowed(cfg, sys, SendData)
  {
    ReachableInv(cfg, sys);
  }

  /** The send thread may prepare a round exactly while some packet of the transfer has not been
      passed and the flag is up. */
  lemma SendingGoesOn(cfg: Config, sys: System)
    requires Reachable(cfg, sys)
    ensures Allowed(cfg, sys, SendData) <==> sys.sender.left <= cfg.last && sys.sender.newDataReady
  {
    ReachableInv(cfg, sys);
    SI.FinishedMeansAllPassed(cfg, sys.sender);
  }

  /** The congestion variables stay bounded, and neither doubling the window nor adding it to
      the left bound leaves 32 bits. */
  lemma CongestionStaysBounded(cfg: Config, sys: System)
    requires Reachable(cfg, sys)
    ensures S.CWND_MIN <= sys.sender.cwnd <= 2 * sys.sender.left + 20
    ensures S.THRESHOLD_MIN <= sys.sender.threshold
    ensures sys.sender.left < sys.sender.growAt && sys.sender.cwnd <= sys.sender.growAt <= sys.sender.left + sys.sender.cwnd
    ensures 2 * sys.sender.cwnd < WORD && sys.sender.left + sys.sender.cwnd < WORD
  {
    ReachableInv(cfg, sys);
    SI.CwndFitsWord(cfg, sys.sender);
  }

  /** Growth is paid for by ten packets of progress each, punishments number at most one more
      than the sending rounds, and fast retransmission fires at most once per left bound. */
  lemma CongestionLedger(cfg: Config, sys: System)
    requires Reachable(cfg, sys)
    ensures 10 * sys.tally.growths <= sys.sender.left && 10 * (sys.tally.growths + 1) <= sys.sender.growAt
    ensures sys.tally.punishments <= sys.tally.rounds + if sys.sender.punished then 1 else 0
    ensures sys.tally.fastFires <= sys.sender.left + 1
  {
    ReachableInv(cfg, sys);
  }

  lemma FiredHeadTimesOut(cfg: Config, s: S.Sender, cumulative: nat, selective: nat)
    requires cumulative == s.left && S.FastFires(cfg, s, cumulative)
    requires S.Holds(s, s.left) && InFlight(S.At(s, s.left))
    ensures S.At(S.BeforeSlide(cfg, s, cumulative, selective), s.left).state == S.TimedOut
  {
  }

  lemma FiredHeadIsDue(cfg: Config, s: S.Sender, cumulative: nat, selective: nat)
    requires SI.Inv(cfg, s) && cumulative == s.left && S.FastFires(cfg, s, cumulative)
    requires S.Holds(s, s.left) && InFlight(S.At(s, s.left))
    ensures var after := S.AckArrived(cfg, s, cumulative, selective);
            SI.Due(after, s.left) && after.newDataReady
  {
    var before := S.BeforeSlide(cfg, s, cumulative, selective);
    FiredHeadTimesOut(cfg, s, cumulative, selective);
    SI.SlideItem(before, cumulative, s.left);
    SI.AckArrivedKeepsInv(cfg, s, cumulative, selective);
    SI.AfterSlideItem(cfg, S.Slide(before, cumulative), s.left);
    SI.PendingHeadIsDue(cfg, S.AckArrived(cfg, s, cumulative, selective));
  }

  /** When fast retransmission fires, the ack asks for the head of the window. */
  lemma FastRetransmitHitsAwaited(cfg: Config, sys: System, a: Ack)
    requires Reachable(cfg, sys) && S.FastFires(cfg, sys.sender, a.cumulative)
    ensures a.cumulative == sys.sender.left
    ensures sys.sender.window != [] ==> sys.sender.window[0].seqNum == a.cumulative
  {
    ReachableInv(cfg, sys);
  }

  /** A head in flight is then due to be sent again after the step. */
  lemma FastRetransmitResends(cfg: Config, sys: System, a: Ack)
    requires Reachable(cfg, sys) && Allowed(cfg, sys, DeliverAck(a))
    requires S.FastFires(cfg, sys.sender, a.cumulative)
    requires S.Holds(sys.sender, a.cumulative) && InFlight(S.At(sys.sender, a.cumulative))
    ensures var after := DoAck(cfg, sys, a).sender; SI.Due(after, a.cumulative) && after.newDataReady
  {
    ReachableInv(cfg, sys);
    AckWithinWindow(cfg, sys, a);
    FiredHeadIsDue(cfg, sys.sender, a.cumulative, a.selective);
  }

  /** The step that fires fast retransmission enlarges the congestion window exactly when that
      is below 20 and not yet punished since the last sending round. */
  lemma PunishmentEnlarges(cfg: Config, sys: System, a: Ack)
    requires Reachable(cfg, sys) && Allowed(cfg, sys, DeliverAck(a))
    requires S.FastFires(cfg, sys.sender, a.cumulative)
    ensures DoAck(cfg, sys, a).sender.cwnd > sys.sender.cwnd <==> !sys.sender.punished && sys.sender.cwnd < 20
  {
    ReachableInv(cfg, sys);
    SI.PunishmentEnlargesIff(cfg, sys.sender, a.cumulative, a.selective);
  }

  /** A timeout is never premature: `checkTimeout` marks exactly the items whose newest copy on
      the wire is older than the threshold it read. */
  lemma TimeoutsAreHonest(cfg: Config, sys: System, q: nat)
    requires Reachable(cfg, sys) && Allowed(cfg, sys, CheckTimeout)
    requires S.Holds(sys.sender, q) && InFlight(S.At(sys.sender, q))
    ensures var after := DoCheck(sys).sender;
            && S.Holds(after, q)
            && (S.At(after, q).state == S.TimedOut
                <==> forall p :: p in sys.sentPackets && p.ptype != Handshake && p.seqNum == q
                       ==> sys.clock - p.sentTime > sys.readTimeout.value)
  {
    ReachableInv(cfg, sys);
    CheckItem(sys.sender, sys.clock, sys.readTimeout.value, q);
    InFlightTime(cfg, sys, q);
  }

  /** An item is NOT_SENT exactly when no copy of it was ever put on the wire. */
  lemma NotSentMeansNeverSent(cfg: Config, sys: System, q: nat)
    requires Reachable(cfg, sys) && S.Holds(sys.sender, q)
    ensures S.At(sys.sender, q).state == S.NotSent <==> !WasSent(sys.sentPackets, q)
  {
    ReachableInv(cfg, sys);
    assert ItemSentOk(S.At(sys.sender, q), q, sys.sentPackets);
  }

  /** No elapsed time the programs compute ever wraps: neither the age of an item in flight
      nor a round trip sample. */
  lemma ElapsedNeverWraps(cfg: Config, sys: System)
    requires Reachable(cfg, sys)
    ensures forall q: nat :: S.Holds(sys.sender, q) && InFlight(S.At(sys.sender, q)) ==>
              Elapsed(S.At(sys.sender, q).lastSentTime, sys.clock) == sys.clock - S.At(sys.sender, q).lastSentTime
    ensures forall a :: a in sys.acks ==> Elapsed(a.sentTime, sys.clock) == sys.clock - a.sentTime
  {
    ReachableInv(cfg, sys);
    forall q: nat | S.Holds(sys.sender, q) && InFlight(S.At(sys.sender, q))
      ensures S.At(sys.sender, q).lastSentTime <= sys.clock
    {
      InFlightTime(cfg, sys, q);
    }
  }
}
