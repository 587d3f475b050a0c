/** What the sender keeps on its own, whatever acks arrive (as long as they never
    acknowledge more than the window holds). */
module SenderInvariant {
  import opened Transfer
  import opened Packets
  import opened SenderModel

  /** Items are numbered without a gap from the left bound and hold their source slices. */
  predicate ShapeAt(cfg: Config, left: nat, window: seq<Item>) {
    && left + |window| <= cfg.last + 1
    && forall i :: 0 <= i < |window| ==> window[i].seqNum == left + i && window[i].data == cfg.Chunk(left + i)
  }

  predicate Shape(cfg: Config, s: Sender) {
    ShapeAt(cfg, s.left, s.window)
  }

  /** The window reaches as far as the congestion window or the last packet. */
  predicate Filled(cfg: Config, s: Sender) {
    Min(s.left + s.cwnd, cfg.last + 1) <= s.left + |s.window|
  }

  predicate BytesCounted(cfg: Config, s: Sender) {
    s.bytesSent == Min(s.left * DATA_SIZE, cfg.bytesToSend)
  }

  predicate CongestionBounded(s: Sender) {
    && CWND_MIN <= s.cwnd <= 2 * s.left + 20
    && THRESHOLD_MIN <= s.threshold <= UINT_MAX
    && s.cwnd <= s.growAt <= s.left + s.cwnd
  }

  /** Waiting items within reach are always announced. */
  predicate NothingForgotten(s: Sender) {
    HasPending(s.window, s.cwnd) ==> s.newDataReady
  }

  predicate DuplicatesOfLeft(cfg: Config, s: Sender) {
    cfg.fastRetransmission ==> s.lastAck == s.left
  }

  predicate Inv(cfg: Config, s: Sender) {
    && Shape(cfg, s)
    && Filled(cfg, s)
    && BytesCounted(cfg, s)
    && CongestionBounded(s)
    && s.left < s.growAt
    && NothingForgotten(s)
    && DuplicatesOfLeft(cfg, s)
  }

  lemma ShapeItem(cfg: Config, s: Sender, q: nat)
    requires Shape(cfg, s) && Holds(s, q)
    ensures q <= cfg.last && At(s, q).seqNum == q && At(s, q).data == cfg.Chunk(q)
  {
  }

  // ---- filling and sliding ----

  lemma {:induction false} FillExtends(cfg: Config, left: nat, window: seq<Item>, cwnd: nat)
    requires left + |window| <= cfg.last + 1
    ensures var r := Fill(cfg, left, window, cwnd);
            && |r| == Max(|window|, Min(cwnd, cfg.last + 1 - left))
            && window == r[..|window|]
            && (forall i :: |window| <= i < |r| ==> r[i] == Fresh(cfg, left + i))
    decreases cwnd - |window|
  {
    if |window| < cwnd && left + |window| <= cfg.last {
      var more := window + [Fresh(cfg, left + |window|)];
      FillExtends(cfg, left, more, cwnd);
      var r := Fill(cfg, left, more, cwnd);
      assert window == more[..|window|] == r[..|window|];
      assert r[|window|] == r[..|more|][|window|] == more[|window|];
    }
  }

  lemma {:induction false} TotalSizeOfChunks(cfg: Config, left: nat, items: seq<Item>)
    requires ShapeAt(cfg, left, items)
    ensures Min(left * DATA_SIZE, cfg.bytesToSend) + TotalSize(items) == Min((left + |items|) * DATA_SIZE, cfg.bytesToSend)
    decreases |items|
  {
    if items != [] {
      ChunkIsSlice(cfg, left);
      LastPacket(cfg);
      SplitKeepsShape(cfg, left, items, 1);
      TotalSizeOfChunks(cfg, left + 1, items[1..]);
    }
  }

  lemma InitInv(cfg: Config)
    ensures Inv(cfg, Init(cfg))
  {
    FillExtends(cfg, 0, [], CWND_MIN);
    LastPacket(cfg);
  }

  /** The byte-counting `finished()` is true exactly when every packet has been passed. */
  lemma FinishedMeansAllPassed(cfg: Config, s: Sender)
    requires Inv(cfg, s)
    ensures Finished(cfg, s) <==> s.left == cfg.last + 1
    ensures Finished(cfg, s) ==> s.window == []
  {
  }

  // ---- prepareDataPacketsToSend ----

  predicate Numbered(left: nat, window: seq<Item>) {
    forall i :: 0 <= i < |window| ==> window[i].seqNum == left + i
  }

  predicate Increasing(ps: seq<Packet>) {
    forall j, k :: 0 <= j < k < |ps| ==> ps[j].seqNum < ps[k].seqNum
  }

  lemma {:induction false} EmittedOrdered(cfg: Config, window: seq<Item>, left: nat, n: nat, now: nat)
    requires n <= |window| && Numbered(left, window)
    ensures var ps := Emitted(cfg, window, n, now);
            Increasing(ps) && (forall p :: p in ps ==> p.seqNum < left + n)
  {
    if n > 0 {
      EmittedOrdered(cfg, window, left, n - 1, now);
      var front := Emitted(cfg, window, n - 1, now);
      if Pending(window[n - 1]) {
        assert Emitted(cfg, window, n, now) == front + [ToPacket(cfg, window[n - 1], now)];
      } else {
        assert Emitted(cfg, window, n, now) == front;
      }
    }
  }

  /** Only waiting items are emitted, each as its own packet. */
  lemma {:induction false} EmittedWaits(cfg: Config, window: seq<Item>, left: nat, n: nat, now: nat, p: Packet)
    requires n <= |window| && Numbered(left, window)
    requires p in Emitted(cfg, window, n, now)
    ensures left <= p.seqNum < left + n
    ensures Pending(window[p.seqNum - left]) && p == ToPacket(cfg, window[p.seqNum - left], now)
  {
    if p in Emitted(cfg, window, n - 1, now) {
      EmittedWaits(cfg, window, left, n - 1, now, p);
    }
  }

  /** Every waiting item is emitted. */
  lemma {:induction false} WaitingEmitted(cfg: Config, window: seq<Item>, n: nat, now: nat, i: nat)
    requires i < n <= |window| && Pending(window[i])
    ensures ToPacket(cfg, window[i], now) in Emitted(cfg, window, n, now)
  {
    if i < n - 1 {
      WaitingEmitted(cfg, window, n - 1, now, i);
    }
  }

  lemma PrepareKeepsInv(cfg: Config, s: Sender, now: nat)
    requires Inv(cfg, s)
    ensures Inv(cfg, Prepare(s, now))
    ensures !HasPending(Prepare(s, now).window, s.cwnd)
  {
  }

  function Numbers(ps: seq<Packet>): set<nat> {
    set p | p in ps :: p.seqNum
  }

  /** Is packet `q` waiting, within the congestion window? */
  predicate Due(s: Sender, q: nat) {
    s.left <= q < s.left + InReach(s) && Pending(s.window[q - s.left])
  }

  lemma DueIsPrepared(cfg: Config, s: Sender, now: nat, q: nat)
    requires Due(s, q)
    ensures ToPacket(cfg, At(s, q), now) in PreparedPackets(cfg, s, now)
  {
    WaitingEmitted(cfg, s.window, InReach(s), now, q - s.left);
  }

  lemma PreparedNumbers(cfg: Config, s: Sender, now: nat, q: nat)
    requires Shape(cfg, s)
    ensures q in Numbers(PreparedPackets(cfg, s, now)) <==> Due(s, q)
  {
    var ps := PreparedPackets(cfg, s, now);
    if Due(s, q) {
      DueIsPrepared(cfg, s, now, q);
      assert At(s, q).seqNum == q;
    }
    if p :| p in ps && p.seqNum == q {
      EmittedWaits(cfg, s.window, s.left, InReach(s), now, p);
    }
  }

  /** What each emitted packet carries. */
  lemma PreparedPacket(cfg: Config, s: Sender, now: nat, p: Packet)
    requires Shape(cfg, s)
    requires p in PreparedPackets(cfg, s, now)
    ensures Due(s, p.seqNum) && p.sentTime == now && p.data == cfg.Chunk(p.seqNum)
    ensures p.ptype == if p.seqNum == cfg.last then Finish else Regular
  {
    EmittedWaits(cfg, s.window, s.left, InReach(s), now, p);
  }

  /** `prepareDataPacketsToSend` returns the waiting items within the congestion window, each
      once and in increasing order, with FINISH on the last packet of the transfer only, and
      leaves nothing waiting. */
  lemma PrepareExact(cfg: Config, s: Sender, now: nat)
    requires Inv(cfg, s)
    ensures var ps := PreparedPackets(cfg, s, now);
            && Increasing(ps)
            && (forall q: nat :: q in Numbers(ps) <==> Due(s, q))
            && (forall p :: p in ps ==> p.sentTime == now && p.data == cfg.Chunk(p.seqNum)
                                        && p.ptype == if p.seqNum == cfg.last then Finish else Regular)
    ensures forall q: nat :: !Due(Prepare(s, now), q)
  {
    var ps := PreparedPackets(cfg, s, now);
    EmittedOrdered(cfg, s.window, s.left, InReach(s), now);
    forall q: nat ensures q in Numbers(ps) <==> Due(s, q) {
      PreparedNumbers(cfg, s, now, q);
    }
    forall p | p in ps
      ensures p.sentTime == now && p.data == cfg.Chunk(p.seqNum) && p.ptype == if p.seqNum == cfg.last then Finish else Regular
    {
      PreparedPacket(cfg, s, now, p);
    }
    forall q: nat ensures !Due(Prepare(s, now), q) {
      PreparedOnce(s, now, q);
    }
  }

  lemma PreparedOnce(s: Sender, now: nat, q: nat)
    ensures !Due(Prepare(s, now), q)
  {
  }

  lemma PendingHeadIsDue(cfg: Config, s: Sender)
    requires Inv(cfg, s) && Holds(s, s.left) && Pending(At(s, s.left))
    ensures Due(s, s.left) && s.newDataReady
  {
    assert At(s, s.left) == s.window[0];
    assert HasPending(s.window, s.cwnd);
  }

  // ---- checkTimeout ----

  lemma ThresholdFacts(cwnd: nat)
    ensures THRESHOLD_MIN <= NewThreshold(cwnd) <= Max(cwnd, THRESHOLD_MIN)
  {
  }

  lemma ExpireKeepsShape(cfg: Config, left: nat, window: seq<Item>, now: nat, timeoutUs: nat)
    requires ShapeAt(cfg, left, window)
    ensures ShapeAt(cfg, left, Expire(window, now, timeoutUs))
    ensures |Expire(window, now, timeoutUs)| == |window|
  {
  }

  lemma TimeoutPunishKeeps(cfg: Config, s: Sender)
    requires CongestionBounded(s) && s.left <= cfg.last + 1
    ensures CongestionBounded(TimeoutPunish(s)) && s.left < TimeoutPunish(s).growAt && TimeoutPunish(s).cwnd <= s.cwnd
  {
  }

  lemma CheckTimeoutKeepsInv(cfg: Config, s: Sender, now: nat, timeoutUs: nat)
    requires Inv(cfg, s)
    ensures Inv(cfg, CheckTimeout(s, now, timeoutUs))
  {
    ExpireKeepsShape(cfg, s.left, s.window, now, timeoutUs);
    TimeoutPunishKeeps(cfg, s.(window := Expire(s.window, now, timeoutUs)));
  }

  /** `curCongestionWindow` can be doubled, and every left-bound sum formed, in 32 bits. */
  lemma CwndFitsWord(cfg: Config, s: Sender)
    requires Shape(cfg, s) && CongestionBounded(s)
    ensures 2 * s.cwnd < WORD && s.cwnd + THRESHOLD_MIN < WORD
    ensures s.left + s.cwnd < WORD && s.growAt < WORD
  {
  }

  // ---- ackArrived ----

  /** How one item may change while an ack is handled: it keeps its number, payload and send
      time; it becomes acknowledged exactly if marked; it is never put back to an earlier state. */
  predicate ItemStep(before: Item, after: Item, marked: bool) {
    && after.seqNum == before.seqNum && after.data == before.data && after.lastSentTime == before.lastSentTime
    && (after.state == Acked <==> before.state == Acked || marked)
    && (after.state == NotSent <==> before.state == NotSent && !marked)
    && (after.state == Sent ==> before.state == Sent)
    && (after.state == Resent ==> before.state == Resent)
  }

  predicate WindowStep(before: seq<Item>, after: seq<Item>, markedAt: int) {
    && |after| == |before|
    && forall i :: 0 <= i < |before| ==> ItemStep(before[i], after[i], i == markedAt)
  }

  /** The position a selective ack marks, or -1. */
  function MarkedAt(s: Sender, cumulative: nat, selective: nat): int {
    if SelectiveHits(s, cumulative, selective) then selective - s.left else -1
  }

  lemma MarkItems(s: Sender, cumulative: nat, selective: nat)
    ensures WindowStep(s.window, MarkSelective(s, cumulative, selective).window, MarkedAt(s, cumulative, selective))
  {
  }

  lemma RetransmitItems(s: Sender)
    ensures WindowStep(s.window, RetransmitHead(s).window, -1)
  {
  }

  lemma WindowStepThen(a: seq<Item>, b: seq<Item>, c: seq<Item>, m: int)
    requires WindowStep(a, b, m) && WindowStep(b, c, -1)
    ensures WindowStep(a, c, m)
  {
  }

  lemma WindowStepKeepsShape(cfg: Config, left: nat, before: seq<Item>, after: seq<Item>, m: int)
    requires ShapeAt(cfg, left, before) && WindowStep(before, after, m)
    ensures ShapeAt(cfg, left, after)
  {
  }

  lemma FastPunishKeeps(cfg: Config, s: Sender)
    requires CongestionBounded(s) && s.left <= cfg.last + 1
    ensures var r := FastPunish(s);
            CongestionBounded(r) && r == s.(threshold := r.threshold, cwnd := r.cwnd, growAt := r.growAt, punished := true)
  {
  }

  /** The control fields across the fast retransmission block. */
  lemma FastRetransmitControl(cfg: Config, s: Sender, cumulative: nat)
    requires CongestionBounded(s) && s.left <= cfg.last + 1
    ensures var r := FastRetransmit(cfg, s, cumulative);
            && r.left == s.left && r.bytesSent == s.bytesSent && CongestionBounded(r)
            && (cfg.fastRetransmission ==> r.lastAck == Max(s.lastAck, cumulative))
            && WindowStep(s.window, r.window, -1)
  {
    var c := CountDuplicate(cfg, s, cumulative);
    assert CongestionBounded(c);
    if FastFires(cfg, s, cumulative) {
      FastPunishKeeps(cfg, c);
      RetransmitItems(FastPunish(c));
    }
  }

  lemma BeforeSlideKeeps(cfg: Config, s: Sender, cumulative: nat, selective: nat)
    requires Inv(cfg, s)
    ensures var r := BeforeSlide(cfg, s, cumulative, selective);
            && Shape(cfg, r) && BytesCounted(cfg, r) && CongestionBounded(r)
            && r.left == s.left
            && (cfg.fastRetransmission ==> r.lastAck == Max(s.left, cumulative))
            && WindowStep(s.window, r.window, MarkedAt(s, cumulative, selective))
  {
    var m := MarkSelective(s, cumulative, selective);
    var r := FastRetransmit(cfg, m, cumulative);
    MarkItems(s, cumulative, selective);
    FastRetransmitControl(cfg, m, cumulative);
    WindowStepThen(s.window, m.window, r.window, MarkedAt(s, cumulative, selective));
    WindowStepKeepsShape(cfg, s.left, s.window, r.window, MarkedAt(s, cumulative, selective));
  }

  lemma SplitKeepsShape(cfg: Config, left: nat, window: seq<Item>, n: nat)
    requires ShapeAt(cfg, left, window) && n <= |window|
    ensures ShapeAt(cfg, left, window[..n]) && ShapeAt(cfg, left + n, window[n..])
  {
  }

  lemma SlideCounts(cfg: Config, s: Sender, n: nat)
    requires Shape(cfg, s) && BytesCounted(cfg, s) && n <= |s.window|
    ensures s.bytesSent + TotalSize(s.window[..n]) == Min((s.left + n) * DATA_SIZE, cfg.bytesToSend)
  {
    SplitKeepsShape(cfg, s.left, s.window, n);
    TotalSizeOfChunks(cfg, s.left, s.window[..n]);
  }

  lemma SlideControl(s: Sender, cumulative: nat)
    requires Passed(s, cumulative) <= |s.window|
    ensures var r := Slide(s, cumulative); var n := Passed(s, cumulative);
            && r.left == s.left + n == Max(s.left, cumulative) && r.window == s.window[n..]
            && r.bytesSent == s.bytesSent + TotalSize(s.window[..n])
            && r.lastAck == s.lastAck
            && (CongestionBounded(s) ==> CongestionBounded(r))
  {
  }

  lemma SlideKeeps(cfg: Config, s: Sender, cumulative: nat)
    requires Shape(cfg, s) && BytesCounted(cfg, s) && CongestionBounded(s)
    requires Passed(s, cumulative) <= |s.window|
    ensures var r := Slide(s, cumulative);
            && Shape(cfg, r) && BytesCounted(cfg, r) && CongestionBounded(r)
            && r.left == Max(s.left, cumulative) && r.lastAck == s.lastAck
            && r.left + |r.window| == s.left + |s.window|
  {
    SlideControl(s, cumulative);
    SplitKeepsShape(cfg, s.left, s.window, Passed(s, cumulative));
    SlideCounts(cfg, s, Passed(s, cumulative));
  }

  lemma GrowKeeps(cfg: Config, s: Sender)
    requires CongestionBounded(s) && s.left <= cfg.last + 1
    ensures var r := Grow(s);
            && CongestionBounded(r) && r.left < r.growAt
            && r == s.(cwnd := r.cwnd, growAt := r.growAt)
  {
  }

  lemma FillKeepsShape(cfg: Config, left: nat, window: seq<Item>, cwnd: nat)
    requires ShapeAt(cfg, left, window)
    ensures var r := Fill(cfg, left, window, cwnd);
            && ShapeAt(cfg, left, r)
            && Min(left + cwnd, cfg.last + 1) <= left + |r|
            && |window| <= |r|
            && (forall i :: 0 <= i < |r| ==> r[i] == if i < |window| then window[i] else Fresh(cfg, left + i))
  {
    FillExtends(cfg, left, window, cwnd);
    var r := Fill(cfg, left, window, cwnd);
    forall i | 0 <= i < |r| ensures r[i] == if i < |window| then window[i] else Fresh(cfg, left + i) {
      if i < |window| {
        assert r[..|window|][i] == r[i];
      }
    }
  }

  lemma AfterSlideKeeps(cfg: Config, s: Sender)
    requires Shape(cfg, s) && BytesCounted(cfg, s) && CongestionBounded(s) && DuplicatesOfLeft(cfg, s)
    ensures var r := AfterSlide(cfg, s);
            && Inv(cfg, r) && r.left == s.left && |s.window| <= |r.window|
            && (forall i :: 0 <= i < |r.window| ==> r.window[i] == if i < |s.window| then s.window[i] else Fresh(cfg, s.left + i))
  {
    GrowKeeps(cfg, s);
    FillKeepsShape(cfg, s.left, s.window, Grow(s).cwnd);
  }

  lemma AckArrivedKeepsInv(cfg: Config, s: Sender, cumulative: nat, selective: nat)
    requires Inv(cfg, s)
    requires Passed(s, cumulative) <= |s.window|
    ensures var r := AckArrived(cfg, s, cumulative, selective);
            Inv(cfg, r) && r.left == Max(s.left, cumulative) && s.left + |s.window| <= r.left + |r.window|
  {
    var s1 := BeforeSlide(cfg, s, cumulative, selective);
    BeforeSlideKeeps(cfg, s, cumulative, selective);
    SlideKeeps(cfg, s1, cumulative);
    AfterSlideKeeps(cfg, Slide(s1, cumulative));
  }

  lemma MarkItem(s: Sender, cumulative: nat, selective: nat, q: nat)
    requires Holds(s, q)
    ensures var m := MarkSelective(s, cumulative, selective);
            && m.left == s.left && |m.window| == |s.window|
            && ItemStep(At(s, q), At(m, q), cumulative != selective && selective == q)
  {
  }

  lemma FastRetransmitItem(cfg: Config, s: Sender, cumulative: nat, q: nat)
    requires Holds(s, q)
    ensures var r := FastRetransmit(cfg, s, cumulative);
            && r.left == s.left && |r.window| == |s.window|
            && ItemStep(At(s, q), At(r, q), false)
  {
  }

  lemma BeforeSlideItem(cfg: Config, s: Sender, cumulative: nat, selective: nat, q: nat)
    requires Holds(s, q)
    ensures ItemStep(At(s, q), At(BeforeSlide(cfg, s, cumulative, selective), q), cumulative != selective && selective == q)
  {
    MarkItem(s, cumulative, selective, q);
    FastRetransmitItem(cfg, MarkSelective(s, cumulative, selective), cumulative, q);
  }

  lemma SlideItem(s: Sender, cumulative: nat, q: nat)
    requires Passed(s, cumulative) <= |s.window| && q >= cumulative
    ensures Holds(Slide(s, cumulative), q) <==> Holds(s, q)
    ensures Holds(s, q) ==> At(Slide(s, cumulative), q) == At(s, q)
  {
  }

  lemma {:induction false} FillItem(cfg: Config, left: nat, window: seq<Item>, cwnd: nat, i: nat)
    requires i < |Fill(cfg, left, window, cwnd)|
    ensures Fill(cfg, left, window, cwnd)[i] == if i < |window| then window[i] else Fresh(cfg, left + i)
    decreases cwnd - |window|
  {
    if |window| < cwnd && left + |window| <= cfg.last {
      FillItem(cfg, left, window + [Fresh(cfg, left + |window|)], cwnd, i);
    }
  }

  lemma AfterSlideWindow(cfg: Config, s: Sender)
    ensures var r := AfterSlide(cfg, s);
            r.left == s.left && r.window == Fill(cfg, s.left, s.window, Grow(s).cwnd)
  {
  }

  lemma AfterSlideItem(cfg: Config, s: Sender, q: nat)
    requires Holds(AfterSlide(cfg, s), q)
    ensures At(AfterSlide(cfg, s), q) == if Holds(s, q) then At(s, q) else Fresh(cfg, q)
  {
    AfterSlideWindow(cfg, s);
    FillItem(cfg, s.left, s.window, Grow(s).cwnd, q - s.left);
  }

  /** Packet by packet, the window after an ack: what was there made an `ItemStep`, the rest
      is fresh. */
  lemma AckArrivedItem(cfg: Config, s: Sender, cumulative: nat, selective: nat, q: nat)
    requires s.left + |s.window| <= cfg.last + 1
    requires Passed(s, cumulative) <= |s.window|
    requires Holds(AckArrived(cfg, s, cumulative, selective), q)
    ensures var r := AckArrived(cfg, s, cumulative, selective);
            if Holds(s, q) then ItemStep(At(s, q), At(r, q), cumulative != selective && selective == q)
            else At(r, q) == Fresh(cfg, q)
  {
    var s1 := BeforeSlide(cfg, s, cumulative, selective);
    var s2 := Slide(s1, cumulative);
    AfterSlideItem(cfg, s2, q);
    SlideItem(s1, cumulative, q);
    if Holds(s, q) {
      BeforeSlideItem(cfg, s, cumulative, selective, q);
    }
  }

  lemma FastRetransmitBehindHead(cfg: Config, s: Sender, cumulative: nat, q: nat)
    requires Holds(s, q) && q > s.left
    ensures var r := FastRetransmit(cfg, s, cumulative);
            r.left == s.left && |r.window| == |s.window| && At(r, q) == At(s, q)
  {
  }

  lemma BeforeSlideBehindHead(cfg: Config, s: Sender, cumulative: nat, selective: nat, q: nat)
    requires Holds(s, q) && q > s.left
    ensures var r := BeforeSlide(cfg, s, cumulative, selective);
            At(r, q) == At(s, q) || At(r, q) == At(s, q).(state := Acked)
  {
    MarkItem(s, cumulative, selective, q);
    FastRetransmitBehindHead(cfg, MarkSelective(s, cumulative, selective), cumulative, q);
  }

  /** Behind the head an ack changes nothing but the marked item. */
  lemma AckArrivedBehindHead(cfg: Config, s: Sender, cumulative: nat, selective: nat, q: nat)
    requires Passed(s, cumulative) <= |s.window|
    requires Holds(s, q) && q > s.left && Holds(AckArrived(cfg, s, cumulative, selective), q)
    ensures var r := AckArrived(cfg, s, cumulative, selective);
            At(r, q) == At(s, q) || At(r, q) == At(s, q).(state := Acked)
  {
    var s1 := BeforeSlide(cfg, s, cumulative, selective);
    BeforeSlideBehindHead(cfg, s, cumulative, selective, q);
    AfterSlideItem(cfg, Slide(s1, cumulative), q);
    SlideItem(s1, cumulative, q);
  }

  // ---- when fast retransmission fires ----

  /** The ack that fires it asks for the head, slides nothing and lets nothing grow: the step
      resizes the congestion window once per round, to 62 percent but at least 20. */
  lemma FiringAckResizes(cfg: Config, s: Sender, cumulative: nat, selective: nat)
    requires Inv(cfg, s) && FastFires(cfg, s, cumulative)
    ensures cumulative == s.left
    ensures AckArrived(cfg, s, cumulative, selective).cwnd == if s.punished then s.cwnd else NewThreshold(s.cwnd)
  {
    var m := MarkSelective(s, cumulative, selective);
    var r := FastRetransmit(cfg, m, cumulative);
    assert r.cwnd == (if s.punished then s.cwnd else NewThreshold(s.cwnd)) && r.left == s.left < r.growAt;
    SlideControl(r, cumulative);
    assert !Grows(Slide(r, cumulative));
  }

  /** So the "punishment" enlarges the congestion window exactly when that is below 20 and not
      yet punished in this round. */
  lemma PunishmentEnlargesIff(cfg: Config, s: Sender, cumulative: nat, selective: nat)
    requires Inv(cfg, s) && FastFires(cfg, s, cumulative)
    ensures Passed(s, cumulative) == 0
    ensures AckArrived(cfg, s, cumulative, selective).cwnd > s.cwnd <==> !s.punished && s.cwnd < THRESHOLD_MIN
  {
    FiringAckResizes(cfg, s, cumulative, selective);
  }

  /** A timeout check never enlarges it. */
  lemma TimeoutNeverEnlarges(cfg: Config, s: Sender, now: nat, timeoutUs: nat)
    requires Inv(cfg, s)
    ensures CheckTimeout(s, now, timeoutUs).cwnd <= s.cwnd
  {
    TimeoutPunishKeeps(cfg, s.(window := Expire(s.window, now, timeoutUs)));
  }
}
