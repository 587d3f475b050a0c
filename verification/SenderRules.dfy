/** What each step of the sender has to do, as relations between the states before and after:
    item by item and field by field, in plain numbers, without the step functions of
    `SenderModel`. Each relation is proved to have exactly one solution, the step. */
module SenderRules {
  import opened Transfer
  import opened Packets
  import opened SenderModel
  import SI = SenderInvariant

  predicate Waits(item: Item) {
    item.state == NotSent || item.state == TimedOut
  }

  predicate Flies(item: Item) {
    item.state == Sent || item.state == Resent
  }

  /** The slice of the source that belongs to packet `q`, as an item that was never sent. */
  predicate NewItem(cfg: Config, item: Item, q: nat) {
    && item.seqNum == q && item.state == NotSent && item.lastSentTime == 0
    && q <= cfg.last && Offset32(q) + Size(cfg, q) <= |cfg.source|
    && item.data == cfg.source[Offset32(q)..Offset32(q) + Size(cfg, q)]
  }

  /** `t` is 62 percent of `w`, rounded down, but at least 20. */
  predicate Cut(t: nat, w: nat) {
    if 62 * w < 2000 then t == 20 else 100 * t <= 62 * w < 100 * (t + 1)
  }

  lemma CutIsNewThreshold(t: nat, w: nat)
    ensures Cut(t, w) <==> t == NewThreshold(w)
  {
  }

  lemma NewItemIsFresh(cfg: Config, item: Item, q: nat)
    requires q <= cfg.last
    ensures NewItem(cfg, item, q) <==> item == Fresh(cfg, q)
  {
    ChunkIsSlice(cfg, q);
  }

  // ---- the constructor ----

  predicate Starts(cfg: Config, s: Sender) {
    && s.bytesSent == 0 && s.left == 0
    && |s.window| == Min(10, cfg.last + 1)
    && (forall i :: 0 <= i < |s.window| ==> NewItem(cfg, s.window[i], i))
    && s.cwnd == 10 && s.threshold == 0xFFFF_FFFF && s.growAt == 10
    && !s.punished && s.newDataReady
    && s.lastAck == 0 && s.lastAckCount == 0
  }

  lemma StartsIff(cfg: Config, s: Sender)
    ensures Starts(cfg, s) <==> s == Init(cfg)
  {
    SI.FillExtends(cfg, 0, [], CWND_MIN);
    var r := Init(cfg);
    forall i | 0 <= i < |r.window| ensures NewItem(cfg, r.window[i], i) {
      NewItemIsFresh(cfg, r.window[i], i);
    }
    if Starts(cfg, s) {
      forall i | 0 <= i < |s.window| ensures s.window[i] == r.window[i] {
        NewItemIsFresh(cfg, s.window[i], i);
      }
      assert s.window == r.window;
    }
  }

  // ---- prepareDataPacketsToSend ----

  predicate ItemPrepared(before: Item, after: Item, inReach: bool, now: nat) {
    if inReach && Waits(before) then
      after == Item(before.seqNum, if before.state == NotSent then Sent else Resent, now, before.data)
    else
      after == before
  }

  /** A sending round: the waiting items within the congestion window are sent now, both flags
      go down, all else stays. */
  predicate Prepares(s: Sender, now: nat, r: Sender) {
    && r == s.(window := r.window, newDataReady := false, punished := false)
    && |r.window| == |s.window|
    && forall i :: 0 <= i < |s.window| ==> ItemPrepared(s.window[i], r.window[i], i < s.cwnd, now)
  }

  lemma PreparesIff(s: Sender, now: nat, r: Sender)
    ensures Prepares(s, now, r) <==> r == Prepare(s, now)
  {
    var p := Prepare(s, now);
    assert Prepares(s, now, p);
    if Prepares(s, now, r) {
      forall i | 0 <= i < |s.window| ensures r.window[i] == p.window[i] {
        assert ItemPrepared(s.window[i], r.window[i], i < s.cwnd, now);
      }
      assert r.window == p.window;
    }
  }

  // ---- checkTimeout ----

  /** In flight for more than `us`. */
  predicate Late(item: Item, now: nat, us: nat) {
    Flies(item) && now - item.lastSentTime > us
  }

  predicate SomeLate(window: seq<Item>, now: nat, us: nat) {
    exists i :: 0 <= i < |window| && Late(window[i], now, us)
  }

  predicate ItemChecked(before: Item, after: Item, now: nat, us: nat) {
    after == before.(state := if Late(before, now, us) then TimedOut else before.state)
  }

  /** Does some waiting item lie within the congestion window? */
  predicate SomeWaits(s: Sender) {
    exists i :: 0 <= i < |s.window| && i < s.cwnd && Waits(s.window[i])
  }

  /** The congestion variables after a check: the first late item of a round cuts the threshold
      and takes the window back to 10. */
  predicate CheckControls(s: Sender, late: bool, r: Sender) {
    if late && !s.punished then
      r.cwnd == 10 && Cut(r.threshold, s.cwnd) && r.growAt == s.left + 10 && r.punished
    else
      r.cwnd == s.cwnd && r.threshold == s.threshold && r.growAt == s.growAt && r.punished == s.punished
  }

  predicate Checks(s: Sender, now: nat, us: nat, r: Sender) {
    && r.bytesSent == s.bytesSent && r.left == s.left && r.lastAck == s.lastAck && r.lastAckCount == s.lastAckCount
    && |r.window| == |s.window|
    && (forall i :: 0 <= i < |s.window| ==> ItemChecked(s.window[i], r.window[i], now, us))
    && CheckControls(s, SomeLate(s.window, now, us), r)
    && (r.newDataReady <==> s.newDataReady || SomeWaits(r))
  }

  /** No item in flight was sent after `now`. */
  predicate NothingFromLater(s: Sender, now: nat) {
    forall i :: 0 <= i < |s.window| && Flies(s.window[i]) ==> s.window[i].lastSentTime <= now
  }

  lemma LateIsExpired(window: seq<Item>, now: nat, us: nat)
    requires forall i :: 0 <= i < |window| && Flies(window[i]) ==> window[i].lastSentTime <= now
    ensures forall i :: 0 <= i < |window| ==> (Late(window[i], now, us) <==> Expires(window[i], now, us))
    ensures SomeLate(window, now, us) <==> SomeExpires(window, now, us)
  {
    if k :| 0 <= k < |window| && Expires(window[k], now, us) {
      assert Late(window[k], now, us);
    }
  }

  lemma CheckMeets(s: Sender, now: nat, us: nat)
    requires NothingFromLater(s, now)
    ensures Checks(s, now, us, CheckTimeout(s, now, us))
  {
    var r := CheckTimeout(s, now, us);
    LateIsExpired(s.window, now, us);
    CutIsNewThreshold(r.threshold, s.cwnd);
    assert HasPending(r.window, r.cwnd) <==> SomeWaits(r) by {
      PendingWaits(r);
    }
  }

  lemma PendingWaits(s: Sender)
    ensures HasPending(s.window, s.cwnd) <==> SomeWaits(s)
  {
    if k :| 0 <= k < |s.window| && k < s.cwnd && Waits(s.window[k]) {
      assert Pending(s.window[k]);
    }
    if k :| 0 <= k < |s.window| && k < s.cwnd && Pending(s.window[k]) {
      assert Waits(s.window[k]);
    }
  }

  lemma CutUnique(t: nat, u: nat, w: nat)
    requires Cut(t, w) && Cut(u, w)
    ensures t == u
  {
  }

  lemma CheckUnique(s: Sender, now: nat, us: nat, r: Sender, t: Sender)
    requires Checks(s, now, us, r) && Checks(s, now, us, t)
    ensures r == t
  {
    forall i | 0 <= i < |s.window| ensures r.window[i] == t.window[i] {
      assert ItemChecked(s.window[i], r.window[i], now, us) && ItemChecked(s.window[i], t.window[i], now, us);
    }
    assert r.window == t.window;
    if SomeLate(s.window, now, us) && !s.punished {
      CutUnique(r.threshold, t.threshold, s.cwnd);
    }
  }

  lemma ChecksIff(s: Sender, now: nat, us: nat, r: Sender)
    requires NothingFromLater(s, now)
    ensures Checks(s, now, us, r) <==> r == CheckTimeout(s, now, us)
  {
    CheckMeets(s, now, us);
    if Checks(s, now, us, r) {
      CheckUnique(s, now, us, r, CheckTimeout(s, now, us));
    }
  }

  // ---- ackArrived ----

  /** The second repetition of the awaited number. */
  predicate Fires(cfg: Config, s: Sender, cumulative: nat) {
    cfg.fastRetransmission && cumulative == s.lastAck && s.lastAckCount == 1
  }

  /** What the ack makes of the item of packet `q`, if it stays in the window: a selective
      field other than the cumulative one acknowledges it; as the head it is given up when the
      ack fires. */
  function StateAfter(item: Item, q: nat, left: nat, cumulative: nat, selective: nat, fires: bool): ItemState {
    if q == selective != cumulative then Acked
    else if fires && q == left && Flies(item) then TimedOut
    else item.state
  }

  predicate ItemAfter(cfg: Config, s: Sender, cumulative: nat, selective: nat, r: Sender, q: nat)
    requires Holds(r, q)
  {
    if Holds(s, q) then
      At(r, q) == At(s, q).(state := StateAfter(At(s, q), q, s.left, cumulative, selective, Fires(cfg, s, cumulative)))
    else
      NewItem(cfg, At(r, q), q)
  }

  /** The congestion variables after an ack. A firing ack cuts window and threshold once per
      round. Otherwise reaching the growth bound doubles the window up to the threshold, or
      adds 20 from there on. */
  predicate AckControls(cfg: Config, s: Sender, cumulative: nat, r: Sender) {
    && r.punished == (s.punished || Fires(cfg, s, cumulative))
    && if Fires(cfg, s, cumulative) && !s.punished then
         Cut(r.threshold, s.cwnd) && r.cwnd == r.threshold && r.growAt == s.left + r.cwnd
       else
         && r.threshold == s.threshold
         && if r.left >= s.growAt then
              && r.cwnd == s.cwnd + (if s.cwnd < s.threshold then Min(s.cwnd, s.threshold - s.cwnd) else 20)
              && r.growAt == r.left + r.cwnd
            else
              r.cwnd == s.cwnd && r.growAt == s.growAt
  }

  predicate AckCounters(cfg: Config, s: Sender, cumulative: nat, r: Sender) {
    && r.left == Max(s.left, cumulative)
    && r.bytesSent == Min(r.left * 1450, cfg.bytesToSend)
    && r.lastAck == (if cfg.fastRetransmission && cumulative > s.lastAck then cumulative else s.lastAck)
    && r.lastAckCount == (if !cfg.fastRetransmission || cumulative < s.lastAck then s.lastAckCount
                          else if cumulative == s.lastAck then s.lastAckCount + 1 else 0)
  }

  ghost predicate Acks(cfg: Config, s: Sender, cumulative: nat, selective: nat, r: Sender) {
    && AckCounters(cfg, s, cumulative, r)
    && AckControls(cfg, s, cumulative, r)
    && r.left + |r.window| == Max(s.left + |s.window|, Min(r.left + r.cwnd, cfg.last + 1))
    && (forall q: nat :: Holds(r, q) ==> ItemAfter(cfg, s, cumulative, selective, r, q))
    && (r.newDataReady <==> s.newDataReady || SomeWaits(r))
  }

  lemma AckUnique(cfg: Config, s: Sender, cumulative: nat, selective: nat, r: Sender, t: Sender)
    requires Acks(cfg, s, cumulative, selective, r) && Acks(cfg, s, cumulative, selective, t)
    ensures r == t
  {
    if Fires(cfg, s, cumulative) && !s.punished {
      CutUnique(r.threshold, t.threshold, s.cwnd);
    }
    assert r.left == t.left && |r.window| == |t.window|;
    forall i | 0 <= i < |r.window| ensures r.window[i] == t.window[i] {
      SameItem(cfg, s, cumulative, selective, r, t, r.left + i);
    }
    assert r.window == t.window;
  }

  lemma SameItem(cfg: Config, s: Sender, cumulative: nat, selective: nat, r: Sender, t: Sender, q: nat)
    requires Acks(cfg, s, cumulative, selective, r) && Acks(cfg, s, cumulative, selective, t)
    requires r.left == t.left && |r.window| == |t.window| && Holds(r, q)
    ensures At(r, q) == At(t, q)
  {
    assert ItemAfter(cfg, s, cumulative, selective, r, q) && ItemAfter(cfg, s, cumulative, selective, t, q);
  }

  lemma BeforeSlideControls(cfg: Config, s: Sender, cumulative: nat, selective: nat)
    ensures var r := BeforeSlide(cfg, s, cumulative, selective); var fires := Fires(cfg, s, cumulative);
            && r.left == s.left && r.bytesSent == s.bytesSent
            && r.punished == (s.punished || fires)
            && (if fires && !s.punished then
                  Cut(r.threshold, s.cwnd) && r.cwnd == r.threshold && r.growAt == s.left + r.cwnd
                else
                  r.threshold == s.threshold && r.cwnd == s.cwnd && r.growAt == s.growAt)
            && r.lastAck == (if cfg.fastRetransmission && cumulative > s.lastAck then cumulative else s.lastAck)
            && r.lastAckCount == (if !cfg.fastRetransmission || cumulative < s.lastAck then s.lastAckCount
                                  else if cumulative == s.lastAck then s.lastAckCount + 1 else 0)
  {
    CutIsNewThreshold(NewThreshold(s.cwnd), s.cwnd);
  }

  lemma AfterSlideControls(cfg: Config, s: Sender)
    ensures var r := AfterSlide(cfg, s);
            && r.left == s.left && r.bytesSent == s.bytesSent && r.lastAck == s.lastAck && r.lastAckCount == s.lastAckCount
            && r.threshold == s.threshold && r.punished == s.punished
            && (if s.left >= s.growAt then
                  && r.cwnd == s.cwnd + (if s.cwnd < s.threshold then Min(s.cwnd, s.threshold - s.cwnd) else 20)
                  && r.growAt == s.left + r.cwnd
                else
                  r.cwnd == s.cwnd && r.growAt == s.growAt)
            && (r.newDataReady <==> s.newDataReady || SomeWaits(r))
  {
    PendingWaits(AfterSlide(cfg, s));
  }

  lemma AckMeetsControls(cfg: Config, s: Sender, cumulative: nat, selective: nat)
    requires SI.Inv(cfg, s) && Passed(s, cumulative) <= |s.window|
    ensures var r := AckArrived(cfg, s, cumulative, selective);
            AckCounters(cfg, s, cumulative, r) && AckControls(cfg, s, cumulative, r)
  {
    var before := BeforeSlide(cfg, s, cumulative, selective);
    BeforeSlideControls(cfg, s, cumulative, selective);
    SI.BeforeSlideKeeps(cfg, s, cumulative, selective);
    SI.SlideControl(before, cumulative);
    AfterSlideControls(cfg, Slide(before, cumulative));
    SI.AckArrivedKeepsInv(cfg, s, cumulative, selective);
  }

  lemma FastRetransmitItemRule(cfg: Config, s: Sender, cumulative: nat, q: nat)
    requires Holds(s, q)
    ensures var r := FastRetransmit(cfg, s, cumulative); var fires := Fires(cfg, s, cumulative);
            && r.left == s.left && |r.window| == |s.window|
            && At(r, q) == At(s, q).(state := if fires && q == s.left && Flies(At(s, q)) then TimedOut else At(s, q).state)
            && (r.newDataReady <==> s.newDataReady || (fires && s.window != [] && Flies(s.window[0])))
  {
  }

  lemma MarkItemRule(s: Sender, cumulative: nat, selective: nat, q: nat)
    requires Holds(s, q)
    ensures var m := MarkSelective(s, cumulative, selective);
            && m == s.(window := m.window) && |m.window| == |s.window|
            && At(m, q) == At(s, q).(state := if q == selective != cumulative then Acked else At(s, q).state)
  {
  }

  lemma BeforeSlideItemRule(cfg: Config, s: Sender, cumulative: nat, selective: nat, q: nat)
    requires Holds(s, q)
    ensures var r := BeforeSlide(cfg, s, cumulative, selective);
            At(r, q) == At(s, q).(state := StateAfter(At(s, q), q, s.left, cumulative, selective, Fires(cfg, s, cumulative)))
  {
    MarkItemRule(s, cumulative, selective, q);
    FastRetransmitItemRule(cfg, MarkSelective(s, cumulative, selective), cumulative, q);
  }

  lemma AckMeetsItem(cfg: Config, s: Sender, cumulative: nat, selective: nat, q: nat)
    requires SI.Inv(cfg, s) && Passed(s, cumulative) <= |s.window|
    requires Holds(AckArrived(cfg, s, cumulative, selective), q)
    ensures ItemAfter(cfg, s, cumulative, selective, AckArrived(cfg, s, cumulative, selective), q)
  {
    var r := AckArrived(cfg, s, cumulative, selective);
    var before := BeforeSlide(cfg, s, cumulative, selective);
    SI.AckArrivedKeepsInv(cfg, s, cumulative, selective);
    SI.AfterSlideItem(cfg, Slide(before, cumulative), q);
    SI.SlideItem(before, cumulative, q);
    if Holds(s, q) {
      BeforeSlideItemRule(cfg, s, cumulative, selective, q);
    } else {
      NewItemIsFresh(cfg, At(r, q), q);
    }
  }

  lemma AfterSlideReach(cfg: Config, s: Sender)
    requires s.left + |s.window| <= cfg.last + 1
    ensures var r := AfterSlide(cfg, s);
            r.left + |r.window| == Max(s.left + |s.window|, Min(r.left + r.cwnd, cfg.last + 1))
  {
    SI.AfterSlideWindow(cfg, s);
    SI.FillExtends(cfg, s.left, s.window, Grow(s).cwnd);
  }

  lemma AckMeetsReach(cfg: Config, s: Sender, cumulative: nat, selective: nat)
    requires SI.Inv(cfg, s) && Passed(s, cumulative) <= |s.window|
    ensures var r := AckArrived(cfg, s, cumulative, selective);
            r.left + |r.window| == Max(s.left + |s.window|, Min(r.left + r.cwnd, cfg.last + 1))
  {
    var before := BeforeSlide(cfg, s, cumulative, selective);
    SI.BeforeSlideKeeps(cfg, s, cumulative, selective);
    SI.SlideKeeps(cfg, before, cumulative);
    AfterSlideReach(cfg, Slide(before, cumulative));
  }

  /** Giving the head up raises the flag, and leaves it waiting. */
  lemma FiredHeadWaits(cfg: Config, s: Sender, cumulative: nat, selective: nat)
    requires SI.Inv(cfg, s) && Passed(s, cumulative) <= |s.window|
    requires BeforeSlide(cfg, s, cumulative, selective).newDataReady && !s.newDataReady
    ensures SomeWaits(AckArrived(cfg, s, cumulative, selective))
  {
    var m := MarkSelective(s, cumulative, selective);
    var r := AckArrived(cfg, s, cumulative, selective);
    assert s.window != [] && Fires(cfg, s, cumulative) && Flies(m.window[0]);
    SI.AckArrivedKeepsInv(cfg, s, cumulative, selective);
    MarkItemRule(s, cumulative, selective, s.left);
    assert At(m, s.left) == m.window[0];
    AckMeetsItem(cfg, s, cumulative, selective, s.left);
    assert At(r, s.left) == r.window[0] && Waits(r.window[0]);
  }

  lemma AckMeetsFlag(cfg: Config, s: Sender, cumulative: nat, selective: nat)
    requires SI.Inv(cfg, s) && Passed(s, cumulative) <= |s.window|
    ensures var r := AckArrived(cfg, s, cumulative, selective);
            r.newDataReady <==> s.newDataReady || SomeWaits(r)
  {
    var before := BeforeSlide(cfg, s, cumulative, selective);
    AfterSlideControls(cfg, Slide(before, cumulative));
    if before.newDataReady && !s.newDataReady {
      FiredHeadWaits(cfg, s, cumulative, selective);
    }
  }

  lemma AckMeets(cfg: Config, s: Sender, cumulative: nat, selective: nat)
    requires SI.Inv(cfg, s) && Passed(s, cumulative) <= |s.window|
    ensures Acks(cfg, s, cumulative, selective, AckArrived(cfg, s, cumulative, selective))
  {
    var r := AckArrived(cfg, s, cumulative, selective);
    AckMeetsControls(cfg, s, cumulative, selective);
    AckMeetsReach(cfg, s, cumulative, selective);
    AckMeetsFlag(cfg, s, cumulative, selective);
    forall q: nat | Holds(r, q) ensures ItemAfter(cfg, s, cumulative, selective, r, q) {
      AckMeetsItem(cfg, s, cumulative, selective, q);
    }
  }

  lemma AcksIff(cfg: Config, s: Sender, cumulative: nat, selective: nat, r: Sender)
    requires SI.Inv(cfg, s) && Passed(s, cumulative) <= |s.window|
    ensures Acks(cfg, s, cumulative, selective, r) <==> r == AckArrived(cfg, s, cumulative, selective)
  {
    AckMeets(cfg, s, cumulative, selective);
    if Acks(cfg, s, cumulative, selective, r) {
      AckUnique(cfg, s, cumulative, selective, r, AckArrived(cfg, s, cumulative, selective));
    }
  }
}
