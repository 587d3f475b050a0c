/** The sender's sliding window as pure steps. Each public method of `SlideWindowSender` runs
    under one lock, so each is one step here; `AckArrived` is split along the comments of the
    original into its six phases. */
module SenderModel {
  import opened Transfer
  import opened Packets

  const CWND_MIN: nat := 10
  const THRESHOLD_MIN: nat := 20
  const UINT_MAX: nat := 0xFFFF_FFFF
  const DUP_ACKS: nat := 2

  datatype ItemState = NotSent | Sent | TimedOut | Resent | Acked

  datatype Item = Item(seqNum: nat, state: ItemState, lastSentTime: nat, data: seq<byte>)

  /** The fields of `SlideWindowSender` that change. `growAt` is `congestionLeftBoundSeqNum`
      and `punished` is `curCongestionWindowTimeouted`. */
  datatype Sender = Sender(
    bytesSent: nat,
    left: nat,
    window: seq<Item>,
    cwnd: nat,
    threshold: nat,
    growAt: nat,
    punished: bool,
    newDataReady: bool,
    lastAck: nat,
    lastAckCount: nat)

  /** An item waiting to be put on the wire. */
  predicate Pending(item: Item) {
    item.state == NotSent || item.state == TimedOut
  }

  predicate HasPending(window: seq<Item>, cwnd: nat) {
    exists i :: 0 <= i < |window| && i < cwnd && Pending(window[i])
  }

  /** Is packet `q` in the window? */
  predicate Holds(s: Sender, q: nat) {
    s.left <= q < s.left + |s.window|
  }

  function At(s: Sender, q: nat): Item
    requires Holds(s, q)
  {
    s.window[q - s.left]
  }

  function Fresh(cfg: Config, q: nat): Item {
    Item(q, NotSent, 0, cfg.Chunk(q))
  }

  /** Appends unsent items until the window holds `cwnd` of them or the last packet is in. */
  function Fill(cfg: Config, left: nat, window: seq<Item>, cwnd: nat): seq<Item>
    decreases cwnd - |window|
  {
    if |window| < cwnd && left + |window| <= cfg.last then
      Fill(cfg, left, window + [Fresh(cfg, left + |window|)], cwnd)
    else
      window
  }

  function Init(cfg: Config): Sender {
    Sender(0, 0, Fill(cfg, 0, [], CWND_MIN), CWND_MIN, UINT_MAX, CWND_MIN, false, true, 0, 0)
  }

  predicate Finished(cfg: Config, s: Sender) {
    s.bytesSent == cfg.bytesToSend
  }

  predicate HasDataToSend(cfg: Config, s: Sender) {
    !Finished(cfg, s) && s.newDataReady
  }

  // ---- prepareDataPacketsToSend ----

  function ToPacket(cfg: Config, item: Item, now: nat): Packet {
    Packet(if item.seqNum == cfg.last then Finish else Regular, item.seqNum, now, item.data)
  }

  function Transmit(item: Item, now: nat): Item {
    item.(state := if item.state == NotSent then Sent else Resent, lastSentTime := now)
  }

  /** The packets emitted for the first `n` items, in order. */
  function Emitted(cfg: Config, window: seq<Item>, n: nat, now: nat): seq<Packet>
    requires n <= |window|
  {
    if n == 0 then []
    else Emitted(cfg, window, n - 1, now) + (if Pending(window[n - 1]) then [ToPacket(cfg, window[n - 1], now)] else [])
  }

  /** The window after the first `n` items had their turn. */
  function Transmitted(window: seq<Item>, n: nat, now: nat): seq<Item> {
    seq(|window|, i requires 0 <= i < |window| =>
      if i < n && Pending(window[i]) then Transmit(window[i], now) else window[i])
  }

  function InReach(s: Sender): nat {
    Min(s.cwnd, |s.window|)
  }

  function PreparedPackets(cfg: Config, s: Sender, now: nat): seq<Packet> {
    Emitted(cfg, s.window, InReach(s), now)
  }

  function Prepare(s: Sender, now: nat): Sender {
    s.(window := Transmitted(s.window, InReach(s), now), newDataReady := false, punished := false)
  }

  // ---- ackArrived ----

  /** The selective field is ignored when it equals the cumulative one. */
  predicate SelectiveHits(s: Sender, cumulative: nat, selective: nat) {
    cumulative != selective && s.left <= selective < s.left + |s.window|
  }

  function MarkSelective(s: Sender, cumulative: nat, selective: nat): Sender {
    if SelectiveHits(s, cumulative, selective) then
      var i := selective - s.left;
      s.(window := s.window[i := s.window[i].(state := Acked)])
    else s
  }

  /** 0.62 of the window, truncated. */
  function Shrunk(cwnd: nat): nat {
    cwnd * 62 / 100
  }

  function NewThreshold(cwnd: nat): nat {
    Max(Shrunk(cwnd), THRESHOLD_MIN)
  }

  /** The second repetition of an ack triggers a retransmission. */
  predicate FastFires(cfg: Config, s: Sender, cumulative: nat) {
    cfg.fastRetransmission && s.lastAck == cumulative && s.lastAckCount + 1 == DUP_ACKS
  }

  function FastPunish(s: Sender): Sender {
    if s.punished then s
    else
      var w := NewThreshold(s.cwnd);
      s.(threshold := w, cwnd := w, growAt := s.left + w, punished := true)
  }

  function RetransmitHead(s: Sender): Sender {
    if |s.window| > 0 && (s.window[0].state == Sent || s.window[0].state == Resent) then
      s.(window := s.window[0 := s.window[0].(state := TimedOut)], newDataReady := true)
    else s
  }

  function CountDuplicate(cfg: Config, s: Sender, cumulative: nat): Sender {
    if !cfg.fastRetransmission then s
    else if s.lastAck == cumulative then s.(lastAckCount := s.lastAckCount + 1)
    else if s.lastAck < cumulative then s.(lastAck := cumulative, lastAckCount := 0)
    else s
  }

  function FastRetransmit(cfg: Config, s: Sender, cumulative: nat): Sender {
    var counted := CountDuplicate(cfg, s, cumulative);
    if FastFires(cfg, s, cumulative) then RetransmitHead(FastPunish(counted)) else counted
  }

  function TotalSize(items: seq<Item>): nat {
    if items == [] then 0 else |items[0].data| + TotalSize(items[1..])
  }

  /** The number of items a cumulative ack takes off the window. */
  function Passed(s: Sender, cumulative: nat): nat {
    if cumulative > s.left then cumulative - s.left else 0
  }

  function Slide(s: Sender, cumulative: nat): Sender
    requires Passed(s, cumulative) <= |s.window|
  {
    var n := Passed(s, cumulative);
    s.(bytesSent := s.bytesSent + TotalSize(s.window[..n]), left := s.left + n, window := s.window[n..])
  }

  predicate Grows(s: Sender) {
    s.left >= s.growAt
  }

  function Grown(cwnd: nat, threshold: nat): nat {
    if cwnd < threshold then Min(2 * cwnd, threshold) else cwnd + THRESHOLD_MIN
  }

  function Grow(s: Sender): Sender {
    if Grows(s) then
      var w := Grown(s.cwnd, s.threshold);
      s.(cwnd := w, growAt := s.left + w)
    else s
  }

  function Refill(cfg: Config, s: Sender): Sender {
    s.(window := Fill(cfg, s.left, s.window, s.cwnd))
  }

  function Rescan(s: Sender): Sender {
    s.(newDataReady := s.newDataReady || HasPending(s.window, s.cwnd))
  }

  /** The part of `ackArrived` before the window slides. */
  function BeforeSlide(cfg: Config, s: Sender, cumulative: nat, selective: nat): (r: Sender)
    ensures r.left == s.left && |r.window| == |s.window|
  {
    FastRetransmit(cfg, MarkSelective(s, cumulative, selective), cumulative)
  }

  /** The part of `ackArrived` after the window has slid. */
  function AfterSlide(cfg: Config, s: Sender): Sender {
    Rescan(Refill(cfg, Grow(s)))
  }

  /** Popping more items than the deque holds is undefined behaviour, so the number of items
      to pop must be in the window; that it always is, is a theorem about the whole system. */
  function AckArrived(cfg: Config, s: Sender, cumulative: nat, selective: nat): Sender
    requires Passed(s, cumulative) <= |s.window|
  {
    AfterSlide(cfg, Slide(BeforeSlide(cfg, s, cumulative, selective), cumulative))
  }

  // ---- checkTimeout ----

  predicate Expires(item: Item, now: nat, timeoutUs: nat) {
    (item.state == Sent || item.state == Resent) && Elapsed(item.lastSentTime, now) > timeoutUs
  }

  function Expire(window: seq<Item>, now: nat, timeoutUs: nat): seq<Item> {
    seq(|window|, i requires 0 <= i < |window| =>
      if Expires(window[i], now, timeoutUs) then window[i].(state := TimedOut) else window[i])
  }

  predicate SomeExpires(window: seq<Item>, now: nat, timeoutUs: nat) {
    exists i :: 0 <= i < |window| && Expires(window[i], now, timeoutUs)
  }

  /** Does this check shrink the congestion window? */
  predicate TimeoutPunishes(s: Sender, now: nat, timeoutUs: nat) {
    !s.punished && SomeExpires(s.window, now, timeoutUs)
  }

  function TimeoutPunish(s: Sender): Sender {
    s.(threshold := NewThreshold(s.cwnd), cwnd := CWND_MIN, growAt := s.left + CWND_MIN, punished := true)
  }

  function CheckTimeout(s: Sender, now: nat, timeoutUs: nat): Sender {
    var marked := s.(window := Expire(s.window, now, timeoutUs));
    Rescan(if TimeoutPunishes(s, now, timeoutUs) then TimeoutPunish(marked) else marked)
  }
}
