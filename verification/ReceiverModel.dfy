/** The receiver's sliding window as a pure step, with the file it writes. */
module ReceiverModel {
  import opened Transfer
  import opened Packets

  const WINDOW_SIZE: nat := 200

  datatype Slot = Slot(seqNum: nat, received: bool)

  /** The bytes written so far, by file offset. */
  type File = map<nat, byte>

  /** The fields of `SlideWindowReceiver` that change. */
  datatype RawReceiver = RawReceiver(lastSeen: bool, last: nat, next: nat, window: seq<Slot>, file: File)

  /** Between calls the window always holds 200 slots. */
  type Receiver = r: RawReceiver | |r.window| == WINDOW_SIZE witness RawReceiver(false, 0, 0, EmptySlots(0, WINDOW_SIZE), map[])

  function EmptySlots(start: nat, n: nat): (r: seq<Slot>)
    ensures |r| == n
  {
    seq(n, i requires 0 <= i < n => Slot(start + i, false))
  }

  function Init(): Receiver {
    RawReceiver(false, 0, 0, EmptySlots(0, WINDOW_SIZE), map[])
  }

  predicate Finished(r: RawReceiver) {
    r.lastSeen && r.next == r.last + 1
  }

  function ByteFor(offset: nat, data: seq<byte>, o: nat): byte
    requires offset <= o < offset + |data|
  {
    data[o - offset]
  }

  /** `lseek` and `write`. */
  function WriteAt(file: File, offset: nat, data: seq<byte>): File {
    file + (map o: nat | offset <= o < offset + |data| :: ByteFor(offset, data, o))
  }

  predicate InBuffer(r: RawReceiver, q: nat) {
    r.next <= q < r.next + WINDOW_SIZE
  }

  function NoteLast(r: Receiver, p: Packet): Receiver {
    if p.ptype == Finish then r.(last := p.seqNum, lastSeen := true) else r
  }

  /** Writes the payload the first time its number arrives. */
  function Store(r: Receiver, p: Packet): Receiver
    requires InBuffer(r, p.seqNum)
  {
    var i := p.seqNum - r.next;
    if r.window[i].received then r
    else
      r.(window := r.window[i := r.window[i].(received := true)],
         file := WriteAt(r.file, Offset32(r.window[i].seqNum), p.data))
  }

  /** The length of the received run at the head of the window. */
  function Run(window: seq<Slot>): (n: nat)
    ensures n <= |window|
  {
    if window != [] && window[0].received then 1 + Run(window[1..]) else 0
  }

  /** Slides past the received run and tops the window up to 200 slots. */
  function Advance(r: Receiver): Receiver {
    var n := Run(r.window);
    r.(next := r.next + n,
       window := r.window[n..] + EmptySlots(r.next + |r.window|, n))
  }

  function Receive(r: Receiver, p: Packet): Receiver {
    var noted := NoteLast(r, p);
    if InBuffer(r, p.seqNum) then Advance(Store(noted, p)) else noted
  }

  /** The reply to a data packet: cumulative and selective fields are equal when the packet
      was outside the buffer. */
  function Reply(r: Receiver, p: Packet): Ack {
    var next := Receive(r, p).next;
    Ack(RegularAck, next, if InBuffer(r, p.seqNum) then p.seqNum else next, p.sentTime)
  }
}
