/** Marshalling of data packets and acks at fixed offsets, in the little-endian byte order
    both hosts share. */
module Codec {
  import opened Transfer

  const HEADER_SIZE: nat := 22
  const PACKET_SIZE: nat := 1472
  const ACK_SIZE: nat := 26

  // ---- fixed-width integers ----

  function Pow256(n: nat): (p: nat)
    ensures p > 0
  {
    if n == 0 then 1 else 256 * Pow256(n - 1)
  }

  /** The `n` low bytes of `v`, least significant first. */
  function Bytes(v: nat, n: nat): (b: seq<byte>)
    ensures |b| == n
  {
    if n == 0 then [] else [v % 256] + Bytes(v / 256, n - 1)
  }

  function Value(b: seq<byte>): nat {
    if b == [] then 0 else b[0] + 256 * Value(b[1..])
  }

  lemma {:induction false} ValueOfBytes(v: nat, n: nat)
    requires v < Pow256(n)
    ensures Value(Bytes(v, n)) == v
    decreases n
  {
    if n > 0 {
      ValueOfBytes(v / 256, n - 1);
      assert Bytes(v, n)[1..] == Bytes(v / 256, n - 1);
    }
  }

  lemma {:induction false} BytesOfValue(b: seq<byte>)
    ensures Value(b) < Pow256(|b|)
    ensures Bytes(Value(b), |b|) == b
  {
    if b != [] {
      BytesOfValue(b[1..]);
      assert Value(b) / 256 == Value(b[1..]) && Value(b) % 256 == b[0];
      assert b == [b[0]] + b[1..];
    }
  }

  lemma Widths()
    ensures Pow256(4) == WORD && Pow256(8) == 0x1_0000_0000_0000_0000
  {
  }

  // ---- values ----

  datatype Tag = InvalidTag | HandshakeTag | RegularTag | FinishTag

  /** A `struct timeval`: two 64-bit words. */
  datatype Timeval = Timeval(sec: nat, usec: nat)

  datatype DataValue = DataValue(tag: Tag, seqNum: nat, sentTime: Timeval, data: seq<byte>)

  datatype AckValue = AckValue(tag: Tag, cumulative: nat, selective: nat, sentTime: Timeval)

  predicate TimeFits(t: Timeval) {
    t.sec < Pow256(8) && t.usec < Pow256(8)
  }

  /** What the struct can hold and the network can carry. */
  predicate DataFits(v: DataValue) {
    v.tag != InvalidTag && v.seqNum < Pow256(4) && TimeFits(v.sentTime) && |v.data| <= DATA_SIZE
  }

  predicate AckFits(v: AckValue) {
    (v.tag == HandshakeTag || v.tag == RegularTag) && v.cumulative < Pow256(4) && v.selective < Pow256(4) && TimeFits(v.sentTime)
  }

  function TagBytes(tag: Tag): (b: seq<byte>)
    requires tag != InvalidTag
    ensures |b| == 2
  {
    match tag
    case HandshakeTag => ['h' as int, 's' as int]
    case RegularTag => ['r' as int, 'e' as int]
    case FinishTag => ['f' as int, 'i' as int]
  }

  function TimeBytes(t: Timeval): (b: seq<byte>)
    ensures |b| == 16
  {
    Bytes(t.sec, 8) + Bytes(t.usec, 8)
  }

  function TimeOf(b: seq<byte>): Timeval
    requires |b| == 16
  {
    Timeval(Value(b[..8]), Value(b[8..]))
  }

  lemma TimeRoundTrip(t: Timeval)
    requires TimeFits(t)
    ensures TimeOf(TimeBytes(t)) == t
  {
    ValueOfBytes(t.sec, 8);
    ValueOfBytes(t.usec, 8);
    assert TimeBytes(t)[..8] == Bytes(t.sec, 8) && TimeBytes(t)[8..] == Bytes(t.usec, 8);
  }

  lemma TimeBytesRoundTrip(b: seq<byte>)
    requires |b| == 16
    ensures TimeFits(TimeOf(b)) && TimeBytes(TimeOf(b)) == b
  {
    BytesOfValue(b[..8]);
    BytesOfValue(b[8..]);
    assert b == b[..8] + b[8..];
  }

  /** The bytes of a data packet. */
  function EncodeData(v: DataValue): (b: seq<byte>)
    requires v.tag != InvalidTag
    ensures |b| == HEADER_SIZE + |v.data|
  {
    TagBytes(v.tag) + Bytes(v.seqNum, 4) + TimeBytes(v.sentTime) + v.data
  }

  function DataTagOf(b: seq<byte>): Tag
    requires |b| >= 2
  {
    if b[0] == 'h' as int && b[1] == 's' as int then HandshakeTag
    else if b[0] == 'r' as int && b[1] == 'e' as int then RegularTag
    else if b[0] == 'f' as int && b[1] == 'i' as int then FinishTag
    else InvalidTag
  }

  /** The packet in a received datagram; the payload is whatever follows the header. */
  function DecodeData(b: seq<byte>): DataValue
    requires HEADER_SIZE <= |b|
  {
    DataValue(DataTagOf(b), Value(b[2..6]), TimeOf(b[6..22]), b[22..])
  }

  function EncodeAck(v: AckValue): (b: seq<byte>)
    requires v.tag == HandshakeTag || v.tag == RegularTag
    ensures |b| == ACK_SIZE
  {
    TagBytes(v.tag) + Bytes(v.cumulative, 4) + Bytes(v.selective, 4) + TimeBytes(v.sentTime)
  }

  function AckTagOf(b: seq<byte>): Tag
    requires |b| >= 2
  {
    if b[0] == 'h' as int && b[1] == 's' as int then HandshakeTag
    else if b[0] == 'r' as int && b[1] == 'e' as int then RegularTag
    else InvalidTag
  }

  function DecodeAck(b: seq<byte>): AckValue
    requires |b| == ACK_SIZE
  {
    AckValue(AckTagOf(b), Value(b[2..6]), Value(b[6..10]), TimeOf(b[10..26]))
  }

  // ---- round trips ----

  /** Reading what was filled gives the packet back. */
  lemma DecodeEncodeData(v: DataValue)
    requires DataFits(v)
    ensures DecodeData(EncodeData(v)) == v
  {
    var b := EncodeData(v);
    ValueOfBytes(v.seqNum, 4);
    TimeRoundTrip(v.sentTime);
    assert b[2..6] == Bytes(v.seqNum, 4);
    assert b[6..22] == TimeBytes(v.sentTime);
    assert b[22..] == v.data;
    assert b[..2] == TagBytes(v.tag) && b[0] == b[..2][0] && b[1] == b[..2][1];
  }

  /** Filling what was read gives the datagram back, for every recognised tag. */
  lemma EncodeDecodeData(b: seq<byte>)
    requires HEADER_SIZE <= |b| <= PACKET_SIZE && DataTagOf(b) != InvalidTag
    ensures DataFits(DecodeData(b)) && EncodeData(DecodeData(b)) == b
  {
    BytesOfValue(b[2..6]);
    TimeBytesRoundTrip(b[6..22]);
    assert TagBytes(DataTagOf(b)) == b[..2];
    assert b == b[..2] + b[2..6] + b[6..22] + b[22..];
  }

  lemma DecodeEncodeAck(v: AckValue)
    requires AckFits(v)
    ensures DecodeAck(EncodeAck(v)) == v
  {
    var b := EncodeAck(v);
    ValueOfBytes(v.cumulative, 4);
    ValueOfBytes(v.selective, 4);
    TimeRoundTrip(v.sentTime);
    assert b[2..6] == Bytes(v.cumulative, 4);
    assert b[6..10] == Bytes(v.selective, 4);
    assert b[10..26] == TimeBytes(v.sentTime);
    assert b[..2] == TagBytes(v.tag) && b[0] == b[..2][0] && b[1] == b[..2][1];
  }

  lemma EncodeDecodeAck(b: seq<byte>)
    requires |b| == ACK_SIZE && AckTagOf(b) != InvalidTag
    ensures AckFits(DecodeAck(b)) && EncodeAck(DecodeAck(b)) == b
  {
    BytesOfValue(b[2..6]);
    BytesOfValue(b[6..10]);
    TimeBytesRoundTrip(b[10..26]);
    AckTagBytes(b);
    AckParts(b);
  }

  lemma AckTagBytes(b: seq<byte>)
    requires |b| == ACK_SIZE && AckTagOf(b) != InvalidTag
    ensures TagBytes(AckTagOf(b)) == b[..2]
  {
  }

  lemma AckParts(b: seq<byte>)
    requires |b| == ACK_SIZE
    ensures b == b[..2] + b[2..6] + b[6..10] + b[10..26]
  {
  }

  // ---- the layout, byte by byte ----

  function LittleEndian(b0: nat, b1: nat, b2: nat, b3: nat): nat {
    b0 + 0x100 * b1 + 0x1_0000 * b2 + 0x100_0000 * b3
  }

  lemma FourBytes(b: seq<byte>)
    requires |b| == 4
    ensures Value(b) == LittleEndian(b[0], b[1], b[2], b[3])
  {
    assert b[1..][1..] == b[2..] && b[2..][1..] == b[3..] && b[3..][1..] == [];
    assert Value(b[3..]) == b[3] as nat;
    assert Value(b[2..]) == b[2] as nat + 256 * Value(b[3..]);
    assert Value(b[1..]) == b[1] as nat + 256 * Value(b[2..]);
  }

  lemma EightBytes(b: seq<byte>)
    requires |b| == 8
    ensures Value(b) == Value(b[..4]) + 0x1_0000_0000 * Value(b[4..])
  {
    SplitValue(b, 4);
  }

  lemma {:induction false} SplitValue(b: seq<byte>, n: nat)
    requires n <= |b|
    ensures Value(b) == Value(b[..n]) + Pow256(n) * Value(b[n..])
    decreases n
  {
    if n > 0 {
      SplitValue(b[1..], n - 1);
      assert b[..n][1..] == b[1..][..n - 1] && b[1..][n - 1..] == b[n..];
      Distribute(Pow256(n - 1), Value(b[n..]));
    }
  }

  lemma Distribute(p: nat, v: nat)
    ensures 256 * (p * v) == (256 * p) * v
  {
  }

  /** The little-endian word in bytes at..at + 4. */
  function WordAt(b: seq<byte>, at: nat): nat
    requires at + 4 <= |b|
  {
    LittleEndian(b[at], b[at + 1], b[at + 2], b[at + 3])
  }

  /** The two words of a `struct timeval`, each of two little-endian halves. */
  predicate TimeAt(b: seq<byte>, at: nat, t: Timeval) {
    && at + 16 <= |b|
    && t.sec == WordAt(b, at) + 0x1_0000_0000 * WordAt(b, at + 4)
    && t.usec == WordAt(b, at + 8) + 0x1_0000_0000 * WordAt(b, at + 12)
  }

  lemma WordIsAt(b: seq<byte>, at: nat)
    requires at + 4 <= |b|
    ensures Value(b[at..at + 4]) == WordAt(b, at)
  {
    FourBytes(b[at..at + 4]);
  }

  lemma SliceOfSlice(b: seq<byte>, i: nat, j: nat, k: nat, l: nat)
    requires i <= j <= |b| && k <= l <= j - i
    ensures b[i..j][k..l] == b[i + k..i + l]
  {
    var x, y := b[i..j][k..l], b[i + k..i + l];
    forall m | 0 <= m < l - k ensures x[m] == y[m] {
      assert x[m] == b[i..j][k + m];
    }
  }

  lemma TimeIsAt(b: seq<byte>, at: nat)
    requires at + 16 <= |b|
    ensures TimeAt(b, at, TimeOf(b[at..at + 16]))
  {
    var x := b[at..at + 16];
    SliceOfSlice(b, at, at + 16, 0, 8);
    SliceOfSlice(b, at, at + 16, 8, 16);
    EightBytesAt(b, at);
    EightBytesAt(b, at + 8);
    assert x[..8] == x[0..8] && x[8..] == x[8..16];
  }

  lemma EightBytesAt(b: seq<byte>, at: nat)
    requires at + 8 <= |b|
    ensures Value(b[at..at + 8]) == WordAt(b, at) + 0x1_0000_0000 * WordAt(b, at + 4)
  {
    var x := b[at..at + 8];
    SliceOfSlice(b, at, at + 8, 0, 4);
    SliceOfSlice(b, at, at + 8, 4, 8);
    assert x[..4] == x[0..4] && x[4..] == x[4..8];
    EightBytes(x);
    WordIsAt(b, at);
    WordIsAt(b, at + 4);
  }

  predicate TagAt(b: seq<byte>, tag: Tag) {
    |b| >= 2 && match tag
                case HandshakeTag => b[..2] == [0x68, 0x73]
                case RegularTag => b[..2] == [0x72, 0x65]
                case FinishTag => b[..2] == [0x66, 0x69]
                case InvalidTag => false
  }

  /** A data packet on the wire: `hs`, `re` or `fi`, the number, the send time, the payload. */
  predicate DataLayout(b: seq<byte>, v: DataValue) {
    |b| == 22 + |v.data| && TagAt(b, v.tag) && WordAt(b, 2) == v.seqNum && TimeAt(b, 6, v.sentTime) && b[22..] == v.data
  }

  /** An ack on the wire: `hs` or `re`, the cumulative and the selective number, the time. */
  predicate AckLayout(b: seq<byte>, v: AckValue) {
    && |b| == 26 && TagAt(b, v.tag) && v.tag != FinishTag
    && WordAt(b, 2) == v.cumulative && WordAt(b, 6) == v.selective && TimeAt(b, 10, v.sentTime)
  }

  lemma EncodingIsLaidOut(v: DataValue)
    requires DataFits(v)
    ensures DataLayout(EncodeData(v), v)
  {
    var e := EncodeData(v);
    DecodeEncodeData(v);
    WordIsAt(e, 2);
    TimeIsAt(e, 6);
    assert TagBytes(v.tag) == e[..2];
  }

  /** Bytes have the layout of a packet exactly when they are its encoding. */
  lemma EncodedIffLaidOut(b: seq<byte>, v: DataValue)
    requires DataFits(v)
    ensures DataLayout(b, v) <==> b == EncodeData(v)
  {
    EncodingIsLaidOut(v);
    if DataLayout(b, v) {
      LaidOutIsDecoded(b, v);
      EncodeDecodeData(b);
    }
  }

  lemma LaidOutIsDecoded(b: seq<byte>, v: DataValue)
    requires DataFits(v) && DataLayout(b, v)
    ensures |b| <= PACKET_SIZE && DataTagOf(b) == v.tag && DecodeData(b) == v
  {
    assert b[..2][0] == b[0] && b[..2][1] == b[1];
    WordIsAt(b, 2);
    TimeIsAt(b, 6);
    TimeUnique(b, 6, TimeOf(b[6..22]), v.sentTime);
  }

  lemma TimeUnique(b: seq<byte>, at: nat, t: Timeval, u: Timeval)
    requires TimeAt(b, at, t) && TimeAt(b, at, u)
    ensures t == u
  {
  }

  lemma AckEncodingIsLaidOut(v: AckValue)
    requires AckFits(v)
    ensures AckLayout(EncodeAck(v), v)
  {
    var e := EncodeAck(v);
    DecodeEncodeAck(v);
    WordIsAt(e, 2);
    WordIsAt(e, 6);
    TimeIsAt(e, 10);
    assert TagBytes(v.tag) == e[..2];
  }

  /** And bytes have the layout of an ack exactly when they are its encoding. */
  lemma AckEncodedIffLaidOut(b: seq<byte>, v: AckValue)
    requires AckFits(v)
    ensures AckLayout(b, v) <==> b == EncodeAck(v)
  {
    AckEncodingIsLaidOut(v);
    if AckLayout(b, v) {
      AckLaidOutIsDecoded(b, v);
      EncodeDecodeAck(b);
    }
  }

  lemma AckLaidOutIsDecoded(b: seq<byte>, v: AckValue)
    requires AckFits(v) && AckLayout(b, v)
    ensures AckTagOf(b) == v.tag && DecodeAck(b) == v
  {
    assert b[..2][0] == b[0] && b[..2][1] == b[1];
    WordIsAt(b, 2);
    WordIsAt(b, 6);
    TimeIsAt(b, 10);
    TimeUnique(b, 10, TimeOf(b[10..26]), v.sentTime);
  }

  // ---- the buffers and structs ----

  /** `struct DataPacket` */
  class DataStruct {
    var tag: Tag
    var seqNum: nat
    var sentTime: Timeval
    var data: seq<byte>

    constructor (v: DataValue)
      ensures Value() == v
    {
      tag, seqNum, sentTime, data := v.tag, v.seqNum, v.sentTime, v.data;
    }

    function Value(): DataValue
      reads this
    {
      DataValue(tag, seqNum, sentTime, data)
    }
  }

  /** `struct AckPacket` */
  class AckStruct {
    var tag: Tag
    var cumulative: nat
    var selective: nat
    var sentTime: Timeval

    constructor (v: AckValue)
      ensures Value() == v
    {
      tag, cumulative, selective, sentTime := v.tag, v.cumulative, v.selective, v.sentTime;
    }

    function Value(): AckValue
      reads this
    {
      AckValue(tag, cumulative, selective, sentTime)
    }
  }

  /** A store of consecutive bytes: `memcpy`, or an assignment through a cast pointer. */
  method Put(buffer: array<byte>, at: nat, bytes: seq<byte>)
    requires at + |bytes| <= buffer.Length
    modifies buffer
    ensures buffer[..] == old(buffer[..at]) + bytes + old(buffer[at + |bytes|..])
  {
    var i := 0;
    while i < |bytes|
      invariant i <= |bytes|
      invariant buffer[..at + i] == old(buffer[..at]) + bytes[..i]
      invariant buffer[at + i..] == old(buffer[at + i..])
    {
      buffer[at + i] := bytes[i];
      i := i + 1;
    }
    assert buffer[..] == buffer[..at + i] + buffer[at + i..];
  }

  method FillBufferDataPacket(p: DataStruct, buffer: array<byte>) returns (size: nat)
    requires p.tag != InvalidTag && HEADER_SIZE + |p.data| <= buffer.Length
    modifies buffer
    ensures size == HEADER_SIZE + |p.data|
    ensures buffer[..size] == EncodeData(p.Value())
    ensures buffer[size..] == old(buffer[size..])
  {
    ghost var rest, head := buffer[..], TagBytes(p.tag);
    Put(buffer, 0, TagBytes(p.tag));
    Put(buffer, 2, Bytes(p.seqNum, 4));
    head := head + Bytes(p.seqNum, 4);
    assert buffer[..] == head + rest[6..];
    Put(buffer, 6, TimeBytes(p.sentTime));
    head := head + TimeBytes(p.sentTime);
    assert buffer[..] == head + rest[22..];
    Put(buffer, 22, p.data);
    size := HEADER_SIZE + |p.data|;
    assert buffer[..] == head + p.data + rest[size..];
  }

  /** An unrecognised tag leaves the other fields as they were. */
  method ReadBufferDataPacket(p: DataStruct, buffer: array<byte>, length: nat)
    requires HEADER_SIZE <= length <= PACKET_SIZE && length <= buffer.Length
    modifies p
    ensures DataTagOf(buffer[..length]) != InvalidTag ==> p.Value() == DecodeData(buffer[..length])
    ensures DataTagOf(buffer[..length]) == InvalidTag ==> p.Value() == old(p.Value()).(tag := InvalidTag)
  {
    var b := buffer[..length];
    p.tag := DataTagOf(b);
    if p.tag == InvalidTag {
      return;
    }
    p.seqNum := Value(b[2..6]);
    p.sentTime := TimeOf(b[6..22]);
    p.data := b[22..];
  }

  method FillBufferAckPacket(p: AckStruct, buffer: array<byte>) returns (size: nat)
    requires (p.tag == HandshakeTag || p.tag == RegularTag) && ACK_SIZE <= buffer.Length
    modifies buffer
    ensures size == ACK_SIZE
    ensures buffer[..size] == EncodeAck(p.Value())
    ensures buffer[size..] == old(buffer[size..])
  {
    ghost var rest, head := buffer[..], TagBytes(p.tag);
    Put(buffer, 0, TagBytes(p.tag));
    Put(buffer, 2, Bytes(p.cumulative, 4));
    head := head + Bytes(p.cumulative, 4);
    assert buffer[..] == head + rest[6..];
    Put(buffer, 6, Bytes(p.selective, 4));
    head := head + Bytes(p.selective, 4);
    assert buffer[..] == head + rest[10..];
    Put(buffer, 10, TimeBytes(p.sentTime));
    size := ACK_SIZE;
    assert buffer[..] == head + TimeBytes(p.sentTime) + rest[size..];
  }

  method ReadBufferAckPacket(p: AckStruct, buffer: array<byte>, length: nat)
    requires length == ACK_SIZE && length <= buffer.Length
    modifies p
    ensures AckTagOf(buffer[..length]) != InvalidTag ==> p.Value() == DecodeAck(buffer[..length])
    ensures AckTagOf(buffer[..length]) == InvalidTag ==> p.Value() == old(p.Value()).(tag := InvalidTag)
  {
    var b := buffer[..length];
    p.tag := AckTagOf(b);
    if p.tag == InvalidTag {
      return;
    }
    p.cumulative := Value(b[2..6]);
    p.selective := Value(b[6..10]);
    p.sentTime := TimeOf(b[10..26]);
  }
}
