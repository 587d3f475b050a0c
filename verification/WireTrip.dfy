/** The codec is transparent to the protocol: every message of every run fits its wire format
    and is read back as it was sent, and elapsed times survive the split into seconds. */
module WireTrip {
  import opened Transfer
  import opened Packets
  import opened Protocol
  import opened ProtocolInvariant
  import Codec
  import RI = ReceiverInvariant

  const SECOND: nat := 1_000_000

  function ToTimeval(us: nat): Codec.Timeval {
    Codec.Timeval(us / SECOND, us % SECOND)
  }

  function OfTimeval(t: Codec.Timeval): nat {
    t.sec * SECOND + t.usec
  }

  /** `getElapsedUs`, on the two words of each time, without wrapping. */
  function ElapsedUs(before: Codec.Timeval, after: Codec.Timeval): int {
    (after.sec - before.sec) * 1000 * 1000 + (after.usec - before.usec)
  }

  function TagOf(p: PacketType): Codec.Tag {
    match p
    case Handshake => Codec.HandshakeTag
    case Regular => Codec.RegularTag
    case Finish => Codec.FinishTag
  }

  function ToWire(p: Packet): Codec.DataValue {
    Codec.DataValue(TagOf(p.ptype), p.seqNum, ToTimeval(p.sentTime), p.data)
  }

  function AckToWire(a: Ack): Codec.AckValue {
    Codec.AckValue(if a.atype == HandshakeAck then Codec.HandshakeTag else Codec.RegularTag,
                   a.cumulative, a.selective, ToTimeval(a.sentTime))
  }

  /** What a receiver makes of a datagram; nothing if the tag is not recognised. */
  function ReadData(b: seq<byte>): Option<Packet>
    requires Codec.HEADER_SIZE <= |b| <= Codec.PACKET_SIZE
  {
    var v := Codec.DecodeData(b);
    match v.tag
    case InvalidTag => None
    case HandshakeTag => Some(Packet(Handshake, v.seqNum, OfTimeval(v.sentTime), v.data))
    case RegularTag => Some(Packet(Regular, v.seqNum, OfTimeval(v.sentTime), v.data))
    case FinishTag => Some(Packet(Finish, v.seqNum, OfTimeval(v.sentTime), v.data))
  }

  function ReadAck(b: seq<byte>): Option<Ack>
    requires |b| == Codec.ACK_SIZE
  {
    var v := Codec.DecodeAck(b);
    match v.tag
    case HandshakeTag => Some(Ack(HandshakeAck, v.cumulative, v.selective, OfTimeval(v.sentTime)))
    case RegularTag => Some(Ack(RegularAck, v.cumulative, v.selective, OfTimeval(v.sentTime)))
    case _ => None
  }

  lemma ElapsedSurvives(before: nat, after: nat)
    ensures OfTimeval(ToTimeval(before)) == before
    ensures ElapsedUs(ToTimeval(before), ToTimeval(after)) == after - before
  {
  }

  /** The clock fits a `struct timeval`. */
  predicate ClockFits(clock: nat) {
    clock / SECOND < 0x1_0000_0000_0000_0000
  }

  lemma TimeFits(us: nat, clock: nat)
    requires us <= clock && ClockFits(clock)
    ensures Codec.TimeFits(ToTimeval(us))
  {
  }

  /** Every packet ever sent survives the wire. */
  lemma PacketsSurviveWire(cfg: Config, sys: System, p: Packet)
    requires Reachable(cfg, sys) && ClockFits(sys.clock) && p in sys.sentPackets
    ensures |Codec.EncodeData(ToWire(p))| <= Codec.PACKET_SIZE
    ensures ReadData(Codec.EncodeData(ToWire(p))) == Some(p)
  {
    ReachableInv(cfg, sys);
    TimeFits(p.sentTime, sys.clock);
    ElapsedSurvives(p.sentTime, sys.clock);
    Codec.Widths();
    if p.ptype != Handshake {
      ChunkIsSlice(cfg, p.seqNum);
    }
    Codec.DecodeEncodeData(ToWire(p));
  }

  /** Every ack ever sent survives the wire. */
  lemma AcksSurviveWire(cfg: Config, sys: System, a: Ack)
    requires Reachable(cfg, sys) && ClockFits(sys.clock) && a in sys.sentAcks
    ensures ReadAck(Codec.EncodeAck(AckToWire(a))) == Some(a)
  {
    ReachableInv(cfg, sys);
    Coupling(cfg, sys);
    TimeFits(a.sentTime, sys.clock);
    ElapsedSurvives(a.sentTime, sys.clock);
    Codec.Widths();
    assert AckOk(a, RI.Received(sys.receiver), sys.receiver.next, sys.clock);
    assert a.selective < WORD;
    Codec.DecodeEncodeAck(AckToWire(a));
  }
}
