/** Data packets and acks as the two endpoints see them, after the codec. */
module Packets {
  import opened Transfer

  datatype PacketType = Handshake | Regular | Finish

  datatype Packet = Packet(ptype: PacketType, seqNum: nat, sentTime: nat, data: seq<byte>)

  datatype AckType = HandshakeAck | RegularAck

  datatype Ack = Ack(atype: AckType, cumulative: nat, selective: nat, sentTime: nat)
}
