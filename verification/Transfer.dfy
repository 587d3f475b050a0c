/** What one transfer is about: the source bytes, how they are cut into numbered
    packets, and the 32-bit file offsets at which both ends seek. */
module Transfer {
  /** Payload bytes of a full data packet: 1500 - 28 - 22. */
  const DATA_SIZE: nat := 1450

  /** One more than the largest value of an `unsigned int`. */
  const WORD: nat := 0x1_0000_0000

  type byte = x: int | 0 <= x < 256

  datatype Option<T> = None | Some(value: T)

  function Min(a: int, b: int): int {
    if a <= b then a else b
  }

  function Max(a: int, b: int): int {
    if a >= b then a else b
  }

  /** The number of the last packet, by the two cases of the sender's constructor. */
  function LastNumber(bytesToSend: nat): nat
    requires bytesToSend > 0
  {
    if bytesToSend % DATA_SIZE == 0 then bytesToSend / DATA_SIZE - 1 else bytesToSend / DATA_SIZE
  }

  /** The size of the last packet. The product is taken in 32 bits and the difference is cut
      back to 32 bits, as in the C++ expression. */
  function SizeOfLast(bytesToSend: nat): nat
    requires bytesToSend > 0
  {
    if bytesToSend % DATA_SIZE == 0 then DATA_SIZE
    else (bytesToSend - Offset32(LastNumber(bytesToSend))) % WORD
  }

  /** `getElapsedUs`: a difference of `unsigned long`s, so a negative one wraps. */
  function Elapsed(before: nat, after: nat): nat {
    if after >= before then after - before else (after - before) % 0x1_0000_0000_0000_0000
  }

  /** What is fixed for one transfer: the file behind `fileToSendFd`, the number of bytes
      asked for, `lastPacketSeqNum` and `lastPacketSize`, and whether fast retransmission is
      on. */
  datatype RawConfig = RawConfig(
    source: seq<byte>, bytesToSend: nat, last: nat, lastSize: nat, fastRetransmission: bool)
  {
    /** The payload `readFile` loads for packet `q`. */
    function Chunk(q: nat): seq<byte> {
      ReadFile(source, q, if q == last then lastSize else DATA_SIZE)
    }

    /** A transfer the model covers: there is something to send, the file is long enough,
        and `curCongestionWindow`, at most `2 * left + 20`, can be doubled in 32 bits. */
    predicate Permitted() {
      && 0 < bytesToSend <= |source|
      && last == LastNumber(bytesToSend)
      && lastSize == SizeOfLast(bytesToSend)
      && 4 * (last + 1) + 40 < WORD
    }
  }

  function ConfigFor(source: seq<byte>, bytesToSend: nat, fastRetransmission: bool): RawConfig
    requires bytesToSend > 0
  {
    RawConfig(source, bytesToSend, LastNumber(bytesToSend), SizeOfLast(bytesToSend), fastRetransmission)
  }

  type Config = c: RawConfig | c.Permitted() witness RawConfig([0], 1, 0, 1, true)

  /** `seqNum * DATA_PACKET_DATA_SIZE` as an `unsigned int`. */
  function Offset32(q: nat): nat {
    (q * DATA_SIZE) % WORD
  }

  /** `lseek` to the 32-bit offset, then `read` of at most `size` bytes. */
  function ReadFile(source: seq<byte>, q: nat, size: nat): seq<byte> {
    var offset := Offset32(q);
    if offset >= |source| then [] else source[offset..Min(offset + size, |source|)]
  }

  /** The number of bytes of the transfer that belong to packet `q`. */
  function Size(cfg: Config, q: nat): int {
    Min(DATA_SIZE, cfg.bytesToSend - q * DATA_SIZE)
  }

  /** The numbers 0..Last cut the transfer without a gap, and the wrapped 32-bit arithmetic
      of the constructor still yields the true size of the last packet. */
  lemma LastPacket(cfg: Config)
    ensures cfg.last * DATA_SIZE < cfg.bytesToSend <= (cfg.last + 1) * DATA_SIZE
    ensures cfg.lastSize == cfg.bytesToSend - cfg.last * DATA_SIZE
  {
  }

  /** Every packet of a permitted transfer is read in full, from its 32-bit offset. */
  lemma ChunkIsSlice(cfg: Config, q: nat)
    requires q <= cfg.last
    ensures Offset32(q) <= q * DATA_SIZE
    ensures 0 < Size(cfg, q) <= DATA_SIZE
    ensures Offset32(q) + Size(cfg, q) <= |cfg.source|
    ensures cfg.Chunk(q) == cfg.source[Offset32(q)..Offset32(q) + Size(cfg, q)]
  {
    LastPacket(cfg);
  }

  /** The largest packet number whose true offset fits 32 bits. */
  const LAST_EXACT: nat := 2962046

  /** The 32-bit offsets of packets 0..last are the true ones exactly when
      `last <= 2962046`, that is, for transfers of at most 4294968150 bytes. */
  lemma OffsetsExact(last: nat)
    ensures (forall q: nat | q <= last :: Offset32(q) == q * DATA_SIZE) <==> last <= LAST_EXACT
  {
    if last > LAST_EXACT {
      assert Offset32(LAST_EXACT + 1) != (LAST_EXACT + 1) * DATA_SIZE;
    }
  }

  /** Under that bound no two packets touch the same byte of the file. */
  lemma RangesDisjoint(cfg: Config, a: nat, b: nat, o: nat)
    requires cfg.last <= LAST_EXACT
    requires a <= cfg.last && b <= cfg.last
    requires Offset32(a) <= o < Offset32(a) + Size(cfg, a)
    requires Offset32(b) <= o < Offset32(b) + Size(cfg, b)
    ensures a == b
  {
    OffsetsExact(cfg.last);
    assert Offset32(a) == a * DATA_SIZE && Offset32(b) == b * DATA_SIZE;
  }
}
