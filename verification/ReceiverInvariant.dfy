/** The receiver refines a plain set of received packet numbers, and the file is a function
    of that set. */
module ReceiverInvariant {
  import opened Transfer
  import opened Packets
  import opened ReceiverModel

  /** Has packet `q` arrived within the buffer? */
  predicate Got(r: Receiver, q: nat) {
    q < r.next || (InBuffer(r, q) && r.window[q - r.next].received)
  }

  /** The set of received packet numbers. */
  function Received(r: Receiver): set<nat> {
    set q: nat | q < r.next + WINDOW_SIZE && Got(r, q)
  }

  predicate Covers(cfg: Config, q: nat, o: nat) {
    q <= cfg.last && Offset32(q) <= o < Offset32(q) + Size(cfg, q)
  }

  ghost predicate Covered(cfg: Config, got: set<nat>, o: nat) {
    exists q :: q in got && Covers(cfg, q, o)
  }

  /** The file that holds exactly the packets in `got`. */
  ghost function Placed(cfg: Config, got: set<nat>): File {
    map o: nat | o < |cfg.source| && Covered(cfg, got, o) :: cfg.source[o]
  }

  /** A data packet as the sender builds it. */
  predicate Genuine(cfg: Config, p: Packet) {
    && p.seqNum <= cfg.last
    && p.data == cfg.Chunk(p.seqNum)
    && p.ptype == if p.seqNum == cfg.last then Finish else Regular
  }

  ghost predicate Inv(cfg: Config, r: Receiver) {
    && (forall i :: 0 <= i < WINDOW_SIZE ==> r.window[i].seqNum == r.next + i)
    && !r.window[0].received
    && (forall q :: q in Received(r) ==> q <= cfg.last)
    && (r.lastSeen ==> r.last == cfg.last)
    && (cfg.last in Received(r) ==> r.lastSeen)
    && r.file == Placed(cfg, Received(r))
  }

  lemma InitInv(cfg: Config)
    ensures Inv(cfg, Init()) && Received(Init()) == {}
  {
    assert Received(Init()) == {};
    assert Placed(cfg, {}) == map[];
  }

  lemma GotIsReceived(r: Receiver, q: nat)
    ensures Got(r, q) <==> q in Received(r)
  {
  }

  /** `nextExpectedPacketSeqNum` is the least number not received. */
  lemma NextIsLeastMissing(cfg: Config, r: Receiver)
    requires Inv(cfg, r)
    ensures r.next !in Received(r)
    ensures forall q: nat :: q < r.next ==> q in Received(r)
    ensures r.next <= cfg.last + 1
  {
    if r.next > 0 {
      assert r.next - 1 in Received(r);
    }
  }

  lemma {:induction false} RunIsReceived(window: seq<Slot>)
    ensures forall i :: 0 <= i < Run(window) ==> window[i].received
    ensures Run(window) < |window| ==> !window[Run(window)].received
  {
    if window != [] && window[0].received {
      RunIsReceived(window[1..]);
      assert forall i :: 0 < i < |window| ==> window[i] == window[1..][i - 1];
    }
  }

  /** Sliding and topping up changes no membership, and leaves a head that is still missing,
      even when all 200 slots slide at once. */
  lemma AdvanceKeepsSet(r: Receiver, q: nat)
    ensures Got(Advance(r), q) <==> Got(r, q)
  {
    RunIsReceived(r.window);
  }

  lemma AdvanceHead(r: Receiver)
    requires forall i :: 0 <= i < WINDOW_SIZE ==> r.window[i].seqNum == r.next + i
    ensures var a := Advance(r);
            && !a.window[0].received
            && (forall i :: 0 <= i < WINDOW_SIZE ==> a.window[i].seqNum == a.next + i)
  {
    RunIsReceived(r.window);
  }

  lemma StoreAddsToSet(r: Receiver, p: Packet, q: nat)
    requires InBuffer(r, p.seqNum)
    ensures Got(Store(r, p), q) <==> Got(r, q) || q == p.seqNum
  {
  }

  /** What one data packet does to the set: an in-buffer packet is added, any other is not. */
  lemma ReceiveAddsToSet(r: Receiver, p: Packet)
    ensures Received(Receive(r, p)) == Received(r) + if InBuffer(r, p.seqNum) then {p.seqNum} else {}
  {
    var noted := NoteLast(r, p);
    var after := Receive(r, p);
    forall q: nat ensures q in Received(after) <==> q in Received(r) || (InBuffer(r, p.seqNum) && q == p.seqNum) {
      GotIsReceived(after, q);
      GotIsReceived(r, q);
      if InBuffer(r, p.seqNum) {
        AdvanceKeepsSet(Store(noted, p), q);
        StoreAddsToSet(noted, p, q);
      }
    }
  }

  lemma CoveredGrows(cfg: Config, got: set<nat>, q: nat, o: nat)
    ensures Covered(cfg, got + {q}, o) <==> Covered(cfg, got, o) || Covers(cfg, q, o)
  {
    if k :| k in got && Covers(cfg, k, o) {
      assert k in got + {q};
    }
    assert q in got + {q};
  }

  lemma ChunkByte(cfg: Config, q: nat, o: nat)
    requires q <= cfg.last
    ensures Covers(cfg, q, o) <==> Offset32(q) <= o < Offset32(q) + |cfg.Chunk(q)|
    ensures Covers(cfg, q, o) ==> o < |cfg.source| && ByteFor(Offset32(q), cfg.Chunk(q), o) == cfg.source[o]
  {
    ChunkIsSlice(cfg, q);
  }

  /** Writing packet `q` turns the file of `got` into the file of `got + {q}`. */
  lemma PlacedGrows(cfg: Config, got: set<nat>, q: nat)
    requires q <= cfg.last
    ensures WriteAt(Placed(cfg, got), Offset32(q), cfg.Chunk(q)) == Placed(cfg, got + {q})
  {
    var written := WriteAt(Placed(cfg, got), Offset32(q), cfg.Chunk(q));
    var placed := Placed(cfg, got + {q});
    forall o: nat ensures o in written <==> o in placed
                  ensures o in written ==> written[o] == placed[o]
    {
      ChunkByte(cfg, q, o);
      CoveredGrows(cfg, got, q, o);
    }
  }

  /** A number already received is never written again. */
  lemma WrittenOnce(r: Receiver, p: Packet)
    requires p.seqNum in Received(r)
    ensures Receive(r, p).file == r.file
  {
  }

  lemma StoredFile(r: Receiver, p: Packet)
    requires InBuffer(r, p.seqNum) && r.window[p.seqNum - r.next].seqNum == p.seqNum
    ensures Store(NoteLast(r, p), p).file
         == if Got(r, p.seqNum) then r.file else WriteAt(r.file, Offset32(p.seqNum), p.data)
  {
  }

  lemma StoreKeepsFile(cfg: Config, r: Receiver, p: Packet)
    requires r.file == Placed(cfg, Received(r))
    requires Genuine(cfg, p) && InBuffer(r, p.seqNum) && r.window[p.seqNum - r.next].seqNum == p.seqNum
    ensures Store(NoteLast(r, p), p).file == Placed(cfg, Received(r) + {p.seqNum})
  {
    StoredFile(r, p);
    if Got(r, p.seqNum) {
      assert Received(r) + {p.seqNum} == Received(r);
    } else {
      PlacedGrows(cfg, Received(r), p.seqNum);
    }
  }

  lemma ReceiveKeepsInv(cfg: Config, r: Receiver, p: Packet)
    requires Inv(cfg, r) && Genuine(cfg, p)
    ensures Inv(cfg, Receive(r, p))
    ensures r.next <= Receive(r, p).next
  {
    ReceiveAddsToSet(r, p);
    if InBuffer(r, p.seqNum) {
      StoreKeepsFile(cfg, r, p);
      AdvanceHead(Store(NoteLast(r, p), p));
    }
  }

  /** The two fields of a reply are equal exactly when the packet was outside the buffer, the
      cumulative field is the least number still missing, and a differing selective field
      names a packet that is stored. */
  lemma ReplyIsSound(cfg: Config, r: Receiver, p: Packet)
    requires Inv(cfg, r) && Genuine(cfg, p)
    ensures var a := Reply(r, p); var after := Receive(r, p);
            && a.atype == RegularAck && a.sentTime == p.sentTime && a.cumulative == after.next
            && (a.cumulative == a.selective <==> !InBuffer(r, p.seqNum))
            && (a.cumulative != a.selective ==> a.selective == p.seqNum && a.selective in Received(after))
            && after.next !in Received(after)
  {
    ReceiveKeepsInv(cfg, r, p);
    ReceiveAddsToSet(r, p);
    NextIsLeastMissing(cfg, Receive(r, p));
  }

  lemma FinishedMeansAllReceived(cfg: Config, r: Receiver)
    requires Inv(cfg, r)
    ensures Finished(r) <==> r.next == cfg.last + 1
    ensures Finished(r) <==> forall q: nat :: q <= cfg.last ==> q in Received(r)
  {
    NextIsLeastMissing(cfg, r);
    if r.next == cfg.last + 1 {
      assert cfg.last in Received(r);
    }
  }

  // ---- arrival orders ----

  function ReceiveAll(r: Receiver, packets: seq<Packet>): Receiver
    decreases |packets|
  {
    if packets == [] then r else ReceiveAll(Receive(r, packets[0]), packets[1..])
  }

  function Numbers(packets: seq<Packet>): set<nat> {
    set p | p in packets :: p.seqNum
  }

  /** Packets below the buffer's end are never dropped, whatever their order and repetition. */
  lemma {:induction false} WindowStored(cfg: Config, r: Receiver, packets: seq<Packet>, base: nat)
    requires Inv(cfg, r) && base <= r.next
    requires forall p :: p in packets ==> Genuine(cfg, p) && p.seqNum < base + WINDOW_SIZE
    ensures Inv(cfg, ReceiveAll(r, packets))
    ensures Received(ReceiveAll(r, packets)) == Received(r) + Numbers(packets)
    decreases |packets|
  {
    if packets != [] {
      var p := packets[0];
      ReceiveKeepsInv(cfg, r, p);
      assert Received(Receive(r, p)) == Received(r) + {p.seqNum} by {
        ReceiveAddsToSet(r, p);
        GotIsReceived(r, p.seqNum);
      }
      WindowStored(cfg, Receive(r, p), packets[1..], base);
      NumbersSplit(packets);
    }
  }

  lemma NumbersSplit(packets: seq<Packet>)
    requires packets != []
    ensures Numbers(packets) == {packets[0].seqNum} + Numbers(packets[1..])
  {
    assert forall p :: p in packets <==> p == packets[0] || p in packets[1..];
  }

  /** Two arrival sequences of the same packets below `bound`, in any order and with any
      repetitions. */
  ghost predicate SameArrivals(cfg: Config, bound: nat, one: seq<Packet>, other: seq<Packet>) {
    && (forall p :: p in one ==> Genuine(cfg, p) && p.seqNum < bound)
    && (forall p :: p in one <==> p in other)
  }

  /** At any moment, the order in which packets below the buffer's end arrive makes no
      difference to the file. */
  lemma ArrivalOrderIrrelevant(cfg: Config, r: Receiver, one: seq<Packet>, other: seq<Packet>)
    requires Inv(cfg, r) && SameArrivals(cfg, r.next + WINDOW_SIZE, one, other)
    ensures Received(ReceiveAll(r, one)) == Received(ReceiveAll(r, other))
    ensures ReceiveAll(r, one).file == ReceiveAll(r, other).file
  {
    WindowStored(cfg, r, one, r.next);
    WindowStored(cfg, r, other, r.next);
    assert Numbers(one) == Numbers(other);
  }

  function DataPacket(cfg: Config, q: nat): Packet {
    Packet(if q == cfg.last then Finish else Regular, q, 0, cfg.Chunk(q))
  }

  lemma ReceivePair(r: Receiver, p: Packet, q: Packet)
    ensures ReceiveAll(r, [p, q]) == Receive(Receive(r, p), q)
  {
    assert [p, q][1..] == [q] && [q][1..] == [];
    assert ReceiveAll(Receive(r, p), [q]) == Receive(Receive(r, p), q);
  }

  lemma HeadMovesOn(cfg: Config, r: Receiver)
    requires Inv(cfg, r) && r.next <= cfg.last
    ensures Receive(r, DataPacket(cfg, r.next)).next > r.next
  {
    var head := DataPacket(cfg, r.next);
    ReceiveAddsToSet(r, head);
    ReceiveKeepsInv(cfg, r, head);
    NextIsLeastMissing(cfg, Receive(r, head));
  }

  /** The packet just past the buffer is dropped if it arrives before the head, and stored if
      it arrives after. */
  lemma PastBufferDropped(cfg: Config, r: Receiver, q: nat)
    requires Inv(cfg, r) && q == r.next + WINDOW_SIZE <= cfg.last
    ensures q !in Received(ReceiveAll(r, [DataPacket(cfg, q), DataPacket(cfg, r.next)]))
  {
    var early, head := DataPacket(cfg, q), DataPacket(cfg, r.next);
    ReceivePair(r, early, head);
    ReceiveAddsToSet(r, early);
    ReceiveAddsToSet(Receive(r, early), head);
  }

  lemma PastBufferStored(cfg: Config, r: Receiver, q: nat)
    requires Inv(cfg, r) && q == r.next + WINDOW_SIZE <= cfg.last
    ensures q in Received(ReceiveAll(r, [DataPacket(cfg, r.next), DataPacket(cfg, q)]))
  {
    var early, head := DataPacket(cfg, q), DataPacket(cfg, r.next);
    ReceivePair(r, head, early);
    HeadMovesOn(cfg, r);
    ReceiveAddsToSet(Receive(r, head), early);
    GotIsReceived(Receive(r, head), q);
  }

  lemma SwappedArrivals(cfg: Config, bound: nat, p: Packet, q: Packet)
    requires Genuine(cfg, p) && Genuine(cfg, q) && p.seqNum < bound && q.seqNum < bound
    ensures SameArrivals(cfg, bound, [p, q], [q, p])
  {
  }

  ghost predicate StoreTheSame(r: Receiver, one: seq<Packet>, other: seq<Packet>) {
    Received(ReceiveAll(r, one)) == Received(ReceiveAll(r, other))
  }

  /** The order in which packets below `bound` arrive makes no difference to what is stored. */
  ghost predicate OrderIrrelevant(cfg: Config, r: Receiver, bound: nat) {
    forall one, other :: SameArrivals(cfg, bound, one, other) ==> StoreTheSame(r, one, other)
  }

  lemma PastBufferDiffers(cfg: Config, r: Receiver, q: nat)
    requires Inv(cfg, r) && q == r.next + WINDOW_SIZE <= cfg.last
    ensures var early, head := DataPacket(cfg, q), DataPacket(cfg, r.next);
            !StoreTheSame(r, [early, head], [head, early])
  {
    PastBufferDropped(cfg, r, q);
    PastBufferStored(cfg, r, q);
  }

  /** And this is the most that holds: order is irrelevant below `bound` exactly when nothing
      below `bound` lies past the buffer. */
  lemma OrderIrrelevantIff(cfg: Config, r: Receiver, bound: nat)
    requires Inv(cfg, r) && bound <= cfg.last + 1
    ensures OrderIrrelevant(cfg, r, bound) <==> bound <= r.next + WINDOW_SIZE
  {
    if bound <= r.next + WINDOW_SIZE {
      forall one, other | SameArrivals(cfg, bound, one, other) ensures StoreTheSame(r, one, other) {
        ArrivalOrderIrrelevant(cfg, r, one, other);
      }
    } else {
      var q: nat := r.next + WINDOW_SIZE;
      PastBufferDiffers(cfg, r, q);
      SwappedArrivals(cfg, bound, DataPacket(cfg, q), DataPacket(cfg, r.next));
    }
  }
}
