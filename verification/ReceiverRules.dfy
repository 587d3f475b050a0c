/** What the receiver has to do with one data packet, in plain numbers and without the step
    functions of `ReceiverModel`: a relation with exactly one solution, the step. */
module ReceiverRules {
  import opened Transfer
  import opened Packets
  import opened ReceiverModel
  import opened ReceiverInvariant

  /** Is packet `q` one of the 200 the receiver can take? */
  predicate Inside(r: Receiver, q: nat) {
    r.next <= q < r.next + 200
  }

  /** Within the 200 a packet is stored, and answered with its own number beside the next
      expected one; any other changes neither set nor file, and both fields of the answer are
      the next expected number. */
  lemma StoredIffInside(cfg: Config, r: Receiver, p: Packet)
    requires Inv(cfg, r) && Genuine(cfg, p)
    ensures var q, after, a := p.seqNum, Receive(r, p), Reply(r, p);
            && (q in Received(after) <==> q in Received(r) || r.next <= q < r.next + 200)
            && (a.selective == q != a.cumulative <==> r.next <= q < r.next + 200)
            && (!(r.next <= q < r.next + 200) ==>
                  && Received(after) == Received(r) && after.file == r.file
                  && a.cumulative == a.selective == r.next)
  {
    ReplyIsSound(cfg, r, p);
    ReceiveAddsToSet(r, p);
  }

  /** `file` with `data` written at `offset`. */
  ghost predicate Written(before: File, offset: nat, data: seq<byte>, file: File) {
    && (forall o: nat :: o in file <==> o in before || offset <= o < offset + |data|)
    && (forall o: nat :: o in file ==>
          file[o] == if offset <= o < offset + |data| then data[o - offset] else before[o])
  }

  /** The slots mark what has been received, from the least number missing on. */
  ghost predicate Slots(r: Receiver, got: set<nat>) {
    && r.next !in got && (forall q: nat :: q < r.next ==> q in got)
    && |r.window| == 200
    && (forall i :: 0 <= i < 200 ==> r.window[i] == Slot(r.next + i, r.next + i in got))
  }

  ghost predicate Receives(r: Receiver, p: Packet, after: Receiver, a: Ack) {
    var q, stored := p.seqNum, Inside(r, p.seqNum);
    && Slots(after, if stored then Received(r) + {q} else Received(r))
    && (if stored && q !in Received(r) then Written(r.file, q * 1450 % 0x1_0000_0000, p.data, after.file)
        else after.file == r.file)
    && (if p.ptype == Finish then after.lastSeen && after.last == q else after.lastSeen == r.lastSeen && after.last == r.last)
    && a == Ack(RegularAck, after.next, if stored then q else after.next, p.sentTime)
  }

  lemma SlotsInOrder(cfg: Config, r: Receiver)
    requires Inv(cfg, r)
    ensures Slots(r, Received(r))
  {
    NextIsLeastMissing(cfg, r);
    forall i | 0 <= i < 200 ensures r.window[i] == Slot(r.next + i, r.next + i in Received(r)) {
      GotIsReceived(r, r.next + i);
    }
  }

  lemma ReceiveMeetsSlots(cfg: Config, r: Receiver, p: Packet)
    requires Inv(cfg, r) && Genuine(cfg, p)
    ensures Slots(Receive(r, p), if Inside(r, p.seqNum) then Received(r) + {p.seqNum} else Received(r))
  {
    ReceiveKeepsInv(cfg, r, p);
    ReceiveAddsToSet(r, p);
    SlotsInOrder(cfg, Receive(r, p));
  }

  lemma WriteMeets(file: File, offset: nat, data: seq<byte>)
    ensures Written(file, offset, data, WriteAt(file, offset, data))
  {
  }

  lemma AdvanceKeepsFile(r: Receiver)
    ensures Advance(r).file == r.file && Advance(r).lastSeen == r.lastSeen && Advance(r).last == r.last
  {
  }

  lemma ReceiveMeetsFile(cfg: Config, r: Receiver, p: Packet)
    requires Inv(cfg, r) && Genuine(cfg, p)
    ensures var after := Receive(r, p);
            && (if Inside(r, p.seqNum) && p.seqNum !in Received(r) then
                  Written(r.file, p.seqNum * 1450 % 0x1_0000_0000, p.data, after.file)
                else after.file == r.file)
            && (if p.ptype == Finish then after.lastSeen && after.last == p.seqNum
                else after.lastSeen == r.lastSeen && after.last == r.last)
  {
    if Inside(r, p.seqNum) {
      GotIsReceived(r, p.seqNum);
      StoredFile(r, p);
      AdvanceKeepsFile(Store(NoteLast(r, p), p));
      WriteMeets(r.file, Offset32(p.seqNum), p.data);
    }
  }

  lemma ReceiveMeets(cfg: Config, r: Receiver, p: Packet)
    requires Inv(cfg, r) && Genuine(cfg, p)
    ensures Receives(r, p, Receive(r, p), Reply(r, p))
  {
    ReceiveMeetsSlots(cfg, r, p);
    ReceiveMeetsFile(cfg, r, p);
  }

  /** The receiver takes part in some transfer, and `p` is one of its packets. */
  ghost predicate Expected(r: Receiver, p: Packet) {
    exists cfg: Config :: Inv(cfg, r) && Genuine(cfg, p)
  }

  lemma ReceiveMeetsAny(r: Receiver, p: Packet)
    ensures Expected(r, p) ==> Receives(r, p, Receive(r, p), Reply(r, p))
  {
    if cfg: Config :| Inv(cfg, r) && Genuine(cfg, p) {
      ReceiveMeets(cfg, r, p);
    }
  }

  lemma SlotsUnique(r: Receiver, t: Receiver, got: set<nat>)
    requires Slots(r, got) && Slots(t, got)
    ensures r.next == t.next && r.window == t.window
  {
    assert r.next == t.next;
    assert forall i :: 0 <= i < 200 ==> r.window[i] == t.window[i];
  }

  lemma WrittenUnique(file: File, offset: nat, data: seq<byte>, f: File, g: File)
    requires Written(file, offset, data, f) && Written(file, offset, data, g)
    ensures f == g
  {
    assert forall o: nat :: o in f <==> o in g;
    assert forall o: nat :: o in f ==> f[o] == g[o];
  }

  lemma ReceivesUnique(r: Receiver, p: Packet, after: Receiver, a: Ack, other: Receiver, b: Ack)
    requires Receives(r, p, after, a) && Receives(r, p, other, b)
    requires p.ptype == Finish || p.ptype == Regular
    ensures after == other && a == b
  {
    SlotsUnique(after, other, if Inside(r, p.seqNum) then Received(r) + {p.seqNum} else Received(r));
    if Inside(r, p.seqNum) && p.seqNum !in Received(r) {
      WrittenUnique(r.file, p.seqNum * 1450 % 0x1_0000_0000, p.data, after.file, other.file);
    }
  }

  lemma ReceivesIff(cfg: Config, r: Receiver, p: Packet, after: Receiver, a: Ack)
    requires Inv(cfg, r) && Genuine(cfg, p)
    ensures Receives(r, p, after, a) <==> after == Receive(r, p) && a == Reply(r, p)
  {
    ReceiveMeets(cfg, r, p);
    if Receives(r, p, after, a) {
      ReceivesUnique(r, p, after, a, Receive(r, p), Reply(r, p));
    }
  }
}
