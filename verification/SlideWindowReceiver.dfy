/** The receiver's sliding window as the object its threads share, proved to take the step of
    `ReceiverModel`, and with it to obey `ReceiverRules`. */
module SlideWindowReceivers {
  import opened Transfer
  import opened Packets
  import opened ReceiverModel
  import Rules = ReceiverRules

  class SlideWindowReceiver {
    var lastPacketSeqNumReceived: bool
    var lastPacketSeqNum: nat
    var nextExpectedPacketSeqNum: nat
    var slideWindow: seq<Slot>
    var file: File

    function State(): RawReceiver
      reads this
    {
      RawReceiver(lastPacketSeqNumReceived, lastPacketSeqNum, nextExpectedPacketSeqNum, slideWindow, file)
    }

    predicate Valid()
      reads this
    {
      |slideWindow| == WINDOW_SIZE
    }

    constructor ()
      ensures State() == Init() && Valid()
      ensures |slideWindow| == 200 && forall i :: 0 <= i < 200 ==> slideWindow[i] == Slot(i, false)
    {
      lastPacketSeqNumReceived, lastPacketSeqNum := false, 0;
      nextExpectedPacketSeqNum := 0;
      slideWindow, file := [], map[];
      new;
      TopUp();
      assert slideWindow == EmptySlots(0, WINDOW_SIZE);
    }

    method Finished() returns (finished: bool)
      ensures finished == ReceiverModel.Finished(State())
    {
      finished := lastPacketSeqNumReceived && nextExpectedPacketSeqNum == lastPacketSeqNum + 1;
    }

    /** The type check is an assertion of the original. */
    method ReceiveDataPacket(p: Packet) returns (ack: Ack)
      requires Valid() && (p.ptype == Regular || p.ptype == Finish)
      modifies this
      ensures Valid() && State() == Receive(old(State()), p)
      ensures ack == Reply(old(State()), p)
      ensures Rules.Expected(old(State()), p) ==> Rules.Receives(old(State()), p, State(), ack)
    {
      if p.ptype == Finish {
        lastPacketSeqNum := p.seqNum;
        lastPacketSeqNumReceived := true;
      }
      var cumulative, selective;
      if p.seqNum < nextExpectedPacketSeqNum || p.seqNum >= nextExpectedPacketSeqNum + WINDOW_SIZE {
        cumulative, selective := nextExpectedPacketSeqNum, nextExpectedPacketSeqNum;
        TopUp();
      } else {
        Buffer(p);
        selective := p.seqNum;
        PopReceived();
        cumulative := nextExpectedPacketSeqNum;
        TopUp();
      }
      ack := Ack(RegularAck, cumulative, selective, p.sentTime);
      Rules.ReceiveMeetsAny(old(State()), p);
    }

    /** Buffers the data: marks the slot and writes the file, the first time only. */
    method Buffer(p: Packet)
      requires Valid() && InBuffer(State(), p.seqNum)
      modifies this`slideWindow, this`file
      ensures Valid() && State() == Store(old(State()), p)
    {
      var i := p.seqNum - nextExpectedPacketSeqNum;
      var item := slideWindow[i];
      if !item.received {
        slideWindow := slideWindow[i := item.(received := true)];
        file := WriteAt(file, Offset32(item.seqNum), p.data);
      }
    }

    /** Slides the window past the received run. */
    method PopReceived()
      modifies this`slideWindow, this`nextExpectedPacketSeqNum
      ensures var n := Run(old(slideWindow));
              slideWindow == old(slideWindow)[n..] && nextExpectedPacketSeqNum == old(nextExpectedPacketSeqNum) + n
    {
      ghost var n := 0;
      while |slideWindow| > 0 && slideWindow[0].received
        invariant n <= |old(slideWindow)| && slideWindow == old(slideWindow)[n..]
        invariant nextExpectedPacketSeqNum == old(nextExpectedPacketSeqNum) + n
        invariant Run(old(slideWindow)) == n + Run(slideWindow)
        decreases |slideWindow|
      {
        slideWindow := slideWindow[1..];
        nextExpectedPacketSeqNum := nextExpectedPacketSeqNum + 1;
        n := n + 1;
      }
    }

    /** Refills the window to its full size. */
    method TopUp()
      requires |slideWindow| <= WINDOW_SIZE
      modifies this`slideWindow
      ensures slideWindow == old(slideWindow)
                           + EmptySlots(nextExpectedPacketSeqNum + |old(slideWindow)|, WINDOW_SIZE - |old(slideWindow)|)
    {
      var i := |slideWindow|;
      while i < WINDOW_SIZE
        invariant |old(slideWindow)| <= i == |slideWindow| <= WINDOW_SIZE
        invariant slideWindow == old(slideWindow)
                               + EmptySlots(nextExpectedPacketSeqNum + |old(slideWindow)|, i - |old(slideWindow)|)
      {
        slideWindow := slideWindow + [Slot(nextExpectedPacketSeqNum + i, false)];
        i := i + 1;
      }
    }
  }
}
