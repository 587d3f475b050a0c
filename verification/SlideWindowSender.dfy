/** The sender's sliding window as the object the threads share. Every method is proved to
    take the step of `SenderModel` that bears its name, and with it to obey `SenderRules`. */
module SlideWindowSenders {
  import opened Transfer
  import opened Packets
  import opened SenderModel
  import Rules = SenderRules
  import SI = SenderInvariant

  class SlideWindowSender {
    const cfg: Config
    var bytesSent: nat
    var lastAck: nat
    var lastAckAckedCount: nat
    var curCongestionWindowTimeouted: bool
    var newDataReady: bool
    var slideWindowLeftBoundSeqNum: nat
    var slideWindow: seq<Item>
    var curCongestionWindow: nat
    var curCongestionThreshold: nat
    var congestionLeftBoundSeqNum: nat

    function State(): Sender
      reads this
    {
      Sender(bytesSent, slideWindowLeftBoundSeqNum, slideWindow, curCongestionWindow, curCongestionThreshold,
             congestionLeftBoundSeqNum, curCongestionWindowTimeouted, newDataReady, lastAck, lastAckAckedCount)
    }

    predicate Valid()
      reads this
    {
      SI.Inv(cfg, State())
    }

    constructor (source: seq<byte>, bytesToSend: nat, fastRetransmission: bool)
      requires 0 < bytesToSend && ConfigFor(source, bytesToSend, fastRetransmission).Permitted()
      ensures cfg == ConfigFor(source, bytesToSend, fastRetransmission)
      ensures State() == Init(cfg) && Valid()
      ensures Rules.Starts(cfg, State())
    {
      var last, lastSize;
      if bytesToSend % DATA_SIZE == 0 {
        last := bytesToSend / DATA_SIZE - 1;
        lastSize := DATA_SIZE;
      } else {
        last := bytesToSend / DATA_SIZE;
        lastSize := (bytesToSend - Offset32(last)) % WORD;
      }
      cfg := RawConfig(source, bytesToSend, last, lastSize, fastRetransmission);
      bytesSent, lastAck, lastAckAckedCount := 0, 0, 0;
      slideWindowLeftBoundSeqNum := 0;
      curCongestionWindow := CWND_MIN;
      congestionLeftBoundSeqNum := 0 + CWND_MIN;
      curCongestionThreshold := UINT_MAX;
      slideWindow := [];
      newDataReady, curCongestionWindowTimeouted := true, false;
      new;
      FillDeque();
      SI.InitInv(cfg);
      Rules.StartsIff(cfg, State());
    }

    method Finished() returns (finished: bool)
      ensures finished == SenderModel.Finished(cfg, State())
    {
      finished := bytesSent == cfg.bytesToSend;
    }

    method HasDataToSend() returns (has: bool)
      ensures has == SenderModel.HasDataToSend(cfg, State())
    {
      var finished := Finished();
      has := !finished && newDataReady;
    }

    method PrepareDataPacketsToSend(now: nat) returns (packets: seq<Packet>)
      requires Valid()
      modifies this
      ensures State() == Prepare(old(State()), now) && Valid()
      ensures packets == PreparedPackets(cfg, old(State()), now)
      ensures Rules.Prepares(old(State()), now, State())
    {
      packets := EmitPending(now);
      newDataReady := false;
      curCongestionWindowTimeouted := false;
      SI.PrepareKeepsInv(cfg, old(State()), now);
      Rules.PreparesIff(old(State()), now, State());
    }

    /** Iterates through the deque within the congestion window. */
    method EmitPending(now: nat) returns (packets: seq<Packet>)
      modifies this`slideWindow
      ensures slideWindow == Transmitted(old(slideWindow), InReach(old(State())), now)
      ensures packets == Emitted(cfg, old(slideWindow), InReach(old(State())), now)
    {
      ghost var before := slideWindow;
      packets := [];
      var i := 0;
      while i < curCongestionWindow && i < |slideWindow|
        invariant i <= curCongestionWindow && i <= |slideWindow| == |before|
        invariant forall k :: 0 <= k < |before| ==>
          slideWindow[k] == if k < i && Pending(before[k]) then Transmit(before[k], now) else before[k]
        invariant packets == Emitted(cfg, before, i, now)
      {
        var item := slideWindow[i];
        assert item == before[i];
        if item.state == NotSent || item.state == TimedOut {
          var ptype := if item.seqNum == cfg.last then Finish else Regular;
          packets := packets + [Packet(ptype, item.seqNum, now, item.data)];
          if item.state == NotSent {
            slideWindow := slideWindow[i := item.(state := Sent, lastSentTime := now)];
          } else {
            slideWindow := slideWindow[i := item.(state := Resent, lastSentTime := now)];
          }
        }
        i := i + 1;
      }
      assert slideWindow == Transmitted(before, i, now);
    }

    /** Handles one ack; its six blocks follow. */
    method AckArrived(cumulative: nat, selective: nat)
      requires Valid() && Passed(State(), cumulative) <= |slideWindow|
      modifies this
      ensures State() == SenderModel.AckArrived(cfg, old(State()), cumulative, selective) && Valid()
      ensures Rules.Acks(cfg, old(State()), cumulative, selective, State())
    {
      Select(cumulative, selective);
      CountAck(cumulative);
      SlideTo(cumulative);
      GrowCongestionWindow();
      FillDeque();
      ScanForWork();
      SI.AckArrivedKeepsInv(cfg, old(State()), cumulative, selective);
      Rules.AckMeets(cfg, old(State()), cumulative, selective);
    }

    /** Handles the selective ack. */
    method Select(cumulative: nat, selective: nat)
      modifies this`slideWindow
      ensures State() == MarkSelective(old(State()), cumulative, selective)
    {
      if cumulative != selective && selective >= slideWindowLeftBoundSeqNum {
        var i := selective - slideWindowLeftBoundSeqNum;
        if i < |slideWindow| {
          slideWindow := slideWindow[i := slideWindow[i].(state := Acked)];
        }
      }
    }

    /** Handles fast retransmission. */
    method CountAck(cumulative: nat)
      modifies this
      ensures State() == FastRetransmit(cfg, old(State()), cumulative)
    {
      if cfg.fastRetransmission {
        if lastAck == cumulative {
          lastAckAckedCount := lastAckAckedCount + 1;
          if lastAckAckedCount == DUP_ACKS {
            PunishOnce();
            ResendFirst();
          }
        } else if lastAck < cumulative {
          lastAck := cumulative;
          lastAckAckedCount := 0;
        }
      }
    }

    /** Congestion control of fast retransmission, avoiding repeated punishment. */
    method PunishOnce()
      modifies this
      ensures State() == FastPunish(old(State()))
    {
      if !curCongestionWindowTimeouted {
        curCongestionThreshold := curCongestionWindow * 62 / 100;
        if curCongestionThreshold < THRESHOLD_MIN {
          curCongestionThreshold := THRESHOLD_MIN;
        }
        curCongestionWindow := curCongestionThreshold;
        congestionLeftBoundSeqNum := slideWindowLeftBoundSeqNum + curCongestionWindow;
        curCongestionWindowTimeouted := true;
      }
    }

    /** Sets SENT or RESENT to TIMEOUT for the first item. */
    method ResendFirst()
      modifies this
      ensures State() == RetransmitHead(old(State()))
    {
      if |slideWindow| > 0 {
        var item := slideWindow[0];
        if item.state == Sent || item.state == Resent {
          slideWindow := slideWindow[0 := item.(state := TimedOut)];
          newDataReady := true;
        }
      }
    }

    /** Handles the cumulative sequence number. */
    method SlideTo(cumulative: nat)
      requires Passed(State(), cumulative) <= |slideWindow|
      modifies this`slideWindow, this`bytesSent, this`slideWindowLeftBoundSeqNum
      ensures State() == Slide(old(State()), cumulative)
    {
      if cumulative > slideWindowLeftBoundSeqNum {
        PopItems(cumulative);
        slideWindowLeftBoundSeqNum := cumulative;
      } else {
        assert slideWindow[..0] == [] && slideWindow[0..] == slideWindow;
      }
    }

    /** Pops what a cumulative ack passes, counting its bytes. */
    method PopItems(cumulative: nat)
      requires slideWindowLeftBoundSeqNum <= cumulative <= slideWindowLeftBoundSeqNum + |slideWindow|
      modifies this`slideWindow, this`bytesSent
      ensures var n := cumulative - slideWindowLeftBoundSeqNum;
              slideWindow == old(slideWindow)[n..] && bytesSent == old(bytesSent) + TotalSize(old(slideWindow)[..n])
    {
      ghost var before, n := slideWindow, 0;
      var i := slideWindowLeftBoundSeqNum;
      while i < cumulative
        invariant i == slideWindowLeftBoundSeqNum + n <= cumulative
        invariant slideWindow == before[n..]
        invariant bytesSent == old(bytesSent) + TotalSize(before[..n])
      {
        PopOne(before, n);
        var item := slideWindow[0];
        slideWindow := slideWindow[1..];
        bytesSent := bytesSent + |item.data|;
        i := i + 1;
        n := n + 1;
      }
    }

    /** Handles congestion control. */
    method GrowCongestionWindow()
      modifies this`curCongestionWindow, this`congestionLeftBoundSeqNum
      ensures State() == Grow(old(State()))
      ensures slideWindowLeftBoundSeqNum >= old(congestionLeftBoundSeqNum) ==>
                && curCongestionWindow - old(curCongestionWindow)
                   == (if old(curCongestionWindow) < curCongestionThreshold
                       then Min(old(curCongestionWindow), curCongestionThreshold - old(curCongestionWindow)) else 20)
                && congestionLeftBoundSeqNum == slideWindowLeftBoundSeqNum + curCongestionWindow
    {
      if slideWindowLeftBoundSeqNum >= congestionLeftBoundSeqNum {
        if curCongestionWindow < curCongestionThreshold {
          curCongestionWindow := curCongestionWindow * 2;
          if curCongestionWindow >= curCongestionThreshold {
            curCongestionWindow := curCongestionThreshold;
          }
        } else {
          curCongestionWindow := curCongestionWindow + THRESHOLD_MIN;
        }
        congestionLeftBoundSeqNum := slideWindowLeftBoundSeqNum + curCongestionWindow;
      }
    }

    /** Fills in the deque if it is smaller than the congestion window. */
    method FillDeque()
      modifies this`slideWindow
      ensures State() == Refill(cfg, old(State()))
    {
      var i := |slideWindow|;
      while i < curCongestionWindow
        invariant i == |slideWindow|
        invariant Fill(cfg, slideWindowLeftBoundSeqNum, slideWindow, curCongestionWindow)
               == Fill(cfg, slideWindowLeftBoundSeqNum, old(slideWindow), curCongestionWindow)
      {
        var seqNum := slideWindowLeftBoundSeqNum + i;
        if seqNum > cfg.last {
          break;
        }
        var size := if seqNum == cfg.last then cfg.lastSize else DATA_SIZE;
        var item := Item(seqNum, NotSent, 0, ReadFile(cfg.source, seqNum, size));
        assert item == Fresh(cfg, slideWindowLeftBoundSeqNum + |slideWindow|);
        slideWindow := slideWindow + [item];
        i := i + 1;
      }
    }

    /** The final traverse of `ackArrived` and `checkTimeout`. */
    method ScanForWork()
      modifies this`newDataReady
      ensures State() == Rescan(old(State()))
    {
      if !newDataReady {
        var i := 0;
        while i < |slideWindow| && i < curCongestionWindow
          invariant i <= |slideWindow|
          invariant newDataReady <==> exists k :: 0 <= k < i && k < curCongestionWindow && Pending(slideWindow[k])
        {
          if slideWindow[i].state == NotSent || slideWindow[i].state == TimedOut {
            newDataReady := true;
            break;
          }
          i := i + 1;
        }
      }
    }

    method CheckTimeout(timeoutThresholdUs: nat, now: nat)
      requires Valid()
      modifies this
      ensures State() == SenderModel.CheckTimeout(old(State()), now, timeoutThresholdUs) && Valid()
      ensures Rules.NothingFromLater(old(State()), now) ==> Rules.Checks(old(State()), now, timeoutThresholdUs, State())
    {
      var somePacketTimeout := MarkExpired(timeoutThresholdUs, now);
      if !curCongestionWindowTimeouted && somePacketTimeout {
        curCongestionThreshold := curCongestionWindow * 62 / 100;
        if curCongestionThreshold < THRESHOLD_MIN {
          curCongestionThreshold := THRESHOLD_MIN;
        }
        curCongestionWindow := CWND_MIN;
        congestionLeftBoundSeqNum := slideWindowLeftBoundSeqNum + curCongestionWindow;
        curCongestionWindowTimeouted := true;
      }
      ScanForWork();
      SI.CheckTimeoutKeepsInv(cfg, old(State()), now, timeoutThresholdUs);
      if Rules.NothingFromLater(old(State()), now) {
        Rules.CheckMeets(old(State()), now, timeoutThresholdUs);
      }
    }

    /** Checks the whole buffer. */
    method MarkExpired(timeoutThresholdUs: nat, now: nat) returns (some: bool)
      modifies this`slideWindow
      ensures slideWindow == Expire(old(slideWindow), now, timeoutThresholdUs)
      ensures some == SomeExpires(old(slideWindow), now, timeoutThresholdUs)
    {
      ghost var before := slideWindow;
      some := false;
      var i := 0;
      while i < |slideWindow|
        invariant i <= |slideWindow| == |before|
        invariant forall k :: 0 <= k < |before| ==>
          slideWindow[k] == if k < i && Expires(before[k], now, timeoutThresholdUs) then before[k].(state := TimedOut) else before[k]
        invariant some <==> exists k :: 0 <= k < i && Expires(before[k], now, timeoutThresholdUs)
      {
        var item := slideWindow[i];
        assert item == before[i];
        if item.state == Sent || item.state == Resent {
          var elapsedUs := Elapsed(item.lastSentTime, now);
          if elapsedUs > timeoutThresholdUs {
            slideWindow := slideWindow[i := item.(state := TimedOut)];
            some := true;
          }
        }
        i := i + 1;
      }
    }
  }

  lemma PopOne(items: seq<Item>, n: nat)
    requires n < |items|
    ensures items[n..][0] == items[n] && items[n..][1..] == items[n + 1..]
    ensures TotalSize(items[..n + 1]) == TotalSize(items[..n]) + |items[n].data|
  {
    TotalSizeNext(items, n);
  }

  lemma {:induction false} TotalSizeNext(items: seq<Item>, n: nat)
    requires n < |items|
    ensures TotalSize(items[..n + 1]) == TotalSize(items[..n]) + |items[n].data|
    decreases n
  {
    if n > 0 {
      TotalSizeNext(items[1..], n - 1);
      assert items[..n + 1][1..] == items[1..][..n] && items[..n][1..] == items[1..][..n - 1];
    }
  }
}
