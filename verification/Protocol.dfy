/** Both endpoints, the round trip estimator, and a network that may lose, duplicate and
    reorder. Every event is one step of one thread of the original programs. */
module Protocol {
  import opened Transfer
  import opened Packets
  import Ledger
  import R = ReceiverModel
  import Rtt = RttModel
  import S = SenderModel

  /** RECEIVE_THREAD_NUM */
  const RECEIVE_THREADS: nat := 2

  /** The receive timeout of the receiver's socket. */
  const RECV_TIMEOUT_US: nat := 50 * 1000

  /** `net` and `acks` are what can still be delivered; `sentPackets` and `sentAcks` are all
      that was ever put on the wire. Delivering does not take a message off the wire, so it
      may be delivered again, in any order.
      `listening` holds, for each thread of the receiver that waits in `recvfrom`, the time at
      which that call runs into its timeout; `testing` threads are about to evaluate their loop
      condition; the others have left.
      `readTimeout` is the threshold the timeout thread has read but not used yet, and `wakeAt`
      the end of its sleep.
      `faulted` is set by popping an empty deque. */
  datatype System = System(
    sender: S.Sender,
    receiver: R.Receiver,
    listening: seq<nat>,
    testing: nat,
    rtt: Rtt.Estimator,
    readTimeout: Option<nat>,
    wakeAt: nat,
    clock: nat,
    net: set<Packet>,
    acks: set<Ack>,
    sentPackets: set<Packet>,
    sentAcks: set<Ack>,
    faulted: bool,
    tally: Ledger.Tally)

  datatype Event =
    | Tick(us: nat)                                    // time passes
    | SendData                                         // sendData: prepare a round and send it
    | Deliver(packet: Packet, thread: nat)             // receiveDataReplyAck: one packet, one reply
    | RecvTimeout(thread: nat)                         // receiveDataReplyAck: recvfrom fails, continue
    | LoopTest                                         // receiveDataReplyAck: while (!finished())
    | SampleRtt(ack: Ack)                              // receiveAck: rttEstimator->ackArrived
    | DeliverAck(ack: Ack)                             // receiveAck: slideWindow->ackArrived
    | ReadTimeout                                      // checkTimeout: getCurrentTimeoutUs
    | CheckTimeout                                     // checkTimeout: slideWindow->checkTimeout, then sleep
    | Lose(packets: set<Packet>, replies: set<Ack>)    // the network drops messages

  /** The state after the handshake: its leftovers may still be on the wire, and the receiver's
      threads are anywhere in their loops. */
  predicate Initial(cfg: Config, sys: System) {
    && sys.sender == S.Init(cfg)
    && sys.receiver == R.Init()
    && |sys.listening| + sys.testing == RECEIVE_THREADS
    && (forall i :: 0 <= i < |sys.listening| ==> sys.listening[i] <= sys.clock + RECV_TIMEOUT_US)
    && sys.rtt == Rtt.Init(sys.rtt.timeoutUs)
    && sys.readTimeout == None && sys.wakeAt <= sys.clock
    && sys.net == sys.sentPackets && sys.acks == sys.sentAcks
    && (forall p :: p in sys.sentPackets ==> p == Packet(Handshake, 0, p.sentTime, []) && p.sentTime <= sys.clock)
    && (forall a :: a in sys.sentAcks ==> a == Ack(HandshakeAck, 0, 0, a.sentTime) && a.sentTime <= sys.clock)
    && !sys.faulted
    && sys.tally == Ledger.Tally(0, 0, 0, 0)
  }

  /** When may a thread take this step? The send loop prepares only while there is data to send
      (and no other thread takes that flag back); acks other than regular ones are ignored.
      A `recvfrom` does not time out early; that it may return late, and with a packet, is
      allowed here. */
  predicate Allowed(cfg: Config, sys: System, e: Event) {
    && !sys.faulted
    && match e
       case Tick(_) => true
       case SendData => S.HasDataToSend(cfg, sys.sender)
       case Deliver(p, i) => p in sys.net && i < |sys.listening|
       case RecvTimeout(i) => i < |sys.listening| && sys.clock >= sys.listening[i]
       case LoopTest => sys.testing > 0
       case SampleRtt(a) => a in sys.acks && a.atype == RegularAck
       case DeliverAck(a) => a in sys.acks && a.atype == RegularAck
       case ReadTimeout => sys.readTimeout == None && sys.clock >= sys.wakeAt
       case CheckTimeout => sys.readTimeout != None
       case Lose(_, _) => true
  }

  /** The receiver's answer, by packet type. The send time is copied back. */
  function Handle(r: R.Receiver, p: Packet): (R.Receiver, Ack) {
    if p.ptype == Handshake then (r, Ack(HandshakeAck, 0, 0, p.sentTime))
    else (R.Receive(r, p), R.Reply(r, p))
  }

  function ToSet<T(==)>(s: seq<T>): set<T> {
    set x | x in s
  }

  function DoSend(cfg: Config, sys: System): System {
    var packets := ToSet(S.PreparedPackets(cfg, sys.sender, sys.clock));
    sys.(sender := S.Prepare(sys.sender, sys.clock),
         net := sys.net + packets,
         sentPackets := sys.sentPackets + packets,
         tally := Ledger.OnRound(sys.tally))
  }

  /** Thread `i` is no longer in `recvfrom`. */
  function Without(listening: seq<nat>, i: nat): (r: seq<nat>)
    requires i < |listening|
    ensures |r| == |listening| - 1
    ensures forall d :: d in r ==> d in listening
  {
    listening[..i] + listening[i + 1..]
  }

  function DoDeliver(sys: System, p: Packet, i: nat): System
    requires i < |sys.listening|
  {
    var (receiver, reply) := Handle(sys.receiver, p);
    sys.(receiver := receiver,
         acks := sys.acks + {reply},
         sentAcks := sys.sentAcks + {reply},
         listening := Without(sys.listening, i),
         testing := sys.testing + 1)
  }

  function DoRecvTimeout(sys: System, i: nat): System
    requires i < |sys.listening|
  {
    sys.(listening := Without(sys.listening, i), testing := sys.testing + 1)
  }

  function DoLoopTest(sys: System): System
    requires sys.testing > 0
  {
    sys.(testing := sys.testing - 1,
         listening := sys.listening + if R.Finished(sys.receiver) then [] else [sys.clock + RECV_TIMEOUT_US])
  }

  function DoSample(sys: System, a: Ack): System {
    sys.(rtt := Rtt.Step(sys.rtt, Elapsed(a.sentTime, sys.clock)))
  }

  function DoAck(cfg: Config, sys: System, a: Ack): System {
    if S.Passed(sys.sender, a.cumulative) <= |sys.sender.window| then
      sys.(sender := S.AckArrived(cfg, sys.sender, a.cumulative, a.selective),
           tally := Ledger.OnAck(sys.tally, cfg, sys.sender, a.cumulative, a.selective))
    else
      sys.(faulted := true)
  }

  function DoRead(sys: System): System {
    sys.(readTimeout := Some(Rtt.CurrentTimeout(sys.rtt)))
  }

  /** The check, and the sleep of half the threshold that follows it. */
  function DoCheck(sys: System): System
    requires sys.readTimeout != None
  {
    var us := sys.readTimeout.value;
    sys.(sender := S.CheckTimeout(sys.sender, sys.clock, us),
         tally := Ledger.OnTimeout(sys.tally, sys.sender, sys.clock, us),
         readTimeout := None,
         wakeAt := sys.clock + us / 2)
  }

  function Step(cfg: Config, sys: System, e: Event): System
    requires Allowed(cfg, sys, e)
  {
    match e
    case Tick(us) => sys.(clock := sys.clock + us)
    case SendData => DoSend(cfg, sys)
    case Deliver(p, i) => DoDeliver(sys, p, i)
    case RecvTimeout(i) => DoRecvTimeout(sys, i)
    case LoopTest => DoLoopTest(sys)
    case SampleRtt(a) => DoSample(sys, a)
    case DeliverAck(a) => DoAck(cfg, sys, a)
    case ReadTimeout => DoRead(sys)
    case CheckTimeout => DoCheck(sys)
    case Lose(packets, replies) => sys.(net := sys.net - packets, acks := sys.acks - replies)
  }

  /** Is `run` a sequence of steps the programs can take from `sys`? */
  predicate Legal(cfg: Config, sys: System, run: seq<Event>)
    decreases |run|
  {
    run == [] || (Allowed(cfg, sys, run[0]) && Legal(cfg, Step(cfg, sys, run[0]), run[1..]))
  }

  function After(cfg: Config, sys: System, run: seq<Event>): System
    requires Legal(cfg, sys, run)
    decreases |run|
  {
    if run == [] then sys else After(cfg, Step(cfg, sys, run[0]), run[1..])
  }

  predicate SenderFinished(cfg: Config, sys: System) {
    S.Finished(cfg, sys.sender)
  }

  predicate ReceiverFinished(sys: System) {
    R.Finished(sys.receiver)
  }
}
