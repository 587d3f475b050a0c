# Reliable transfer over an unreliable network: model and proofs

This project models the sliding-window file transfer of the repository: the sender's window
(`SlideWindowSender`), the receiver's window (`SlideWindowReceiver`), the round trip estimator,
the packet codec, and the threads that drive them over a network that may lose, duplicate and
reorder data packets and acks. It proves that the protocol as a whole does what it is for.

## How it is built

* `Transfer.dfy`: the parameters of a transfer, how it is cut into packets, 32-bit file offsets.
* `Packets.dfy`: data packets and acks as the endpoints see them.
* `SenderModel.dfy`, `ReceiverModel.dfy`, `RttModel.dfy`: one pure step per locked method.
* `SenderInvariant.dfy`, `ReceiverInvariant.dfy`: what each endpoint keeps on its own; the
  receiver refines a plain set of received numbers, and its file is a function of that set.
* `SenderRules.dfy`, `ReceiverRules.dfy`: what each step has to do, as relations between the state
  before and the state after, in plain numbers and without the step functions. Each relation is
  proved to have exactly one solution, the step.
* `SlideWindowSender.dfy`, `SlideWindowReceiver.dfy`, `RttEstimatorJacobson.dfy`: the mutable
  objects, with the loops of the original, proved to take exactly those steps and to obey those
  rules.
* `Protocol.dfy`: the system. Its state holds both endpoints, the estimator, the clock, what can
  still be delivered, everything ever sent, for each receiver thread the moment its `recvfrom`
  runs into the 50 ms socket timeout, and for the timeout thread the threshold it has read and the
  end of its sleep. Its events are the steps of the individual threads and of the network.
  Delivering a message does not consume it, so it can be delivered again and in any order; `Lose`
  drops any messages.
* `ProtocolInvariant.dfy`: the inductive invariant, one lemma per event, and its extension to
  every run. The clause that carries the rest is about history: a packet acknowledged from beyond
  a gap is never announced as the next expected one, neither earlier nor later.
* `Delivery.dfy`: the safety theorems for every reachable state.
* `Congestion.dfy`: congestion control over whole runs: doubling, what shrinks the window and when,
  one punishment per sending round and never none, and when fast retransmission fires.
* `Timing.dfy`: what goes on the wire, what a sample measures, how long the threads sleep and wait.
* `Schedule.dfy`: rounds of check, sending, delivery and ack that move the transfer on, with every
  thread on time.
* `Completion.dfy`: when a transfer can still be completed after everything in flight was lost.
* `Liveness.dfy`: infinite runs, fairness, and that the receiver finishes in every fair one.
* `Outcomes.dfy`: that the outcomes the theorems speak of do occur: both sides finished with and
  without an intact file, a sender left alone for ever, a punishment that enlarges the window.
* `Ledger.dfy`: counts of window growth, punishments, sending rounds and fast retransmissions.
* `Codec.dfy`, `WireTrip.dfy`: the byte formats, and that the protocol's messages survive them.

The main results are `Delivery.EndToEnd`, `Delivery.EndpointsCoupled`, `Delivery.HeadNeverAcked`,
`Delivery.SettledNeverResent`, `Completion.CompletionIff`, `Liveness.ReceiverFinishes` and
`Outcomes.AbandonedIff`, on top of `SenderRules.AcksIff`, `SenderRules.ChecksIff`,
`SenderRules.PreparesIff` and `ReceiverRules.ReceivesIff`, which fix every step.

## Standing assumptions

* `bytesToSend > 0`, and the source file holds at least that many bytes and is read in full.
* `4 * (lastPacketSeqNum + 1) + 40 < 2^32` (about 1.5 terabytes), so that the congestion window,
  at most `2 * left + 20`, can be doubled in 32 bits. All other quantities are then exact as
  unbounded integers, except file offsets, which are reduced modulo 2^32 as in the program.
* The clock does not step backwards.
* A `recvfrom` never times out early. Safety and liveness allow it to return late, even with a
  packet. The completion results (`Punctual` and `Prompt` runs) hold every `recvfrom` to its
  timeout and let the timeout thread wake exactly at the end of its sleep, so they say what the
  timing of the code allows at best.
* Liveness assumes, while the receiver is unfinished: the clock passes every value; the timeout
  thread checks again and again; announced data is prepared some time; a packet number put on the
  wire again and again reaches a receiver thread again and again, and so does an ack number reach
  the sender; no single datagram is delivered without end. Without the last clause old acks could
  raise the timeout as fast as time passes.
* Reals stand for floating point: 0.62 of the window is `62 * w / 100` rounded down, and the
  estimator's weights are exact. IEEE rounding is abstracted; no bound depends on it.

## Where the code does not do what one would expect

* A finished receiver has an intact file exactly when `lastPacketSeqNum <= 2962046`, that is, for
  at most 4294968150 bytes (`Delivery.EndToEnd`). Beyond that, `seqNum * 1450` wraps in 32 bits at
  both ends and the bytes at the last packet's true offset are never written, although both sides
  report success; every such transfer has a run that ends this way (`Outcomes.BothFinish`,
  `Outcomes.CorruptSuccess`).
* After everything in flight is lost, the transfer can still be completed exactly when the sender
  has finished already, or the receiver has not, or one of the receiver's threads sits in a
  `recvfrom` whose 50 ms end no earlier than the sender can put its next packet on the wire
  (`Completion.CompletionIff`). 50 ms after a receiver has finished, all its threads can have left
  without any help of the network (`Outcomes.FallsSilent`). So in every transfer, and from every state in which the sender has not
  finished, there is a run after which the sender runs for ever (`Outcomes.AbandonedIff`,
  `Outcomes.SenderCanBeStranded`).
* The "punishment" of fast retransmission enlarges the congestion window when that is below 20
  (`Delivery.PunishmentEnlarges`), and some run of every transfer with fast retransmission gets
  there (`Outcomes.EnlargingHappensIff`).
* A settled timeout covers a constant round trip of `r` microseconds exactly when `r` is 0 or at
  least 33; the estimators that fail are ones that some samples produce
  (`RttModel.SettledTimeoutCovers`).
* The order in which packets below a bound arrive makes no difference exactly when none of them
  lies past the receiver's 200 slots (`ReceiverInvariant.OrderIrrelevantIff`).
* Comments in src/slideWindowSender.cpp speak of an initial window of 2, of shrinking to 1, and
  src/slideWindowSender.h of wrap-around sequence numbers and of a growth bound based on the old
  bound. The code uses 10, 10, plain comparison, and the slide bound; the model follows the code.

## Model

| member | source | states |
|---|---|---|
| Completion.CompletionIff | src/reliable_receiver.cpp:164-248 | from every reachable state, after losing all traffic in flight, some schedule of at most 10 events per remaining packet, with every thread on time, finishes both sides, if and only if the sender has finished, or the receiver has not, or some receiver thread's recvfrom lasts until the sender can first emit again |
| Completion.CompletionWhileReceiving | src/slideWindowSender.cpp:208-526 | completion stays reachable as long as the receiver has not finished, whatever has been lost |
| Completion.NoCompletionOtherwise | src/reliable_receiver.cpp:110-173 | when none of the three holds, no run of whatever length in which recvfrom keeps its timeout lets the sender finish once everything in flight is lost |
| Schedule.RoundExists | src/slideWindowSender.cpp:454-526 | while the receiver is unfinished, at most 10 events (sleep, check, sending round, a thread back in recvfrom, delivery of the head packet and of its ack) move the left bound on |
| Schedule.LastRound | src/reliable_sender.cpp:425-444 | after the receiver has finished, a thread still in recvfrom when the sender can emit again lets one more round finish the transfer |
| Schedule.ReplyAdvances | src/slideWindowReceiver.cpp:131-177 | the reply to the head of the sender's window, old or awaited, and any reply of a finished receiver, acknowledges more than the left bound |
| Liveness.ReceiverFinishes | src/reliable_sender.cpp:283-450 | in every endless run that is fair to threads and messages the receiver finishes, whatever is lost, duplicated and reordered |
| Liveness.HeadIsReleased | src/slideWindowSender.cpp:468-487 | a fair run in which the head of the window stays in flight from some moment on is one in which the receiver finishes |
| Liveness.EmissionsCease | src/slideWindowSender.cpp:225-251 | as long as the head stays in flight every packet is emitted at most once more |
| Outcomes.AbandonedIff | src/reliable_receiver.cpp:164-173 | from a reachable state some run leads to one from which no run finishes the sender, if and only if the sender has not finished yet |
| Outcomes.SenderCanBeStranded | src/reliable_receiver.cpp:231-240 | every transfer has a run that finishes the receiver and after which no run finishes the sender |
| Outcomes.FallsSilent | src/reliable_receiver.cpp:110-173 | once the receiver has finished, time, receive timeouts and loop tests alone empty it of threads within 50 ms, with everything else unchanged |
| Outcomes.BothFinish | src/slideWindowReceiver.cpp:147-152 | every transfer has a run that finishes both sides, and there the file is intact if and only if the transfer fits 32-bit offsets |
| Outcomes.CorruptSuccess | src/slideWindowSender.cpp:60-66 | some permitted transfer is reported complete by both sides with a file that is not intact |
| Outcomes.EnlargingHappensIff | src/slideWindowSender.cpp:303-311 | a step in which fast retransmission enlarges the window is reachable if and only if fast retransmission is on |
| Outcomes.FairRunsExist | src/reliable_sender.cpp:283-450 | every transfer has an endless run that meets the fairness assumptions |
| Congestion.DoublesUntilPunished | src/slideWindowSender.cpp:391-404 | as long as nothing was punished the congestion window is 10 * 2^growths and the threshold 2^32 - 1, in every reachable state |
| Congestion.GrowsExactly | src/slideWindowSender.cpp:391-409 | an ack that takes the left bound to the growth bound enlarges the window by itself but at most up to the threshold, or by 20 from there on, and sets the next bound one window later; any other unpunished ack leaves all three |
| Congestion.TimeoutPunishesIff | src/slideWindowSender.cpp:468-510 | a check punishes exactly when nothing was punished yet in the round and some packet in flight has only copies older than the threshold; the window then becomes 10, the threshold 62 percent but at least 20; otherwise nothing of it changes |
| Congestion.SendLowersFlags | src/slideWindowSender.cpp:255-258 | after a sending round, in every reachable state, both flags are down, nothing is due and the congestion variables are as before |
| Congestion.FirstTimeoutPunishes | src/slideWindowSender.cpp:493-510 | in any run since a sending round without a punishment, a check with an overdue packet counts one more punishment and takes the window to 10 |
| Congestion.FirstFiringPunishes | src/slideWindowSender.cpp:302-318 | likewise an ack that fires fast retransmission counts one more and cuts window and threshold |
| Congestion.NoSecondPunishment | src/slideWindowSender.cpp:303-318 | once punished, until the next sending round no step counts another punishment, lowers the window or moves the threshold |
| Congestion.PunishedPerRound | src/slideWindowSender.cpp:256-258 | over any run punishments are at most one more than the sending rounds in it |
| Congestion.SecondRepetitionFires | src/slideWindowSender.cpp:298-343 | counted over the run since the left bound was set, an ack fires exactly when it repeats that bound for the second time |
| Timing.RoundOnWire | src/reliable_sender.cpp:308-327 | a sending round puts exactly the due packets on the wire, with their slices, the current time and FINISH on the last number, and nothing else |
| Timing.ReplyOnWire | src/reliable_receiver.cpp:195-241 | every packet is answered by one ack with its send time: a handshake without a trace, a data packet by the receiver's rule |
| Timing.SamplesAreRoundTrips | src/rttEstimatorJacobson.cpp:49-67 | every sample of every run measures the time since a copy of the acknowledged packet was sent, and moves timeout and deviation by an eighth and a quarter |
| Timing.FirstThresholds | src/rttEstimatorJacobson.cpp:35-41 | until the first sample every threshold read is (11 * t + 40 * (t / 4)) / 10, at least 2 * t - 3, for a handshake estimate t |
| Timing.ChecksAreSpaced | src/reliable_sender.cpp:425-444 | after a check the threshold is read again exactly from half the used threshold later on |
| Timing.LoopTestDecides | src/reliable_receiver.cpp:164-173 | a thread of an unfinished receiver waits in a recvfrom that fails from 50 ms later on, one of a finished receiver leaves |
| Timing.TwoThreadsServe | src/reliable_receiver.cpp:164-248 | two threads serve the receiver until it has finished |
| Delivery.EndToEnd | src/slideWindowReceiver.cpp:93-183 | a finished receiver holds exactly the first bytesToSend bytes if and only if the transfer fits 32-bit offsets; a finished sender implies a finished receiver |
| Delivery.FileIsAlwaysSound | src/slideWindowReceiver.cpp:147-152 | at any moment of any run every byte written is the source byte of that offset, within the bytes asked for |
| Delivery.OrderIndependent | src/slideWindowReceiver.cpp:145-152 | any two runs that stored the same packets wrote the same file, and any two runs agree where both have written |
| Delivery.EndpointsCoupled | src/slideWindowSender.cpp:350-384 | left <= next expected <= left + window size; all packets sent are below the window's end; no ack on the wire pops more than the window holds, so the pop loop never meets an empty deque |
| Delivery.EdgesAdvanceInRuns | src/slideWindowSender.cpp:383-434 | both edges of the sender's window and the receiver's next number never decrease over a run |
| Delivery.HeadNeverAcked | src/slideWindowSender.cpp:280-294 | the head of the sender's window is never ACKED, so it can always be retransmitted |
| Delivery.GapsNeverAnnounced | src/slideWindowReceiver.cpp:145-177 | once an ack (c, s) with c < s was issued no ack of the run has cumulative s, before or after |
| Delivery.SettledIsStored | src/slideWindowSender.cpp:276-294 | every packet the sender takes as delivered is stored at the receiver and was sent |
| Delivery.SettledNeverResent | src/slideWindowSender.cpp:218-248 | a packet acknowledged or passed stays so in every continuation, and whatever legal run follows, the sending round at its end does not emit it |
| Delivery.WindowReaches | src/slideWindowSender.cpp:413-434 | the window reaches min(left + congestion window, last + 1) in every reachable state |
| Delivery.WindowHoldsSlices | src/slideWindowSender.cpp:60-76 | every item has the number of its position and holds exactly its slice of the source |
| Delivery.BytesAccounted | src/slideWindowSender.cpp:361-383 | bytesSent equals min(left * 1450, bytesToSend), so finished() is true exactly when every packet has been passed |
| Delivery.NoWorkForgotten | src/slideWindowSender.cpp:439-447 | a waiting item within the congestion window implies newDataReady, and the send thread may take it up |
| Delivery.SendingGoesOn | src/slideWindowSender.cpp:193-199 | the send thread may prepare a round exactly while some packet has not been passed and the flag is up |
| Delivery.CongestionStaysBounded | src/slideWindowSender.cpp:386-409 | window, threshold and growth bound stay within their bounds and fit 32 bits even when doubled, over all runs |
| Delivery.CongestionLedger | src/slideWindowSender.cpp:256-258 | growths are paid for by ten packets each, punishments are at most one per sending round, fast retransmissions at most one per left bound |
| Delivery.FastRetransmitHitsAwaited | src/slideWindowSender.cpp:298-303 | when it fires, the duplicated ack asks for exactly the packet at the head of the window |
| Delivery.FastRetransmitResends | src/slideWindowSender.cpp:325-338 | a head in flight is due to be sent again, and announced, after the step |
| Delivery.PunishmentEnlarges | src/slideWindowSender.cpp:298-409 | the ack that fires fast retransmission leaves a larger congestion window if and only if the window was below 20 and not yet punished in this round; growth never comes with it |
| Delivery.TimeoutsAreHonest | src/slideWindowSender.cpp:468-487 | a check marks an item in flight if and only if every copy of it on the wire is older than the threshold the thread read |
| Delivery.NotSentMeansNeverSent | src/slideWindowSender.cpp:243-251 | an item is NOT_SENT exactly when no copy of it was ever sent |
| Delivery.ElapsedNeverWraps | src/slideWindowSender.h:130-135 | no age of an item in flight and no round trip sample is a wrapped difference |
| ProtocolInvariant.RunKeepsInv | src/reliable_sender.cpp:283-450 | every run of sender threads, receiver threads with their receive timeouts, and network keeps the system invariant |
| ProtocolInvariant.AckKeepsInv | src/slideWindowSender.cpp:267-450 | handling any ack still on the wire keeps the system invariant |
| ProtocolInvariant.DeliverKeepsInv | src/reliable_receiver.cpp:195-227 | handling any packet, or a leftover handshake, and replying keeps the system invariant |
| ProtocolInvariant.Coupling | src/slideWindowSender.cpp:352-358 | the receiver's next expected number lies within or just past the sender's window |
| SenderRules.AcksIff | src/slideWindowSender.cpp:267-450 | the ack step is the only state that obeys the rule: which item becomes ACKED or TIMEOUT, what is appended, every counter and congestion variable in numbers, and the flag going up exactly when something waits |
| SenderRules.ChecksIff | src/slideWindowSender.cpp:454-526 | the timeout check is the only state that obeys the rule: late items marked, window cut when the first of a round is late, the flag going up exactly when something waits |
| SenderRules.PreparesIff | src/slideWindowSender.cpp:208-263 | the preparing step is the only state that obeys the rule: NOT_SENT becomes SENT, TIMEOUT becomes RESENT, both now, both flags down, all else unchanged |
| SenderRules.StartsIff | src/slideWindowSender.cpp:124-172 | the constructor's state is the only one with 10 fresh items or all there are, window 10, threshold 2^32 - 1, growth bound 10, data ready and no punishment |
| SenderInvariant.AckArrivedKeepsInv | src/slideWindowSender.cpp:267-450 | shape, fill, byte count, bounds, announced work and duplicate counting survive any ack that does not overrun the window |
| SenderInvariant.AckArrivedItem | src/slideWindowSender.cpp:276-434 | packet by packet: only the selectively acknowledged item becomes ACKED, none goes back to an earlier state, new ones are fresh |
| SenderInvariant.PrepareExact | src/slideWindowSender.cpp:208-263 | the packets prepared are exactly the waiting ones within the congestion window, in increasing order, FINISH on the last number only, and none is left waiting |
| SenderInvariant.CheckTimeoutKeepsInv | src/slideWindowSender.cpp:454-526 | a timeout check keeps the sender's invariant |
| SenderInvariant.FinishedMeansAllPassed | src/slideWindowSender.cpp:185-190 | the byte-counting finished() means that the left bound is past the last packet |
| SenderInvariant.FillExtends | src/slideWindowSender.cpp:413-434 | filling keeps the window as a prefix, appends fresh items and stops at the congestion window or the last packet |
| SenderInvariant.TotalSizeOfChunks | src/slideWindowSender.cpp:361-381 | popping a run of items adds up to the true number of bytes passed |
| SenderInvariant.FiringAckResizes | src/slideWindowSender.cpp:298-409 | the ack that fires asks for the head, slides and grows nothing, and resizes the congestion window exactly once per round, to 62 percent but at least 20 |
| SenderInvariant.PunishmentEnlargesIff | src/slideWindowSender.cpp:303-318 | over the whole ackArrived step, a firing ack enlarges the window exactly when it is below 20 and not yet punished |
| SenderInvariant.TimeoutNeverEnlarges | src/slideWindowSender.cpp:493-510 | a timeout check never enlarges the congestion window |
| SenderInvariant.AckArrivedBehindHead | src/slideWindowSender.cpp:276-338 | behind the head an ack changes nothing but the item it marks |
| Ledger.AckKeepsBalance | src/slideWindowSender.cpp:298-409 | the three counts stay balanced across any ack |
| Ledger.TimeoutKeepsBalance | src/slideWindowSender.cpp:493-510 | the three counts stay balanced across any timeout check |
| Ledger.AckCountsExactly | src/slideWindowSender.cpp:298-409 | the counts are exact, and the congestion window only changes in a counted growth or punishment |
| Ledger.TimeoutCountsExactly | src/slideWindowSender.cpp:489-510 | a timeout check counts a punishment exactly when the flag goes up, and otherwise leaves window and threshold alone |
| ReceiverRules.StoredIffInside | src/slideWindowReceiver.cpp:128-183 | a packet is stored and answered by its own number exactly when it is less than 200 past the next expected one; any other changes neither set nor file and is answered by that number twice |
| ReceiverRules.ReceivesIff | src/slideWindowReceiver.cpp:107-205 | step and reply are the only ones that obey the rule: 200 slots from the least missing number on, the payload written once at the 32-bit offset, FINISH noted, the two ack fields |
| ReceiverInvariant.ReceiveAddsToSet | src/slideWindowReceiver.cpp:128-183 | a packet adds its number to the received set exactly when it is within the buffer |
| ReceiverInvariant.ReceiveKeepsInv | src/slideWindowReceiver.cpp:107-205 | slots stay contiguous, the head stays missing even when all 200 slide, the file stays the one the received set determines |
| ReceiverInvariant.NextIsLeastMissing | src/slideWindowReceiver.cpp:158-175 | the next expected number is the least number not received |
| ReceiverInvariant.ReplyIsSound | src/slideWindowReceiver.cpp:131-177 | the two ack fields are equal exactly for an out-of-buffer packet; otherwise the selective one names a stored packet |
| ReceiverInvariant.WrittenOnce | src/slideWindowReceiver.cpp:147-152 | a number already received is never written again |
| ReceiverInvariant.PlacedGrows | src/slideWindowReceiver.cpp:150-151 | writing one packet turns the file of a set of packets into the file of the set with it |
| ReceiverInvariant.ArrivalOrderIrrelevant | src/slideWindowReceiver.cpp:107-205 | at any moment, any order and repetition of the same packets below the end of the buffer stores the same packets and writes the same file |
| ReceiverInvariant.OrderIrrelevantIff | src/slideWindowReceiver.cpp:128-133 | and below a given bound order is irrelevant if and only if the bound is at most 200 past the next expected number |
| ReceiverInvariant.FinishedMeansAllReceived | src/slideWindowReceiver.cpp:93-99 | finished() means that every packet of the transfer has been received |
| Transfer.LastPacket | src/slideWindowSender.cpp:133-140 | the packets cut the transfer without gap, and the wrapped 32-bit arithmetic still gives the last packet's true size |
| Transfer.ChunkIsSlice | src/slideWindowSender.cpp:60-70 | what is read for a packet is the full slice at its 32-bit offset |
| Transfer.OffsetsExact | src/slideWindowReceiver.cpp:150 | the 32-bit offsets of packets 0..last are the true ones exactly when last <= 2962046 |
| Transfer.RangesDisjoint | src/slideWindowReceiver.cpp:150-151 | under that bound no two packets share a byte of the file |
| RttModel.EstimatesBounded | src/rttEstimatorJacobson.cpp:49-75 | for any weights and any samples in [lo, hi] the timeout stays in [lo, hi] and the deviation below max(hi - lo, init / 4), where it starts |
| RttModel.FirstTimeout | src/rttEstimatorJacobson.cpp:35-41 | a fresh estimator hands out (11 * t + 40 * (t / 4)) / 10, between 2 * t - 3 and 2.1 * t |
| RttModel.StepIsIntegral | src/rttEstimatorJacobson.cpp:61-67 | with the sender's weights one sample is whole-number arithmetic: an eighth and a quarter, rounded down, the deviation from the old timeout |
| RttModel.SettledIff | src/rttEstimatorJacobson.cpp:61-67 | the exact fixed points under a constant sample, with the update order of section 2.3 of RFC 6298 |
| RttModel.ConstantSamplesSettle | src/rttEstimatorJacobson.cpp:61-67 | a constant round trip is settled on after finitely many samples, for good |
| RttModel.SettledTimeoutCovers | src/rttEstimatorJacobson.cpp:78-82 | over the estimators that some initial timeout and samples produce, the settled timeout always covers the round trip exactly when it is 0 or at least 33 |
| Codec.DecodeEncodeData | src/packet.c:21-89 | reading a filled data packet gives it back |
| Codec.EncodeDecodeData | src/packet.c:21-89 | filling a read data packet gives the datagram back for every recognised tag |
| Codec.DecodeEncodeAck | src/packet.c:97-156 | reading a filled ack gives it back |
| Codec.EncodeDecodeAck | src/packet.c:97-156 | filling a read ack gives the datagram back for every recognised tag |
| Codec.EncodedIffLaidOut | src/packet.c:26-54 | bytes are a packet's encoding exactly when they spell hs, re or fi, then the little-endian number, the two 64-bit time words and the payload, at offsets 0, 2, 6 and 22 |
| Codec.AckEncodedIffLaidOut | src/packet.c:102-127 | bytes are an ack's encoding exactly when they spell hs or re, the cumulative, the selective number and the time, at offsets 0, 2, 6 and 10 |
| Codec.FillBufferDataPacket | src/packet.c:21-54 | the buffer's first bytes become the packet's encoding and the rest is untouched |
| Codec.ReadBufferDataPacket | src/packet.c:57-89 | the struct becomes the decoded packet; an unrecognised tag changes the type only |
| Codec.FillBufferAckPacket | src/packet.c:97-127 | the buffer's first 26 bytes become the ack's encoding and the rest is untouched |
| Codec.ReadBufferAckPacket | src/packet.c:130-156 | the struct becomes the decoded ack; an unrecognised tag changes the type only |
| WireTrip.PacketsSurviveWire | src/reliable_receiver.cpp:169-179 | every packet of every run fits a datagram and is read back as it was sent |
| WireTrip.AcksSurviveWire | src/reliable_sender.cpp:369-383 | every ack of every run is read back as it was sent |
| WireTrip.ElapsedSurvives | src/reliable_sender.cpp:171-176 | elapsed microseconds survive the split of times into seconds and microseconds |
| SlideWindowSenders.SlideWindowSender.constructor | src/slideWindowSender.cpp:124-172 | the object starts in the state the rule fixes and satisfies the invariant |
| SlideWindowSenders.SlideWindowSender.PrepareDataPacketsToSend | src/slideWindowSender.cpp:208-263 | the loop over the deque takes the preparing step, obeys its rule, with both flags down, and returns its packets |
| SlideWindowSenders.SlideWindowSender.AckArrived | src/slideWindowSender.cpp:267-450 | the six blocks together take the ack step, obey its rule and keep the invariant |
| SlideWindowSenders.SlideWindowSender.CountAck | src/slideWindowSender.cpp:298-344 | the duplicate counting block takes the fast retransmission step |
| SlideWindowSenders.SlideWindowSender.SlideTo | src/slideWindowSender.cpp:350-384 | the pop loop removes what the ack passes and counts its bytes |
| SlideWindowSenders.SlideWindowSender.GrowCongestionWindow | src/slideWindowSender.cpp:391-409 | at the growth bound the block adds the window to itself up to the threshold, or 20 from there on, and sets the next bound |
| SlideWindowSenders.SlideWindowSender.FillDeque | src/slideWindowSender.cpp:413-434 | the fill loop takes the refill step |
| SlideWindowSenders.SlideWindowSender.CheckTimeout | src/slideWindowSender.cpp:454-526 | the check takes the timeout step, obeys its rule and keeps the invariant |
| SlideWindowReceivers.SlideWindowReceiver.ReceiveDataPacket | src/slideWindowReceiver.cpp:107-205 | buffering, sliding and refilling take the receiving step, obey its rule with 200 slots, and return its reply |
| SlideWindowReceivers.SlideWindowReceiver.PopReceived | src/slideWindowReceiver.cpp:158-175 | the slide loop passes exactly the received run at the head |
| RttEstimators.RttEstimatorJacobson.constructor | src/rttEstimatorJacobson.cpp:35-41 | the timeout starts at the handshake's estimate and the deviation at a quarter of it |
| RttEstimators.RttEstimatorJacobson.AckArrived | src/rttEstimatorJacobson.cpp:49-75 | deviation first, then timeout: one estimator step on the elapsed time |
| RttEstimators.RttEstimatorJacobson.GetCurrentTimeoutUs | src/rttEstimatorJacobson.cpp:78-90 | the threshold in whole microseconds, (11 * timeout + 40 * deviation) / 10 rounded down: at least the estimate plus four deviations, and at most a tenth of the estimate above that |

## Left out

- Sockets, file descriptors, argument parsing, profiling and printing: the source is a byte sequence, the destination a map from offsets to bytes.
- Mutexes, the condition variable and the plain `done` flag: each locked method is one atomic step, steps interleave arbitrarily, and lost notifications are outside the model.
- Pointer lifetime: a prepared packet's payload is a value copied at prepare time, and the payload of a read packet a copy of the buffer; the original keeps pointers into the item and into the buffer.
- Unconditional termination: the network may lose everything for ever, so termination is stated for the receiver under fairness, and completion of both sides as reachability, with its exact condition.
- Scheduling delays in the completion results: a thread that oversleeps or a `recvfrom` that returns late can make a reachable completion miss its moment; how likely completion is, is not modelled.
- The handshake loop: its leftover packets and acks may be on the wire when the transfer starts, and its result is an arbitrary initial timeout.
- Sequence number wrap-around, transfers of zero bytes, sources shorter than `bytesToSend`, and clocks that step backwards.
- Datagrams that neither endpoint sent: their type may be unrecognised, which the codec model reports and the receiver ignores.
- `lastAckAckedCount` is an unbounded counter; its overflow after 2^31 repetitions of one ack is not modelled.
- `printContent`, `stateToString`, the debug checks, the destructors, the unused `timerMap` and the disabled advertised window.
