/** Congestion control over whole runs: how far the window grows, what shrinks it and when,
    and that it can always be shrunk again. */
module Congestion {
  import opened Transfer
  import opened Packets
  import opened Protocol
  import opened ProtocolInvariant
  import opened SenderRules
  import Delivery
  import Ledger
  import S = SenderModel
  import SI = SenderInvariant

  // ---- slow start ----

  function Pow2(n: nat): nat {
    if n == 0 then 1 else 2 * Pow2(n - 1)
  }

  /** Until the first punishment the window has doubled with every growth. */
  predicate Doubled(t: Ledger.Tally, s: S.Sender) {
    t.punishments == 0 ==> !s.punished && s.threshold == 0xFFFF_FFFF && s.cwnd == 10 * Pow2(t.growths)
  }

  lemma GrowthDoubles(cfg: Config, t: Ledger.Tally, s: S.Sender, cumulative: nat, u: Ledger.Tally, r: S.Sender)
    requires Doubled(t, s) && AckControls(cfg, s, cumulative, r) && 2 * s.cwnd < WORD
    requires u.growths == t.growths + Ledger.One(r.left >= s.growAt)
    requires u.punishments == t.punishments + Ledger.One(!s.punished && r.punished)
    ensures Doubled(u, r)
  {
  }

  lemma AckKeepsDoubled(cfg: Config, sys: System, a: Ack)
    requires Inv(cfg, sys) && a in sys.acks && a.atype == RegularAck && Doubled(sys.tally, sys.sender)
    ensures Doubled(DoAck(cfg, sys, a).tally, DoAck(cfg, sys, a).sender)
  {
    AckWithinWindow(cfg, sys, a);
    Ledger.AckCountsExactly(sys.tally, cfg, sys.sender, a.cumulative, a.selective);
    AckMeetsControls(cfg, sys.sender, a.cumulative, a.selective);
    SI.CwndFitsWord(cfg, sys.sender);
    GrowthDoubles(cfg, sys.tally, sys.sender, a.cumulative, DoAck(cfg, sys, a).tally, DoAck(cfg, sys, a).sender);
  }

  lemma StepKeepsDoubled(cfg: Config, sys: System, e: Event)
    requires Inv(cfg, sys) && Allowed(cfg, sys, e) && Doubled(sys.tally, sys.sender)
    ensures Doubled(Step(cfg, sys, e).tally, Step(cfg, sys, e).sender)
  {
    match e
    case DeliverAck(a) => AckKeepsDoubled(cfg, sys, a);
    case SendData => PreparesIff(sys.sender, sys.clock, S.Prepare(sys.sender, sys.clock));
    case CheckTimeout => Ledger.TimeoutCountsExactly(sys.tally, sys.sender, sys.clock, sys.readTimeout.value);
    case _ =>
  }

  lemma {:induction false} RunKeepsDoubled(cfg: Config, sys: System, run: seq<Event>)
    requires Inv(cfg, sys) && Legal(cfg, sys, run) && Doubled(sys.tally, sys.sender)
    ensures Doubled(After(cfg, sys, run).tally, After(cfg, sys, run).sender)
    decreases |run|
  {
    if run != [] {
      StepKeepsInv(cfg, sys, run[0]);
      StepKeepsDoubled(cfg, sys, run[0]);
      RunKeepsDoubled(cfg, Step(cfg, sys, run[0]), run[1..]);
    }
  }

  /** As long as nothing was punished, the congestion window is 10 times 2 to the number of
      growths, and there is no threshold. */
  lemma DoublesUntilPunished(cfg: Config, sys: System)
    requires Reachable(cfg, sys) && sys.tally.punishments == 0
    ensures sys.sender.cwnd == 10 * Pow2(sys.tally.growths)
    ensures sys.sender.threshold == 0xFFFF_FFFF && !sys.sender.punished
  {
    var start, run :| Initial(cfg, start) && Legal(cfg, start, run) && sys == After(cfg, start, run);
    InitialInv(cfg, start);
    StartsIff(cfg, start.sender);
    RunKeepsDoubled(cfg, start, run);
  }

  // ---- growth ----

  /** The ack that takes the left bound to the growth bound enlarges the congestion window by
      itself, but at most up to the threshold, or by 20 from the threshold on; the next growth
      is due one whole window later. Any other ack that does not punish leaves all three. */
  lemma GrowsExactly(cfg: Config, sys: System, a: Ack)
    requires Reachable(cfg, sys) && Allowed(cfg, sys, DeliverAck(a))
    ensures var s, r := sys.sender, DoAck(cfg, sys, a).sender;
            && (r.left >= s.growAt ==>
                  && r.cwnd - s.cwnd == (if s.cwnd < s.threshold then Min(s.cwnd, s.threshold - s.cwnd) else 20)
                  && r.growAt == r.left + r.cwnd && r.threshold == s.threshold && r.punished == s.punished
                  && DoAck(cfg, sys, a).tally.growths == sys.tally.growths + 1)
            && (r.left < s.growAt && DoAck(cfg, sys, a).tally.punishments == sys.tally.punishments ==>
                  r.cwnd == s.cwnd && r.growAt == s.growAt && r.threshold == s.threshold)
  {
    ReachableInv(cfg, sys);
    AckWithinWindow(cfg, sys, a);
    AckMeetsControls(cfg, sys.sender, a.cumulative, a.selective);
    Ledger.AckCountsExactly(sys.tally, cfg, sys.sender, a.cumulative, a.selective);
  }

  // ---- timeouts ----

  /** Packet `q` is in flight and every copy of it was sent longer ago than the threshold. */
  ghost predicate Overdue(sys: System, q: nat)
    requires sys.readTimeout != None
  {
    && S.Holds(sys.sender, q) && InFlight(S.At(sys.sender, q))
    && forall p :: p in sys.sentPackets && p.ptype != Handshake && p.seqNum == q ==> sys.clock - p.sentTime > sys.readTimeout.value
  }

  lemma FlightsByNumber(s: S.Sender, now: nat)
    requires forall q: nat :: S.Holds(s, q) && InFlight(S.At(s, q)) ==> S.At(s, q).lastSentTime <= now
    ensures NothingFromLater(s, now)
  {
    forall i | 0 <= i < |s.window| && Flies(s.window[i]) ensures s.window[i].lastSentTime <= now {
      assert S.At(s, s.left + i) == s.window[i];
    }
  }

  lemma NothingSentLater(cfg: Config, sys: System)
    requires Inv(cfg, sys)
    ensures NothingFromLater(sys.sender, sys.clock)
  {
    forall q: nat | S.Holds(sys.sender, q) && InFlight(S.At(sys.sender, q))
      ensures S.At(sys.sender, q).lastSentTime <= sys.clock
    {
      InFlightTime(cfg, sys, q);
    }
    FlightsByNumber(sys.sender, sys.clock);
  }

  lemma LateIsOverdue(cfg: Config, sys: System, q: nat)
    requires Inv(cfg, sys) && sys.readTimeout != None && S.Holds(sys.sender, q)
    ensures Overdue(sys, q) <==> Late(S.At(sys.sender, q), sys.clock, sys.readTimeout.value)
  {
    if InFlight(S.At(sys.sender, q)) {
      InFlightTime(cfg, sys, q);
    }
  }

  lemma OverdueNumber(cfg: Config, sys: System) returns (q: nat)
    requires Inv(cfg, sys) && sys.readTimeout != None
    requires SomeLate(sys.sender.window, sys.clock, sys.readTimeout.value)
    ensures Overdue(sys, q)
  {
    var i :| 0 <= i < |sys.sender.window| && Late(sys.sender.window[i], sys.clock, sys.readTimeout.value);
    q := sys.sender.left + i;
    assert S.At(sys.sender, q) == sys.sender.window[i];
    LateIsOverdue(cfg, sys, q);
  }

  lemma OverdueIsLate(cfg: Config, sys: System, q: nat)
    requires Inv(cfg, sys) && sys.readTimeout != None && Overdue(sys, q)
    ensures SomeLate(sys.sender.window, sys.clock, sys.readTimeout.value)
  {
    LateIsOverdue(cfg, sys, q);
    assert Late(sys.sender.window[q - sys.sender.left], sys.clock, sys.readTimeout.value);
  }

  lemma SomeLateIffOverdue(cfg: Config, sys: System)
    requires Inv(cfg, sys) && sys.readTimeout != None
    ensures SomeLate(sys.sender.window, sys.clock, sys.readTimeout.value) <==> exists q: nat :: Overdue(sys, q)
  {
    if SomeLate(sys.sender.window, sys.clock, sys.readTimeout.value) {
      var q := OverdueNumber(cfg, sys);
    }
    if q: nat :| Overdue(sys, q) {
      OverdueIsLate(cfg, sys, q);
    }
  }

  lemma CheckMeetsHere(cfg: Config, sys: System)
    requires Inv(cfg, sys) && sys.readTimeout != None
    ensures Checks(sys.sender, sys.clock, sys.readTimeout.value, DoCheck(sys).sender)
    ensures SomeLate(sys.sender.window, sys.clock, sys.readTimeout.value) <==> exists q: nat :: Overdue(sys, q)
  {
    NothingSentLater(cfg, sys);
    CheckMeets(sys.sender, sys.clock, sys.readTimeout.value);
    SomeLateIffOverdue(cfg, sys);
  }

  /** A check punishes exactly when no loss was punished yet in this round and some packet is
      overdue. It then takes the window back to 10 and the threshold to 62 percent of the
      window, at least 20; otherwise it leaves window, threshold and growth bound alone. */
  lemma TimeoutPunishesIff(cfg: Config, sys: System)
    requires Reachable(cfg, sys) && Allowed(cfg, sys, CheckTimeout)
    ensures var s, after := sys.sender, DoCheck(sys); var r := after.sender;
            if !s.punished && exists q: nat :: Overdue(sys, q) then
              && r.punished && r.cwnd == 10 && r.growAt == s.left + 10 && Cut(r.threshold, s.cwnd)
              && after.tally.punishments == sys.tally.punishments + 1
            else
              && r.punished == s.punished && r.cwnd == s.cwnd && r.growAt == s.growAt && r.threshold == s.threshold
              && after.tally.punishments == sys.tally.punishments
  {
    ReachableInv(cfg, sys);
    CheckMeetsHere(cfg, sys);
    Ledger.TimeoutCountsExactly(sys.tally, sys.sender, sys.clock, sys.readTimeout.value);
  }

  // ---- one punishment per round, and never none ----

  function Rounds(run: seq<Event>): nat {
    if run == [] then 0 else (if run[0].SendData? then 1 else 0) + Rounds(run[1..])
  }

  lemma {:induction false} RunCountsRounds(cfg: Config, sys: System, run: seq<Event>)
    requires Legal(cfg, sys, run)
    ensures After(cfg, sys, run).tally.rounds == sys.tally.rounds + Rounds(run)
    decreases |run|
  {
    if run != [] {
      RunCountsRounds(cfg, Step(cfg, sys, run[0]), run[1..]);
    }
  }

  /** The congestion window is punished at most once more than there were sending rounds. */
  lemma PunishedPerRound(cfg: Config, start: System, run: seq<Event>)
    requires Initial(cfg, start) && Legal(cfg, start, run)
    ensures After(cfg, start, run).tally.punishments <= Rounds(run) + 1
  {
    InitialInv(cfg, start);
    RunKeepsInv(cfg, start, run);
    RunCountsRounds(cfg, start, run);
  }

  /** After a sending round the flag is down, so the next loss is punished again. */
  lemma SendLowersFlags(cfg: Config, sys: System)
    requires Reachable(cfg, sys) && Allowed(cfg, sys, SendData)
    ensures var s, r := sys.sender, DoSend(cfg, sys).sender;
            && !r.punished && !r.newDataReady
            && r.cwnd == s.cwnd && r.threshold == s.threshold && r.growAt == s.growAt && r.left == s.left
            && forall q: nat :: !SI.Due(r, q)
  {
    PreparesIff(sys.sender, sys.clock, S.Prepare(sys.sender, sys.clock));
    forall q: nat ensures !SI.Due(S.Prepare(sys.sender, sys.clock), q) {
      SI.PreparedOnce(sys.sender, sys.clock, q);
    }
  }

  lemma StepCountsFlag(cfg: Config, sys: System, e: Event)
    requires Inv(cfg, sys) && Allowed(cfg, sys, e) && !e.SendData?
    ensures var after := Step(cfg, sys, e);
            && after.tally.punishments - sys.tally.punishments
               == Ledger.One(after.sender.punished) - Ledger.One(sys.sender.punished)
  {
    match e
    case DeliverAck(a) =>
      AckWithinWindow(cfg, sys, a);
      Ledger.AckCountsExactly(sys.tally, cfg, sys.sender, a.cumulative, a.selective);
      AckMeetsControls(cfg, sys.sender, a.cumulative, a.selective);
    case CheckTimeout =>
      CheckMeetsHere(cfg, sys);
      Ledger.TimeoutCountsExactly(sys.tally, sys.sender, sys.clock, sys.readTimeout.value);
    case _ =>
  }

  /** No sending round in the run. */
  predicate Unsent(run: seq<Event>) {
    forall e :: e in run ==> !e.SendData?
  }

  lemma {:induction false} RunCountsFlag(cfg: Config, sys: System, run: seq<Event>)
    requires Inv(cfg, sys) && Legal(cfg, sys, run) && Unsent(run)
    ensures var after := After(cfg, sys, run);
            && Inv(cfg, after)
            && after.tally.punishments - sys.tally.punishments
               == Ledger.One(after.sender.punished) - Ledger.One(sys.sender.punished)
    decreases |run|
  {
    if run != [] {
      StepCountsFlag(cfg, sys, run[0]);
      StepKeepsInv(cfg, sys, run[0]);
      RunCountsFlag(cfg, Step(cfg, sys, run[0]), run[1..]);
    }
  }

  /** `sys` comes from `run`, without a further sending round, after one in `before`. */
  ghost predicate SinceRound(cfg: Config, before: System, run: seq<Event>, sys: System) {
    && Reachable(cfg, before) && Allowed(cfg, before, SendData)
    && Legal(cfg, DoSend(cfg, before), run) && Unsent(run) && sys == After(cfg, DoSend(cfg, before), run)
  }

  lemma SinceRoundInv(cfg: Config, before: System, run: seq<Event>, sys: System)
    requires SinceRound(cfg, before, run, sys)
    ensures Inv(cfg, sys)
    ensures sys.tally.punishments == before.tally.punishments + Ledger.One(sys.sender.punished)
  {
    ReachableInv(cfg, before);
    SendKeepsInv(cfg, before);
    SendLowersFlags(cfg, before);
    RunCountsFlag(cfg, DoSend(cfg, before), run);
  }

  /** The first packet found overdue since the last sending round is punished ... */
  lemma FirstTimeoutPunishes(cfg: Config, before: System, run: seq<Event>, sys: System)
    requires SinceRound(cfg, before, run, sys) && sys.tally.punishments == before.tally.punishments
    requires Allowed(cfg, sys, CheckTimeout) && exists q: nat :: Overdue(sys, q)
    ensures var after := DoCheck(sys);
            && after.tally.punishments == before.tally.punishments + 1
            && after.sender.cwnd == 10 && after.sender.growAt == after.sender.left + 10
            && Cut(after.sender.threshold, sys.sender.cwnd)
  {
    SinceRoundInv(cfg, before, run, sys);
    CheckMeetsHere(cfg, sys);
    Ledger.TimeoutCountsExactly(sys.tally, sys.sender, sys.clock, sys.readTimeout.value);
  }

  /** ... as is the first ack that fires fast retransmission. */
  lemma FirstFiringPunishes(cfg: Config, before: System, run: seq<Event>, sys: System, a: Ack)
    requires SinceRound(cfg, before, run, sys) && sys.tally.punishments == before.tally.punishments
    requires Allowed(cfg, sys, DeliverAck(a)) && Fires(cfg, sys.sender, a.cumulative)
    ensures var after := DoAck(cfg, sys, a);
            && after.tally.punishments == before.tally.punishments + 1
            && Cut(after.sender.threshold, sys.sender.cwnd) && after.sender.cwnd == after.sender.threshold
            && after.sender.growAt == after.sender.left + after.sender.cwnd
  {
    SinceRoundInv(cfg, before, run, sys);
    AckWithinWindow(cfg, sys, a);
    AckMeetsControls(cfg, sys.sender, a.cumulative, a.selective);
    Ledger.AckCountsExactly(sys.tally, cfg, sys.sender, a.cumulative, a.selective);
  }

  predicate StaysPut(s: S.Sender, r: S.Sender) {
    r.punished && r.threshold == s.threshold && r.cwnd >= s.cwnd
  }

  lemma PunishedAck(cfg: Config, sys: System, a: Ack)
    requires Inv(cfg, sys) && a in sys.acks && a.atype == RegularAck && sys.sender.punished
    ensures StaysPut(sys.sender, DoAck(cfg, sys, a).sender)
  {
    AckWithinWindow(cfg, sys, a);
    AckMeetsControls(cfg, sys.sender, a.cumulative, a.selective);
  }

  lemma PunishedCheck(cfg: Config, sys: System)
    requires Inv(cfg, sys) && sys.readTimeout != None && sys.sender.punished
    ensures StaysPut(sys.sender, DoCheck(sys).sender)
  {
    CheckMeetsHere(cfg, sys);
  }

  lemma PunishedStaysPut(cfg: Config, sys: System, e: Event)
    requires Inv(cfg, sys) && Allowed(cfg, sys, e) && !e.SendData? && sys.sender.punished
    ensures StaysPut(sys.sender, Step(cfg, sys, e).sender)
  {
    match e
    case DeliverAck(a) => PunishedAck(cfg, sys, a);
    case CheckTimeout => PunishedCheck(cfg, sys);
    case _ =>
  }

  /** Once punished, no further loss touches window or threshold before the next round: the
      window can only grow. */
  lemma NoSecondPunishment(cfg: Config, before: System, run: seq<Event>, sys: System, e: Event)
    requires SinceRound(cfg, before, run, sys) && sys.tally.punishments != before.tally.punishments
    requires Allowed(cfg, sys, e) && !e.SendData?
    ensures var after := Step(cfg, sys, e);
            && after.tally.punishments == sys.tally.punishments == before.tally.punishments + 1
            && after.sender.threshold == sys.sender.threshold && after.sender.cwnd >= sys.sender.cwnd
  {
    SinceRoundInv(cfg, before, run, sys);
    StepCountsFlag(cfg, sys, e);
    PunishedStaysPut(cfg, sys, e);
  }

  // ---- when fast retransmission fires ----

  /** How many acks with cumulative number `c` a run hands to the sender. */
  function Repetitions(run: seq<Event>, c: nat): nat {
    if run == [] then 0
    else (if run[0].DeliverAck? && run[0].ack.cumulative == c then 1 else 0) + Repetitions(run[1..], c)
  }

  lemma StepCountsRepetitions(cfg: Config, sys: System, e: Event)
    requires Inv(cfg, sys) && Allowed(cfg, sys, e) && cfg.fastRetransmission
    requires Step(cfg, sys, e).sender.left == sys.sender.left
    ensures Step(cfg, sys, e).sender.lastAckCount
         == sys.sender.lastAckCount + if e.DeliverAck? && e.ack.cumulative == sys.sender.left then 1 else 0
  {
    match e
    case DeliverAck(a) =>
      AckWithinWindow(cfg, sys, a);
      AckMeetsControls(cfg, sys.sender, a.cumulative, a.selective);
    case SendData => PreparesIff(sys.sender, sys.clock, S.Prepare(sys.sender, sys.clock));
    case CheckTimeout => CheckMeetsHere(cfg, sys);
    case _ =>
  }

  lemma {:induction false} RunCountsRepetitions(cfg: Config, sys: System, run: seq<Event>)
    requires Inv(cfg, sys) && Legal(cfg, sys, run) && cfg.fastRetransmission
    requires After(cfg, sys, run).sender.left == sys.sender.left
    ensures Inv(cfg, After(cfg, sys, run))
    ensures After(cfg, sys, run).sender.lastAckCount == sys.sender.lastAckCount + Repetitions(run, sys.sender.left)
    decreases |run|
  {
    if run != [] {
      var next := Step(cfg, sys, run[0]);
      StepKeepsInv(cfg, sys, run[0]);
      Delivery.EdgesAdvance(cfg, sys, run[0]);
      Delivery.EdgesStayAdvanced(cfg, next, run[1..]);
      StepCountsRepetitions(cfg, sys, run[0]);
      RunCountsRepetitions(cfg, next, run[1..]);
    }
  }

  /** The left bound of `sys` is new: it is the first one, or an ack has just set it. */
  ghost predicate BoundIsNew(cfg: Config, sys: System) {
    || Initial(cfg, sys)
    || exists before, a :: Reachable(cfg, before) && Allowed(cfg, before, DeliverAck(a))
                           && a.cumulative > before.sender.left && sys == DoAck(cfg, before, a)
  }

  lemma InitialUnrepeated(cfg: Config, sys: System)
    requires Initial(cfg, sys)
    ensures Inv(cfg, sys) && sys.sender.lastAckCount == 0
  {
    InitialInv(cfg, sys);
    StartsIff(cfg, sys.sender);
  }

  lemma AdvanceResets(cfg: Config, sys: System, a: Ack)
    requires Reachable(cfg, sys) && Allowed(cfg, sys, DeliverAck(a)) && a.cumulative > sys.sender.left && cfg.fastRetransmission
    ensures Inv(cfg, DoAck(cfg, sys, a)) && DoAck(cfg, sys, a).sender.lastAckCount == 0
  {
    ReachableInv(cfg, sys);
    AckKeepsInv(cfg, sys, a);
    AckWithinWindow(cfg, sys, a);
    AckMeetsControls(cfg, sys.sender, a.cumulative, a.selective);
  }

  lemma NewBoundUnrepeated(cfg: Config, sys: System)
    requires BoundIsNew(cfg, sys) && cfg.fastRetransmission
    ensures Inv(cfg, sys) && sys.sender.lastAckCount == 0
  {
    if Initial(cfg, sys) {
      InitialUnrepeated(cfg, sys);
    } else {
      var before, a :| Reachable(cfg, before) && Allowed(cfg, before, DeliverAck(a))
                       && a.cumulative > before.sender.left && sys == DoAck(cfg, before, a);
      AdvanceResets(cfg, before, a);
    }
  }

  /** An ack fires fast retransmission exactly when it repeats the left bound for the second
      time since the bound was set. */
  lemma SecondRepetitionFires(cfg: Config, sys: System, run: seq<Event>, a: Ack)
    requires BoundIsNew(cfg, sys) && Legal(cfg, sys, run) && cfg.fastRetransmission
    requires After(cfg, sys, run).sender.left == sys.sender.left
    ensures Fires(cfg, After(cfg, sys, run).sender, a.cumulative)
       <==> a.cumulative == sys.sender.left && Repetitions(run, sys.sender.left) == 1
    ensures Fires(cfg, After(cfg, sys, run).sender, a.cumulative) <==> S.FastFires(cfg, After(cfg, sys, run).sender, a.cumulative)
  {
    NewBoundUnrepeated(cfg, sys);
    RunCountsRepetitions(cfg, sys, run);
  }
}
