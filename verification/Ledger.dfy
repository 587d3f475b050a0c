/** Counts, over a whole run, how often the congestion window grew, how often it was punished,
    how many sending rounds there were and how often fast retransmission fired. */
module Ledger {
  import opened Transfer
  import opened SenderModel
  import SenderInvariant

  datatype Tally = Tally(growths: nat, punishments: nat, rounds: nat, fastFires: nat)

  function One(b: bool): nat {
    if b then 1 else 0
  }

  function OnRound(t: Tally): Tally {
    t.(rounds := t.rounds + 1)
  }

  function OnTimeout(t: Tally, s: Sender, now: nat, timeoutUs: nat): Tally {
    t.(punishments := t.punishments + One(TimeoutPunishes(s, now, timeoutUs)))
  }

  function OnAck(t: Tally, cfg: Config, s: Sender, cumulative: nat, selective: nat): Tally
    requires Passed(s, cumulative) <= |s.window|
  {
    var fires := FastFires(cfg, s, cumulative);
    var slid := Slide(BeforeSlide(cfg, s, cumulative, selective), cumulative);
    t.(growths := t.growths + One(Grows(slid)),
       punishments := t.punishments + One(fires && !s.punished),
       fastFires := t.fastFires + One(fires))
  }

  /** Every growth is paid for by ten packets of progress. */
  predicate GrowthPaid(t: Tally, s: Sender) {
    10 * t.growths <= s.left && 10 * (t.growths + 1) <= s.growAt
  }

  /** At most one punishment per sending round. */
  predicate PunishedOncePerRound(t: Tally, s: Sender) {
    t.punishments <= t.rounds + One(s.punished)
  }

  /** Fast retransmission fires at most once per left bound. */
  predicate FiresOncePerBound(t: Tally, s: Sender) {
    t.fastFires <= s.left + One(s.lastAckCount >= DUP_ACKS)
  }

  predicate Balanced(t: Tally, s: Sender) {
    GrowthPaid(t, s) && PunishedOncePerRound(t, s) && FiresOncePerBound(t, s)
  }

  lemma InitBalanced(cfg: Config)
    ensures Balanced(Tally(0, 0, 0, 0), Init(cfg))
  {
  }

  lemma RoundKeepsBalance(t: Tally, s: Sender, now: nat)
    requires Balanced(t, s)
    ensures Balanced(OnRound(t), Prepare(s, now))
  {
  }

  lemma TimeoutKeepsBalance(t: Tally, s: Sender, now: nat, timeoutUs: nat)
    requires Balanced(t, s)
    ensures Balanced(OnTimeout(t, s, now, timeoutUs), CheckTimeout(s, now, timeoutUs))
  {
  }

  /** The counters before the window slides. */
  lemma BeforeSlideCounts(cfg: Config, s: Sender, cumulative: nat, selective: nat)
    ensures var r := BeforeSlide(cfg, s, cumulative, selective); var fires := FastFires(cfg, s, cumulative);
            && r.left == s.left
            && r.growAt == (if fires && !s.punished then s.left + NewThreshold(s.cwnd) else s.growAt)
            && r.punished == (s.punished || fires)
            && r.lastAckCount == (if !cfg.fastRetransmission || s.lastAck > cumulative then s.lastAckCount
                                  else if s.lastAck == cumulative then s.lastAckCount + 1 else 0)
            && (!fires || s.punished ==> r.cwnd == s.cwnd && r.threshold == s.threshold)
  {
  }

  lemma GrowKeepsPaid(t: Tally, s: Sender)
    requires GrowthPaid(t, s) && s.cwnd >= CWND_MIN && s.threshold >= THRESHOLD_MIN
    ensures GrowthPaid(t.(growths := t.growths + One(Grows(s))), Grow(s))
  {
  }

  lemma AckKeepsBalance(t: Tally, cfg: Config, s: Sender, cumulative: nat, selective: nat)
    requires SenderInvariant.Inv(cfg, s) && Balanced(t, s)
    requires Passed(s, cumulative) <= |s.window|
    ensures Balanced(OnAck(t, cfg, s, cumulative, selective), AckArrived(cfg, s, cumulative, selective))
  {
    var before := BeforeSlide(cfg, s, cumulative, selective);
    var slid := Slide(before, cumulative);
    BeforeSlideCounts(cfg, s, cumulative, selective);
    SenderInvariant.BeforeSlideKeeps(cfg, s, cumulative, selective);
    SenderInvariant.ThresholdFacts(s.cwnd);
    GrowKeepsPaid(t, slid);
  }

  /** The counts are exact, read off the states before and after an ack: a growth is counted
      when the left bound reaches the growth bound, a punishment when the flag goes up, a fast
      retransmission when the repetition count reaches two. Without a growth or a punishment
      the congestion window and its threshold stay as they are. */
  lemma AckCountsExactly(t: Tally, cfg: Config, s: Sender, cumulative: nat, selective: nat)
    requires SenderInvariant.Inv(cfg, s) && Passed(s, cumulative) <= |s.window|
    ensures var after := AckArrived(cfg, s, cumulative, selective);
            var counted := OnAck(t, cfg, s, cumulative, selective);
            && counted.rounds == t.rounds
            && counted.growths == t.growths + One(after.left >= s.growAt)
            && counted.punishments == t.punishments + One(!s.punished && after.punished)
            && counted.fastFires == t.fastFires + One(s.lastAckCount == 1 && after.lastAckCount == DUP_ACKS)
            && (counted.growths == t.growths && counted.punishments == t.punishments ==>
                 after.cwnd == s.cwnd && after.threshold == s.threshold)
  {
    BeforeSlideCounts(cfg, s, cumulative, selective);
    SenderInvariant.ThresholdFacts(s.cwnd);
  }

  /** Likewise for a timeout check. */
  lemma TimeoutCountsExactly(t: Tally, s: Sender, now: nat, timeoutUs: nat)
    ensures var after := CheckTimeout(s, now, timeoutUs); var counted := OnTimeout(t, s, now, timeoutUs);
            && counted == t.(punishments := t.punishments + One(!s.punished && after.punished))
            && (counted == t ==> after.cwnd == s.cwnd && after.threshold == s.threshold)
  {
  }
}
