/** What one lane, a chip at a checkpoint, yields: its crossings and its suppressed reads. */
module Crediting {
  import opened Ordering
  import opened Domain
  import opened Bursts
  import opened Selection
  import opened MinimumLap
  import opened Registry
  import opened Naming

  /** The rules in force on one lane. `v5` hashes a name into an identifier. */
  datatype Rules = Rules(
    chip: string,
    checkpoint: Uuid,
    rule: SelectionRule,
    minLapMs: Option<U64>,
    gun: Option<Time>,
    chips: ChipRegistry,
    v5: string -> Uuid)

  /** A crossing, and whether it is on the race side of the gun. */
  datatype Credit = Credit(crossing: AcceptedRead, race: bool)

  function IdOf(r: Read): Uuid { r.id }

  function CrossingIn(c: Credit): AcceptedRead { c.crossing }

  function CrossingOf(rules: Rules, burst: Burst): AcceptedRead
    requires Select(burst, rules.rule).Some?
  {
    var chosen := Select(burst, rules.rule).value;
    AcceptedRead(
      rules.v5(AcceptedReadName(rules.checkpoint, rules.chip, chosen.id)),
      rules.checkpoint,
      rules.chip,
      ParticipantAt(rules.chips, rules.chip, At(chosen)),
      At(chosen),
      chosen.id,
      Map(IdOf, burst),
      chosen.rssi)
  }

  function FloorOf(rule: SelectionRule): I16
  {
    if rule.FirstAboveRssi? then rule.floorDbm else I16_MIN
  }

  /** The reads of a credited burst that were not credited. */
  function Duplicates(burst: Burst, crossing: AcceptedRead): seq<RejectedRead>
  {
    if burst == [] then []
    else
      var last := burst[|burst| - 1];
      Duplicates(burst[..|burst| - 1], crossing) +
      if last.id == crossing.source then []
      else [RejectedRead(last.id, DuplicateWithinWindow(crossing.id, ToI64(WholeMs(At(last) - crossing.at))))]
  }

  function BelowFloor(burst: Burst, floorDbm: I16): (r: seq<RejectedRead>)
    ensures |r| == |burst|
    ensures forall i :: 0 <= i < |r| ==> r[i] == RejectedRead(burst[i].id, BelowRssiFloor(burst[i].rssi, floorDbm))
  {
    seq(|burst|, i requires 0 <= i < |burst| => RejectedRead(burst[i].id, BelowRssiFloor(burst[i].rssi, floorDbm)))
  }

  function LappedTooSoon(burst: Burst, minLapMs: U64, actualMs: int): (r: seq<RejectedRead>)
    ensures |r| == |burst|
    ensures forall i :: 0 <= i < |r| ==> r[i] == RejectedRead(burst[i].id, BelowMinLap(minLapMs, actualMs))
  {
    seq(|burst|, i requires 0 <= i < |burst| => RejectedRead(burst[i].id, BelowMinLap(minLapMs, actualMs)))
  }

  function TrackOf(rules: Rules, bursts: seq<Burst>): Track
  {
    Candidates(bursts, rules.rule, rules.gun)
  }

  function BurstCredits(rules: Rules, bursts: seq<Burst>, i: nat): seq<Credit>
    requires i < |bursts|
  {
    if Credited(TrackOf(rules, bursts), i, rules.minLapMs)
    then [Credit(CrossingOf(rules, bursts[i]), OnTheRaceSide(bursts[i], rules.gun))]
    else []
  }

  function BurstRefusals(rules: Rules, bursts: seq<Burst>, i: nat): seq<RejectedRead>
    requires i < |bursts|
  {
    var track := TrackOf(rules, bursts);
    if track[i].None? then BelowFloor(bursts[i], FloorOf(rules.rule))
    else if Credited(track, i, rules.minLapMs) then Duplicates(bursts[i], CrossingOf(rules, bursts[i]))
    else
      var last := LastCredited(track, i, rules.minLapMs).value;
      LappedTooSoon(bursts[i], rules.minLapMs.value, ToI64(LapMs(track[last].value, track[i].value)))
  }

  /** What one burst contributes. */
  datatype Outcome = Outcome(credits: seq<Credit>, refusals: seq<RejectedRead>)

  function Outcomes(rules: Rules, bursts: seq<Burst>): (outs: seq<Outcome>)
    ensures |outs| == |bursts|
    ensures forall i :: 0 <= i < |outs| ==>
              outs[i] == Outcome(BurstCredits(rules, bursts, i), BurstRefusals(rules, bursts, i))
  {
    seq(|bursts|, i requires 0 <= i < |bursts| =>
      Outcome(BurstCredits(rules, bursts, i), BurstRefusals(rules, bursts, i)))
  }

  function CreditsOf(outs: seq<Outcome>): seq<Credit>
  {
    if outs == [] then [] else CreditsOf(outs[..|outs| - 1]) + outs[|outs| - 1].credits
  }

  function RefusalsOf(outs: seq<Outcome>): seq<RejectedRead>
  {
    if outs == [] then [] else RefusalsOf(outs[..|outs| - 1]) + outs[|outs| - 1].refusals
  }

  lemma OutcomesStep(outs: seq<Outcome>, i: nat)
    requires i < |outs|
    ensures CreditsOf(outs[..i + 1]) == CreditsOf(outs[..i]) + outs[i].credits
    ensures RefusalsOf(outs[..i + 1]) == RefusalsOf(outs[..i]) + outs[i].refusals
  {
    assert outs[..i + 1][..i] == outs[..i];
  }

  /** The race side of each crossing, by identifier; a later one with the same identifier wins. */
  function SidesOf(credits: seq<Credit>): map<Uuid, bool>
  {
    if credits == [] then map[]
    else
      var last := credits[|credits| - 1];
      SidesOf(credits[..|credits| - 1])[last.crossing.id := last.race]
  }

  lemma {:induction false} SidesConcat(a: seq<Credit>, b: seq<Credit>)
    ensures SidesOf(a + b) == SidesOf(a) + SidesOf(b)
  {
    if b == [] {
      assert a + b == a;
    } else {
      assert (a + b)[..|a + b| - 1] == a + b[..|b| - 1];
      SidesConcat(a, b[..|b| - 1]);
    }
  }

  method RejectDuplicates(burst: Burst, crossing: AcceptedRead) returns (rejected: seq<RejectedRead>)
    ensures rejected == Duplicates(burst, crossing)
  {
    rejected := [];
    for i := 0 to |burst|
      invariant rejected == Duplicates(burst[..i], crossing)
    {
      var stored := burst[i];
      assert burst[..i + 1][..i] == burst[..i];
      if stored.id != crossing.source {
        var interval := WholeMs(At(stored) - crossing.at);
        rejected := rejected + [RejectedRead(stored.id, DuplicateWithinWindow(crossing.id, ToI64(interval)))];
      }
    }
    assert burst[..|burst|] == burst;
  }

  /** What the loop remembers of the crossing before: when it was credited, and its side. */
  ghost function Remembered(track: Track, i: nat, minLapMs: Option<U64>): Option<Candidate>
    requires i <= |track|
  {
    CandidateAt(track, LastCredited(track, i, minLapMs))
  }

  method CreditLane(rules: Rules, bursts: seq<Burst>)
    returns (accepted: seq<AcceptedRead>, rejected: seq<RejectedRead>, raceSides: map<Uuid, bool>)
    ensures accepted == Map(CrossingIn, CreditsOf(Outcomes(rules, bursts)))
    ensures rejected == RefusalsOf(Outcomes(rules, bursts))
    ensures raceSides == SidesOf(CreditsOf(Outcomes(rules, bursts)))
  {
    accepted, rejected, raceSides := [], [], map[];
    var lastCredited: Option<(Time, bool)> := None;
    LaneStart(rules, bursts);
    for i := 0 to |bursts|
      invariant LaneState(rules, bursts, i, accepted, rejected, raceSides, lastCredited)
    {
      var some, more, credited := CreditBurst(rules, bursts[i], lastCredited);
      LaneNext(rules, bursts, i, accepted, rejected, raceSides, lastCredited, some, more, credited);
      accepted := accepted + some;
      rejected := rejected + more;
      raceSides := raceSides + if some == [] then map[] else map[some[0].id := OnTheRaceSide(bursts[i], rules.gun)];
      lastCredited := credited;
    }
    LaneDone(rules, bursts, accepted, rejected, raceSides, lastCredited);
  }

  /** What the loop holds once the first `i` bursts are done. */
  ghost predicate LaneState(rules: Rules, bursts: seq<Burst>, i: nat, accepted: seq<AcceptedRead>,
                            rejected: seq<RejectedRead>, raceSides: map<Uuid, bool>, last: Option<(Time, bool)>)
    requires i <= |bursts|
  {
    && Through(Outcomes(rules, bursts)[..i], accepted, rejected, raceSides)
    && Recalled(last) == Remembered(TrackOf(rules, bursts), i, rules.minLapMs)
  }

  lemma LaneStart(rules: Rules, bursts: seq<Burst>)
    ensures LaneState(rules, bursts, 0, [], [], map[], None)
  {
  }

  lemma LaneNext(rules: Rules, bursts: seq<Burst>, i: nat, accepted: seq<AcceptedRead>,
                 rejected: seq<RejectedRead>, raceSides: map<Uuid, bool>, last: Option<(Time, bool)>,
                 some: seq<AcceptedRead>, more: seq<RejectedRead>, now: Option<(Time, bool)>)
    requires i < |bursts| && LaneState(rules, bursts, i, accepted, rejected, raceSides, last)
    requires BurstOutcome(rules, bursts[i], last, some, more, now)
    ensures LaneState(rules, bursts, i + 1, accepted + some, rejected + more,
                      raceSides + if some == [] then map[] else map[some[0].id := OnTheRaceSide(bursts[i], rules.gun)],
                      now)
  {
    BurstStep(rules, bursts, i, last, some, more, now);
    ThroughNext(Outcomes(rules, bursts), i, accepted, rejected, raceSides);
  }

  lemma LaneDone(rules: Rules, bursts: seq<Burst>, accepted: seq<AcceptedRead>,
                 rejected: seq<RejectedRead>, raceSides: map<Uuid, bool>, last: Option<(Time, bool)>)
    requires LaneState(rules, bursts, |bursts|, accepted, rejected, raceSides, last)
    ensures Through(Outcomes(rules, bursts), accepted, rejected, raceSides)
  {
    assert Outcomes(rules, bursts)[..|bursts|] == Outcomes(rules, bursts);
  }

  /** What the loop holds after the bursts with these outcomes. */
  ghost predicate Through(outs: seq<Outcome>, accepted: seq<AcceptedRead>, rejected: seq<RejectedRead>,
                          raceSides: map<Uuid, bool>)
  {
    && accepted == Map(CrossingIn, CreditsOf(outs))
    && rejected == RefusalsOf(outs)
    && raceSides == SidesOf(CreditsOf(outs))
  }

  lemma ThroughNext(outs: seq<Outcome>, i: nat, accepted: seq<AcceptedRead>, rejected: seq<RejectedRead>,
                    raceSides: map<Uuid, bool>)
    requires i < |outs| && Through(outs[..i], accepted, rejected, raceSides)
    ensures Through(outs[..i + 1], accepted + Map(CrossingIn, outs[i].credits), rejected + outs[i].refusals,
                    raceSides + SidesOf(outs[i].credits))
  {
    OutcomesStep(outs, i);
    MapConcat(CrossingIn, CreditsOf(outs[..i]), outs[i].credits);
    SidesConcat(CreditsOf(outs[..i]), outs[i].credits);
  }

  /** What one burst yields, given what was last credited. */
  ghost predicate BurstOutcome(rules: Rules, burst: Burst, last: Option<(Time, bool)>,
                               accepted: seq<AcceptedRead>, rejected: seq<RejectedRead>, now: Option<(Time, bool)>)
  {
    var next := CandidateOf(burst, rules.rule, rules.gun);
    if next.None? then
      accepted == [] && now == last && rejected == BelowFloor(burst, FloorOf(rules.rule))
    else if TooSoon(Recalled(last), next.value, rules.minLapMs) then
      && accepted == [] && now == last
      && rejected == LappedTooSoon(burst, rules.minLapMs.value, ToI64(LapMs(Recalled(last).value, next.value)))
    else
      && accepted == [CrossingOf(rules, burst)] && now == Some((next.value.at, next.value.race))
      && rejected == Duplicates(burst, CrossingOf(rules, burst))
  }

  method CreditBurst(rules: Rules, burst: Burst, lastCredited: Option<(Time, bool)>)
    returns (accepted: seq<AcceptedRead>, rejected: seq<RejectedRead>, nowCredited: Option<(Time, bool)>)
    ensures BurstOutcome(rules, burst, lastCredited, accepted, rejected, nowCredited)
  {
    var chosen := Select(burst, rules.rule);
    if chosen.None? {
      return [], BelowFloor(burst, FloorOf(rules.rule)), lastCredited;
    }
    var at := At(chosen.value);
    var raceSide := OnTheRaceSide(burst, rules.gun);
    if rules.minLapMs.Some? && lastCredited.Some? && (lastCredited.value.1 || !raceSide) {
      var elapsed := WholeMs(at - lastCredited.value.0);
      if elapsed < rules.minLapMs.value {
        return [], LappedTooSoon(burst, rules.minLapMs.value, ToI64(elapsed)), lastCredited;
      }
    }
    var crossing := CrossingOf(rules, burst);
    rejected := RejectDuplicates(burst, crossing);
    return [crossing], rejected, Some((at, raceSide));
  }

  function Recalled(last: Option<(Time, bool)>): Option<Candidate>
  {
    if last.None? then None else Some(Candidate(last.value.0, last.value.1))
  }

  lemma BurstStep(rules: Rules, bursts: seq<Burst>, i: nat, last: Option<(Time, bool)>,
                  some: seq<AcceptedRead>, more: seq<RejectedRead>, now: Option<(Time, bool)>)
    requires i < |bursts|
    requires Recalled(last) == Remembered(TrackOf(rules, bursts), i, rules.minLapMs)
    requires BurstOutcome(rules, bursts[i], last, some, more, now)
    ensures some == Map(CrossingIn, BurstCredits(rules, bursts, i)) && more == BurstRefusals(rules, bursts, i)
    ensures SidesOf(BurstCredits(rules, bursts, i))
            == if some == [] then map[] else map[some[0].id := OnTheRaceSide(bursts[i], rules.gun)]
    ensures Recalled(now) == Remembered(TrackOf(rules, bursts), i + 1, rules.minLapMs)
  {
    var credits := BurstCredits(rules, bursts, i);
    if credits != [] {
      assert credits[..0] == [];
    }
  }
}
