/** Every rejection is true of the read it rejects. */
module Reasons {
  import opened Ordering
  import opened Domain
  import opened Bursts
  import opened Selection
  import opened MinimumLap
  import opened Crediting
  import opened Derive
  import opened Evidence
  import opened Provenance
  import Gun

  /** What one burst's refusal says of a read of that burst. */
  ghost predicate TrueOfBurst(rules: Rules, bursts: seq<Burst>, i: nat, read: Read, reason: Reason)
    requires i < |bursts|
  {
    var track := TrackOf(rules, bursts);
    match reason
    case BelowRssiFloor(rssi, floorDbm) =>
      rssi == read.rssi && floorDbm == FloorOf(rules.rule) && track[i].None?
    case BelowMinLap(minLapMs, actualMs) =>
      && rules.minLapMs == Some(minLapMs) && track[i].Some? && !Credited(track, i, rules.minLapMs)
      && LastCredited(track, i, rules.minLapMs).Some?
      && var last := track[LastCredited(track, i, rules.minLapMs).value].value;
         TooSoon(Some(last), track[i].value, rules.minLapMs) && actualMs == ToI64(LapMs(last, track[i].value))
    case DuplicateWithinWindow(_, _) =>
      Credited(track, i, rules.minLapMs) && Duplicating(CrossingOf(rules, bursts[i]), read, reason)
    case UnmappedReader(_, _) => false
  }

  /** A read other than the one credited, this far from it. */
  ghost predicate Duplicating(c: AcceptedRead, read: Read, reason: Reason)
  {
    reason == DuplicateWithinWindow(c.id, ToI64(WholeMs(At(read) - c.at))) && read.id != c.source
  }

  lemma {:induction false} DuplicateSays(burst: Burst, c: AcceptedRead, r: RejectedRead) returns (read: Read)
    requires r in Duplicates(burst, c)
    ensures read in burst && read.id == r.rawRead && Duplicating(c, read, r.reason)
  {
    var front := burst[..|burst| - 1];
    if r in Duplicates(front, c) {
      read := DuplicateSays(front, c, r);
    } else {
      read := burst[|burst| - 1];
    }
  }

  lemma BurstRefusalIsTrue(rules: Rules, bursts: seq<Burst>, i: nat, r: RejectedRead) returns (read: Read)
    requires i < |bursts| && r in BurstRefusals(rules, bursts, i)
    ensures read in bursts[i] && read.id == r.rawRead && TrueOfBurst(rules, bursts, i, read, r.reason)
  {
    var track := TrackOf(rules, bursts);
    if track[i].Some? && Credited(track, i, rules.minLapMs) {
      read := DuplicateSays(bursts[i], CrossingOf(rules, bursts[i]), r);
    } else {
      var k :| 0 <= k < |bursts[i]| && BurstRefusals(rules, bursts, i)[k] == r;
      read := bursts[i][k];
    }
  }

  ghost predicate InBurst(input: Input, lane: LaneId, i: nat, read: Read)
  {
    i < |BurstsIn(input, lane)| && read in BurstsIn(input, lane)[i]
  }

  /** No read of the burst was strong enough. */
  ghost predicate WeakThroughout(input: Input, lane: LaneId, i: nat, read: Read, floorDbm: I16)
  {
    InBurst(input, lane, i, read) && forall x :: x in BurstsIn(input, lane)[i] ==> !Clears(x, floorDbm)
  }

  /** The burst would have been credited this long after the crossing credited last before it on
      its lane, which was on the same side of the gun, and that was too soon. */
  ghost predicate TooSoonAfter(input: Input, lane: LaneId, i: nat, c: AcceptedRead, read: Read,
                               minLapMs: int, actualMs: int)
  {
    && InBurst(input, lane, i, read) && input.policy.minLapMs == Some(minLapMs)
    && var track := Gun.TrackIn(input, lane);
       var last := LastCredited(track, i, input.policy.minLapMs);
       && track[i].Some? && last.Some? && Gun.AcceptedFrom(input, lane, last.value, c)
       && !Credited(track, i, input.policy.minLapMs)
       && track[last.value].value.race == track[i].value.race
       && actualMs == WholeMs(track[i].value.at - c.at) && 0 <= actualMs < minLapMs
  }

  /** What each reason says of its read. */
  ghost predicate TrueOf(input: Input, read: Read, reason: Reason)
  {
    var lane := LaneOf(input.antennas, read);
    match reason
    case UnmappedReader(reader, antenna) => lane.None? && reader == read.source && antenna == read.antenna
    case BelowRssiFloor(rssi, floorDbm) =>
      && lane.Some? && rssi == read.rssi
      && SelectionRuleFor(input.policy, lane.value.checkpoint) == FirstAboveRssi(floorDbm)
      && exists i :: WeakThroughout(input, lane.value, i, read, floorDbm)
    case BelowMinLap(minLapMs, actualMs) =>
      lane.Some? && exists i, c :: TooSoonAfter(input, lane.value, i, c, read, minLapMs, actualMs)
    case DuplicateWithinWindow(_, _) =>
      lane.Some? && exists c :: Repeats(input, lane.value, c, read, reason)
  }

  /** Another read of the burst of this crossing, which is of the same chip and checkpoint. */
  ghost predicate Repeats(input: Input, lane: LaneId, c: AcceptedRead, read: Read, reason: Reason)
  {
    && c in Derived(input).accepted && c.chip == lane.chip && c.checkpoint == lane.checkpoint
    && read.id in c.burst && Duplicating(c, read, reason)
  }

  /** Nothing in a burst without a candidate clears the floor. */
  lemma FloorIsMissed(rules: Rules, bursts: seq<Burst>, i: nat, read: Read)
    requires i < |bursts| && read in bursts[i] && TrackOf(rules, bursts)[i].None?
    ensures rules.rule.FirstAboveRssi? && !Clears(read, rules.rule.floorDbm)
  {
    var k :| 0 <= k < |bursts[i]| && bursts[i][k] == read;
  }

  lemma LapIsTooSoon(input: Input, lane: LaneId, i: nat) returns (c: AcceptedRead)
    requires lane in Lanes(input.journal, input.antennas) && i < |BurstsIn(input, lane)|
    requires Gun.TrackIn(input, lane)[i].Some? && LastCredited(Gun.TrackIn(input, lane), i, input.policy.minLapMs).Some?
    ensures var track := Gun.TrackIn(input, lane);
            var k := LastCredited(track, i, input.policy.minLapMs).value;
            && Gun.AcceptedFrom(input, lane, k, c) && (track[k].value.race ==> track[i].value.race)
            && 0 <= LapMs(track[k].value, track[i].value) <= I64_MAX
  {
    var track := Gun.TrackIn(input, lane);
    var k := LastCredited(track, i, input.policy.minLapMs).value;
    LastCreditedIsLast(track, i, input.policy.minLapMs);
    c := Gun.CreditIsAccepted(input, lane, k);
    assert track[k].value.at < track[i].value.at && (track[k].value.race ==> track[i].value.race) by {
      Gun.TrackInOrder(input, lane);
    }
    NotBefore(track[k].value, track[i].value);
  }

  lemma NotBefore(from: Candidate, to: Candidate)
    requires from.at < to.at
    ensures 0 <= LapMs(from, to) <= I64_MAX
  {
    var d := to.at - from.at;
    WholeMsMonotone(d, 2 * TIME_LIMIT);
  }

  lemma {:induction false} UnmappedSays(journal: seq<Read>, m: AntennaMap, r: RejectedRead) returns (read: Read)
    requires r in Unmapped(journal, m)
    ensures read in journal && read.id == r.rawRead && LaneOf(m, read).None?
    ensures r.reason == UnmappedReader(read.source, read.antenna)
  {
    if r in Unmapped(journal[..|journal| - 1], m) {
      read := UnmappedSays(journal[..|journal| - 1], m, r);
    } else {
      read := journal[|journal| - 1];
    }
  }

  /** A read of one burst of a lane, and a reason that burst gave. */
  ghost predicate Refuses(input: Input, lane: LaneId, i: nat, read: Read, reason: Reason)
  {
    && lane in Lanes(input.journal, input.antennas) && i < |BurstsIn(input, lane)| && read in BurstsIn(input, lane)[i]
    && LaneOf(input.antennas, read) == Some(lane)
    && TrueOfBurst(RulesFor(input, lane), BurstsIn(input, lane), i, read, reason)
  }

  lemma FloorReason(input: Input, lane: LaneId, i: nat, read: Read, reason: Reason)
    requires reason.BelowRssiFloor? && Refuses(input, lane, i, read, reason)
    ensures TrueOf(input, read, reason)
  {
    var rules, bursts := RulesFor(input, lane), BurstsIn(input, lane);
    assert read in bursts[i];
    forall x | x in bursts[i]
      ensures rules.rule == FirstAboveRssi(reason.floorDbm) && !Clears(x, reason.floorDbm)
    {
      FloorIsMissed(rules, bursts, i, x);
    }
    assert WeakThroughout(input, lane, i, read, reason.floorDbm);
  }

  lemma LapReason(input: Input, lane: LaneId, i: nat, read: Read, reason: Reason)
    requires reason.BelowMinLap? && Refuses(input, lane, i, read, reason)
    ensures TrueOf(input, read, reason)
  {
    var c := LapIsTooSoon(input, lane, i);
    assert TooSoonAfter(input, lane, i, c, read, reason.minLapMs, reason.actualMs);
  }

  lemma DuplicateReason(input: Input, lane: LaneId, i: nat, read: Read, reason: Reason, c: AcceptedRead)
    requires LaneOf(input.antennas, read) == Some(lane) && InBurst(input, lane, i, read)
    requires Gun.AcceptedFrom(input, lane, i, c) && Duplicating(c, read, reason)
    ensures TrueOf(input, read, reason)
  {
    ReadIsInBurst(input, lane, i, read, c);
    assert Repeats(input, lane, c, read, reason);
  }

  lemma ReadIsInBurst(input: Input, lane: LaneId, i: nat, read: Read, c: AcceptedRead)
    requires i < |BurstsIn(input, lane)| && read in BurstsIn(input, lane)[i] && Gun.AcceptedFrom(input, lane, i, c)
    ensures read.id in c.burst
  {
    InMap(IdOf, BurstsIn(input, lane)[i], read);
  }

  lemma LaneRefusal(input: Input, lane: LaneId, r: RejectedRead) returns (i: nat, read: Read)
    requires lane in Lanes(input.journal, input.antennas) && r in RefusalsIn(input, lane)
    ensures read in input.journal && read.id == r.rawRead && Refuses(input, lane, i, read, r.reason)
  {
    var rules, bursts := RulesFor(input, lane), BurstsIn(input, lane);
    RefusalInOutcome(Outcomes(rules, bursts), r);
    i :| 0 <= i < |bursts| && r in Outcomes(rules, bursts)[i].refusals;
    read := BurstRefusalIsTrue(rules, bursts, i, r);
    BurstReads(input, lane, i, read);
  }

  lemma RefusalIsTrue(input: Input, lane: LaneId, i: nat, read: Read, reason: Reason)
    requires Refuses(input, lane, i, read, reason)
    ensures TrueOf(input, read, reason)
  {
    if reason.BelowRssiFloor? {
      FloorReason(input, lane, i, read, reason);
    } else if reason.BelowMinLap? {
      LapReason(input, lane, i, read, reason);
    } else if reason.DuplicateWithinWindow? {
      var c := Gun.CreditIsAccepted(input, lane, i);
      DuplicateReason(input, lane, i, read, reason, c);
    }
  }

  /** Whatever is rejected is a read of the journal, and the reason given is true of it. */
  lemma EveryRejectionIsTrue(input: Input, r: RejectedRead) returns (read: Read)
    requires r in Derived(input).rejected
    ensures read in input.journal && read.id == r.rawRead && TrueOf(input, read, r.reason)
  {
    var lanes := Lanes(input.journal, input.antennas);
    var unmapped := Unmapped(input.journal, input.antennas);
    SortPermutes(unmapped + AllRefusals(input, lanes), RejectedKey);
    assert r in unmapped + AllRefusals(input, lanes);
    if r in unmapped {
      read := UnmappedSays(input.journal, input.antennas, r);
    } else {
      var lane := RefusalOrigin(input, lanes, r);
      var i, found := LaneRefusal(input, lane, r);
      RefusalIsTrue(input, lane, i, found, r.reason);
      read := found;
    }
  }
}
