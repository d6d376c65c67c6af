/** Every conclusion walks back to the reads it rests on. */
module Provenance {
  import opened Ordering
  import opened Domain
  import opened Bursts
  import opened Selection
  import opened MinimumLap
  import opened Registry
  import opened Naming
  import opened Crediting
  import opened Derive
  import opened Evidence

  // ----- Where a credit came from -----

  ghost predicate CreditOfBurst(rules: Rules, bursts: seq<Burst>, i: nat, c: Credit)
  {
    && i < |bursts| && Credited(TrackOf(rules, bursts), i, rules.minLapMs)
    && c == Credit(CrossingOf(rules, bursts[i]), OnTheRaceSide(bursts[i], rules.gun))
  }

  lemma {:induction false} CreditInOutcome(outs: seq<Outcome>, c: Credit)
    ensures c in CreditsOf(outs) <==> exists i :: 0 <= i < |outs| && c in outs[i].credits
  {
    if outs != [] {
      CreditInOutcome(outs[..|outs| - 1], c);
      if i :| 0 <= i < |outs| && c in outs[i].credits {
        assert i < |outs| - 1 ==> c in outs[..|outs| - 1][i].credits;
      }
    }
  }

  lemma {:induction false} RefusalInOutcome(outs: seq<Outcome>, r: RejectedRead)
    requires r in RefusalsOf(outs)
    ensures exists i :: 0 <= i < |outs| && r in outs[i].refusals
  {
    if r !in outs[|outs| - 1].refusals {
      RefusalInOutcome(outs[..|outs| - 1], r);
      var i :| 0 <= i < |outs| - 1 && r in outs[..|outs| - 1][i].refusals;
      assert r in outs[i].refusals;
    }
  }

  lemma LaneCreditOrigin(rules: Rules, bursts: seq<Burst>, c: Credit) returns (i: nat)
    requires c in CreditsOf(Outcomes(rules, bursts))
    ensures i < |bursts| && CreditOfBurst(rules, bursts, i, c)
  {
    CreditInOutcome(Outcomes(rules, bursts), c);
    i :| 0 <= i < |bursts| && c in Outcomes(rules, bursts)[i].credits;
  }

  lemma LaneCreditPresent(rules: Rules, bursts: seq<Burst>, i: nat)
    requires i < |bursts| && Credited(TrackOf(rules, bursts), i, rules.minLapMs)
    ensures Credit(CrossingOf(rules, bursts[i]), OnTheRaceSide(bursts[i], rules.gun))
            in CreditsOf(Outcomes(rules, bursts))
  {
    var k := Credit(CrossingOf(rules, bursts[i]), OnTheRaceSide(bursts[i], rules.gun));
    assert k in Outcomes(rules, bursts)[i].credits;
    CreditInOutcome(Outcomes(rules, bursts), k);
  }

  lemma {:induction false} CreditOrigin(input: Input, lanes: seq<LaneId>, c: Credit) returns (lane: LaneId)
    requires c in AllCredits(input, lanes)
    ensures lane in lanes && c in CreditsIn(input, lane)
  {
    var last := lanes[|lanes| - 1];
    if c in CreditsIn(input, last) {
      lane := last;
    } else {
      lane := CreditOrigin(input, lanes[..|lanes| - 1], c);
    }
  }

  lemma {:induction false} CreditPresent(input: Input, lanes: seq<LaneId>, lane: LaneId, c: Credit)
    requires lane in lanes && c in CreditsIn(input, lane)
    ensures c in AllCredits(input, lanes)
  {
    if lane != lanes[|lanes| - 1] {
      CreditPresent(input, lanes[..|lanes| - 1], lane, c);
    }
  }

  lemma AcceptedAreCredits(input: Input, c: AcceptedRead)
    ensures c in Accepted(input) <==> exists k :: k in Credits(input) && k.crossing == c
  {
    var crossings := Map(CrossingIn, Credits(input));
    SortPermutes(crossings, AcceptedKey);
    assert c in Accepted(input) <==> c in crossings;
    if c in crossings {
      var i :| 0 <= i < |crossings| && crossings[i] == c;
      assert Credits(input)[i] in Credits(input);
    }
    if k :| k in Credits(input) && k.crossing == c {
      InMap(CrossingIn, Credits(input), k);
    }
  }

  // ----- Reads of a burst -----

  lemma {:induction false} InFlatten(bursts: seq<Burst>, i: nat, r: Read)
    requires i < |bursts| && r in bursts[i]
    ensures r in Flatten(bursts)
  {
    if i < |bursts| - 1 {
      InFlatten(bursts[..|bursts| - 1], i, r);
    }
  }

  lemma {:induction false} InLaneMeans(journal: seq<Read>, m: AntennaMap, lane: LaneId, r: Read)
    ensures r in InLane(journal, m, lane) <==> r in journal && LaneOf(m, r) == Some(lane)
  {
    if journal != [] {
      InLaneMeans(journal[..|journal| - 1], m, lane, r);
    }
  }

  lemma BurstReads(input: Input, lane: LaneId, i: nat, r: Read)
    requires i < |BurstsIn(input, lane)| && r in BurstsIn(input, lane)[i]
    ensures r in input.journal && LaneOf(input.antennas, r) == Some(lane)
  {
    InFlatten(BurstsIn(input, lane), i, r);
    BurstsOfIsSplit(GroupIn(input, lane), WindowFor(input.policy, lane.checkpoint));
    SortPermutes(InLane(input.journal, input.antennas, lane), ReadKey);
    assert r in GroupIn(input, lane);
    InLaneMeans(input.journal, input.antennas, lane, r);
  }

  /** What a crossing says, said of the read it was credited from. */
  ghost predicate RestsOn(input: Input, c: AcceptedRead, r: Read)
  {
    && r in input.journal && r.id == c.source && At(r) == c.at && r.rssi == c.rssi
    && LaneOf(input.antennas, r) == Some(LaneId(c.chip, c.checkpoint))
    && c.participant == ParticipantAt(input.chips, c.chip, At(r))
    && c.id == input.v5(AcceptedReadName(c.checkpoint, c.chip, r.id))
    && c.source in c.burst
  }

  ghost predicate IsReadOfLane(input: Input, id: Uuid, c: AcceptedRead)
  {
    exists r :: r in input.journal && r.id == id && LaneOf(input.antennas, r) == Some(LaneId(c.chip, c.checkpoint))
  }

  lemma AcceptedProvenance(input: Input, c: AcceptedRead)
    requires c in Derived(input).accepted
    ensures exists r :: RestsOn(input, c, r)
    ensures forall id :: id in c.burst ==> IsReadOfLane(input, id, c)
  {
    AcceptedAreCredits(input, c);
    var k :| k in Credits(input) && k.crossing == c;
    var lane := CreditOrigin(input, Lanes(input.journal, input.antennas), k);
    var rules, bursts := RulesFor(input, lane), BurstsIn(input, lane);
    var i := LaneCreditOrigin(rules, bursts, k);
    var r := Select(bursts[i], rules.rule).value;
    BurstReads(input, lane, i, r);
    InMap(IdOf, bursts[i], r);
    assert RestsOn(input, c, r);
    forall id | id in c.burst
      ensures IsReadOfLane(input, id, c)
    {
      var j :| 0 <= j < |c.burst| && c.burst[j] == id;
      BurstReads(input, lane, i, bursts[i][j]);
    }
  }

  // ----- Bursts of different crossings are disjoint -----

  function BurstIds(credits: seq<Credit>): multiset<Uuid>
  {
    if credits == [] then multiset{}
    else BurstIds(credits[..|credits| - 1]) + multiset(credits[|credits| - 1].crossing.burst)
  }

  lemma {:induction false} BurstIdsAppend(a: seq<Credit>, b: seq<Credit>)
    ensures BurstIds(a + b) == BurstIds(a) + BurstIds(b)
  {
    if b == [] {
      assert a + b == a;
    } else {
      assert (a + b)[..|a + b| - 1] == a + b[..|b| - 1];
      BurstIdsAppend(a, b[..|b| - 1]);
    }
  }

  lemma {:induction false} OutcomesBurstIds(outs: seq<Outcome>, bursts: seq<Burst>)
    requires |outs| == |bursts|
    requires forall i :: 0 <= i < |outs| ==> BurstIds(outs[i].credits) <= Ids(bursts[i])
    ensures BurstIds(CreditsOf(outs)) <= Ids(Flatten(bursts))
  {
    if outs != [] {
      var n := |outs| - 1;
      OutcomesBurstIds(outs[..n], bursts[..n]);
      BurstIdsAppend(CreditsOf(outs[..n]), outs[n].credits);
      MapAppend(IdOf, Flatten(bursts[..n]), bursts[n]);
    }
  }

  lemma LaneBurstIds(rules: Rules, bursts: seq<Burst>)
    ensures BurstIds(CreditsOf(Outcomes(rules, bursts))) <= Ids(Flatten(bursts))
  {
    forall i | 0 <= i < |bursts|
      ensures BurstIds(Outcomes(rules, bursts)[i].credits) <= Ids(bursts[i])
    {
      OneBurstIds(rules, bursts, i);
    }
    OutcomesBurstIds(Outcomes(rules, bursts), bursts);
  }

  lemma OneBurstIds(rules: Rules, bursts: seq<Burst>, i: nat)
    requires i < |bursts|
    ensures BurstIds(BurstCredits(rules, bursts, i)) <= Ids(bursts[i])
  {
    var credits := BurstCredits(rules, bursts, i);
    if credits != [] {
      assert credits[..0] == [];
      assert BurstIds(credits) == BurstIds([]) + multiset(credits[0].crossing.burst);
    }
  }

  lemma {:induction false} AllBurstIds(input: Input, lanes: seq<LaneId>)
    ensures BurstIds(AllCredits(input, lanes)) <= LaneIds(lanes, input.journal, input.antennas)
  {
    if lanes != [] {
      var front, lane := lanes[..|lanes| - 1], lanes[|lanes| - 1];
      AllBurstIds(input, front);
      BurstIdsAppend(AllCredits(input, front), CreditsIn(input, lane));
      LaneBurstIds(RulesFor(input, lane), BurstsIn(input, lane));
      LaneReads(input, lane);
    }
  }

  lemma {:induction false} SharedCountsTwice(credits: seq<Credit>, i: nat, j: nat, id: Uuid)
    requires i < |credits| && id in credits[i].crossing.burst
    ensures BurstIds(credits)[id] >= 1
    ensures i < j < |credits| && id in credits[j].crossing.burst ==> BurstIds(credits)[id] >= 2
  {
    var front, last := credits[..|credits| - 1], credits[|credits| - 1];
    assert id in last.crossing.burst ==> id in multiset(last.crossing.burst);
    if i < |front| {
      SharedCountsTwice(front, i, j, id);
    }
  }

  lemma SharedMeansSame(credits: seq<Credit>, k: Credit, l: Credit, id: Uuid)
    requires BurstIds(credits)[id] <= 1
    requires k in credits && l in credits && id in k.crossing.burst && id in l.crossing.burst
    ensures k == l
  {
    var i :| 0 <= i < |credits| && credits[i] == k;
    var j :| 0 <= j < |credits| && credits[j] == l;
    if i < j {
      SharedCountsTwice(credits, i, j, id);
    } else if j < i {
      SharedCountsTwice(credits, j, i, id);
    }
  }

  lemma BurstIdsOnce(input: Input, id: Uuid)
    requires Once(Ids(input.journal))
    ensures BurstIds(Credits(input))[id] <= 1
  {
    EverythingTallies(input);
    AllBurstIds(input, Lanes(input.journal, input.antennas));
  }

  /** No read is evidence for two crossings. */
  lemma BurstsAreDisjoint(input: Input, c: AcceptedRead, d: AcceptedRead, id: Uuid)
    requires Once(Ids(input.journal))
    requires c in Derived(input).accepted && d in Derived(input).accepted
    requires id in c.burst && id in d.burst
    ensures c == d
  {
    AcceptedAreCredits(input, c);
    AcceptedAreCredits(input, d);
    var k :| k in Credits(input) && k.crossing == c;
    var l :| l in Credits(input) && l.crossing == d;
    BurstIdsOnce(input, id);
    SharedMeansSame(Credits(input), k, l, id);
  }

  // ----- Where a refusal came from -----

  lemma {:induction false} RefusalOrigin(input: Input, lanes: seq<LaneId>, r: RejectedRead) returns (lane: LaneId)
    requires r in AllRefusals(input, lanes)
    ensures lane in lanes && r in RefusalsIn(input, lane)
  {
    var last := lanes[|lanes| - 1];
    if r in RefusalsIn(input, last) {
      lane := last;
    } else {
      lane := RefusalOrigin(input, lanes[..|lanes| - 1], r);
    }
  }

  // ----- Identifiers -----

  /** UUIDv5 does not collide on the names this journal gives it. */
  ghost predicate NoCollisions(input: Input)
  {
    forall r, s :: r in input.journal && s in input.journal && HashedAlike(input, r, s) ==> SameName(input, r, s)
  }

  ghost predicate HashedAlike(input: Input, r: Read, s: Read)
  {
    var l, k := LaneOf(input.antennas, r), LaneOf(input.antennas, s);
    l.Some? && k.Some? && input.v5(AcceptedReadName(l.value.checkpoint, l.value.chip, r.id))
                          == input.v5(AcceptedReadName(k.value.checkpoint, k.value.chip, s.id))
  }

  ghost predicate SameName(input: Input, r: Read, s: Read)
  {
    var l, k := LaneOf(input.antennas, r), LaneOf(input.antennas, s);
    l.Some? && k.Some? && AcceptedReadName(l.value.checkpoint, l.value.chip, r.id)
                          == AcceptedReadName(k.value.checkpoint, k.value.chip, s.id)
  }

  /** One crossing per identifier. */
  lemma AcceptedIdsDistinct(input: Input, c: AcceptedRead, d: AcceptedRead)
    requires Once(Ids(input.journal)) && NoCollisions(input)
    requires c in Derived(input).accepted && d in Derived(input).accepted && c.id == d.id
    ensures c == d
  {
    AcceptedProvenance(input, c);
    AcceptedProvenance(input, d);
    var r :| RestsOn(input, c, r);
    var s :| RestsOn(input, d, s);
    assert HashedAlike(input, r, s);
    assert SameName(input, r, s);
    AcceptedReadNameInjective(c.checkpoint, c.chip, r.id, d.checkpoint, d.chip, s.id);
    BurstsAreDisjoint(input, c, d, c.source);
  }

  /** The side a crossing's lap is numbered by is the side its own burst is on. */
  lemma {:induction false} SideIsOwn(credits: seq<Credit>, k: Credit)
    requires k in credits
    requires forall l :: l in credits && l.crossing.id == k.crossing.id ==> l == k
    ensures k.crossing.id in SidesOf(credits) && SidesOf(credits)[k.crossing.id] == k.race
  {
    var front, last := credits[..|credits| - 1], credits[|credits| - 1];
    assert last in credits;
    if last.crossing.id != k.crossing.id {
      assert forall l :: l in front ==> l in credits;
      SideIsOwn(front, k);
    }
  }
}
