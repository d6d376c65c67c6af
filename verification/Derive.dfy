/** The derivation: from evidence and rules to crossings, suppressions and timing events. */
module Derive {
  import opened Ordering
  import opened Domain
  import opened Registry
  import opened Bursts
  import opened Crediting
  import opened Laps

  /** `gun` numbers laps and bounds the minimum lap; it filters nothing. */
  datatype Input = Input(
    journal: seq<Read>,
    policy: TimingPolicy,
    chips: ChipRegistry,
    antennas: AntennaMap,
    manual: seq<ManualEntry>,
    gun: Option<Time>,
    v5: string -> Uuid)

  datatype LaneId = LaneId(chip: string, checkpoint: Uuid)

  function LaneKey(l: LaneId): Key { TextKey(l.chip, [l.checkpoint]) }

  function ReadKey(r: Read): Key { [At(r), r.seqNo] }

  function AcceptedKey(c: AcceptedRead): Key { [c.at, c.id] }

  function RejectedKey(r: RejectedRead): Key { [r.rawRead] }

  // ----- Grouping -----

  function LaneOf(m: AntennaMap, r: Read): Option<LaneId>
  {
    var checkpoint := Checkpoint(m, r);
    if checkpoint.None? then None else Some(LaneId(r.chip, checkpoint.value))
  }

  function Unmapped(journal: seq<Read>, m: AntennaMap): seq<RejectedRead>
  {
    if journal == [] then []
    else
      var r := journal[|journal| - 1];
      Unmapped(journal[..|journal| - 1], m) +
      if LaneOf(m, r).None? then [RejectedRead(r.id, UnmappedReader(r.source, r.antenna))] else []
  }

  function InLane(journal: seq<Read>, m: AntennaMap, lane: LaneId): seq<Read>
  {
    if journal == [] then []
    else
      var r := journal[|journal| - 1];
      InLane(journal[..|journal| - 1], m, lane) + if LaneOf(m, r) == Some(lane) then [r] else []
  }

  /** The lane of each mapped read. */
  function LanesSeen(journal: seq<Read>, m: AntennaMap): seq<LaneId>
  {
    if journal == [] then []
    else
      var lane := LaneOf(m, journal[|journal| - 1]);
      LanesSeen(journal[..|journal| - 1], m) + if lane.Some? then [lane.value] else []
  }

  /** The keys of the ordered map of groups. */
  function Lanes(journal: seq<Read>, m: AntennaMap): seq<LaneId>
  {
    Sort(Distinct(LanesSeen(journal, m)), LaneKey)
  }

  // ----- Per lane -----

  function RulesFor(input: Input, lane: LaneId): Rules
  {
    Rules(lane.chip, lane.checkpoint, SelectionRuleFor(input.policy, lane.checkpoint), input.policy.minLapMs,
          input.gun, input.chips, input.v5)
  }

  function GroupIn(input: Input, lane: LaneId): seq<Read>
  {
    Sort(InLane(input.journal, input.antennas, lane), ReadKey)
  }

  function BurstsIn(input: Input, lane: LaneId): seq<Burst>
  {
    BurstsOf(GroupIn(input, lane), WindowFor(input.policy, lane.checkpoint))
  }

  function CreditsIn(input: Input, lane: LaneId): seq<Credit>
  {
    CreditsOf(Outcomes(RulesFor(input, lane), BurstsIn(input, lane)))
  }

  function RefusalsIn(input: Input, lane: LaneId): seq<RejectedRead>
  {
    RefusalsOf(Outcomes(RulesFor(input, lane), BurstsIn(input, lane)))
  }

  function AllCredits(input: Input, lanes: seq<LaneId>): seq<Credit>
  {
    if lanes == [] then [] else AllCredits(input, lanes[..|lanes| - 1]) + CreditsIn(input, lanes[|lanes| - 1])
  }

  function AllRefusals(input: Input, lanes: seq<LaneId>): seq<RejectedRead>
  {
    if lanes == [] then [] else AllRefusals(input, lanes[..|lanes| - 1]) + RefusalsIn(input, lanes[|lanes| - 1])
  }

  // ----- Merging -----

  function CrossingSource(c: AcceptedRead, participant: Uuid, raceSides: map<Uuid, bool>): Source
  {
    Source(c.at, participant, c.checkpoint, if c.id in raceSides then raceSides[c.id] else true, FromCrossing(c.id))
  }

  /** A crossing whose chip resolves to nobody has no timing event. */
  function CrossingSources(accepted: seq<AcceptedRead>, raceSides: map<Uuid, bool>): seq<Source>
  {
    if accepted == [] then []
    else
      var c := accepted[|accepted| - 1];
      CrossingSources(accepted[..|accepted| - 1], raceSides) +
      if c.participant.Some? then [CrossingSource(c, c.participant.value, raceSides)] else []
  }

  function ManualSource(e: ManualEntry, gun: Option<Time>): Source
  {
    Source(e.at, e.participant, e.checkpoint, gun.None? || e.at >= gun.value, FromManual(e.id))
  }

  function ManualSources(manual: seq<ManualEntry>, gun: Option<Time>): (r: seq<Source>)
    ensures |r| == |manual|
    ensures forall i :: 0 <= i < |r| ==> r[i] == ManualSource(manual[i], gun)
  {
    seq(|manual|, i requires 0 <= i < |manual| => ManualSource(manual[i], gun))
  }

  // ----- The whole -----

  function Credits(input: Input): seq<Credit>
  {
    AllCredits(input, Lanes(input.journal, input.antennas))
  }

  function Accepted(input: Input): seq<AcceptedRead>
  {
    Sort(Map(CrossingIn, Credits(input)), AcceptedKey)
  }

  function Rejected(input: Input): seq<RejectedRead>
  {
    Sort(Unmapped(input.journal, input.antennas) + AllRefusals(input, Lanes(input.journal, input.antennas)),
         RejectedKey)
  }

  function Sources(input: Input): seq<Source>
  {
    Sort(CrossingSources(Accepted(input), SidesOf(Credits(input))) + ManualSources(input.manual, input.gun), SourceKey)
  }

  function Derived(input: Input): Derivation
  {
    Derivation(Accepted(input), Rejected(input), Events(input.v5, Sources(input), |Sources(input)|))
  }

  // ----- The loops -----

  /** `groups.entry(lane).or_default().push(r)`. */
  function Push(groups: map<LaneId, seq<Read>>, lane: LaneId, r: Read): map<LaneId, seq<Read>>
  {
    groups[lane := (if lane in groups then groups[lane] else []) + [r]]
  }

  method GroupJournal(journal: seq<Read>, m: AntennaMap)
    returns (groups: map<LaneId, seq<Read>>, order: seq<LaneId>, rejected: seq<RejectedRead>)
    ensures order == Distinct(LanesSeen(journal, m))
    ensures forall lane :: lane in groups <==> lane in order
    ensures forall lane :: lane in groups ==> groups[lane] == InLane(journal, m, lane)
    ensures rejected == Unmapped(journal, m)
  {
    groups, order, rejected := map[], [], [];
    for i := 0 to |journal|
      invariant GroupsRight(groups, journal[..i], m)
      invariant order == Distinct(LanesSeen(journal[..i], m))
      invariant forall lane :: lane in groups <==> lane in order
      invariant rejected == Unmapped(journal[..i], m)
    {
      var stored := journal[i];
      assert journal[..i + 1] == journal[..i] + [stored];
      JournalStep(journal[..i], m, stored);
      var lane := LaneOf(m, stored);
      if lane.Some? {
        PushKeepsGroups(groups, journal[..i], m, stored);
        if lane.value !in groups {
          order := order + [lane.value];
        }
        groups := Push(groups, lane.value, stored);
      } else {
        SkipKeepsGroups(groups, journal[..i], m, stored);
        rejected := rejected + [RejectedRead(stored.id, UnmappedReader(stored.source, stored.antenna))];
      }
    }
    assert journal[..|journal|] == journal;
  }

  ghost predicate GroupsRight(groups: map<LaneId, seq<Read>>, journal: seq<Read>, m: AntennaMap)
  {
    forall lane :: InLane(journal, m, lane) == if lane in groups then groups[lane] else []
  }

  lemma JournalStep(journal: seq<Read>, m: AntennaMap, r: Read)
    ensures var lane := LaneOf(m, r);
            Distinct(LanesSeen(journal + [r], m))
            == Distinct(LanesSeen(journal, m))
               + if lane.Some? && lane.value !in Distinct(LanesSeen(journal, m)) then [lane.value] else []
    ensures Unmapped(journal + [r], m)
            == Unmapped(journal, m)
               + if LaneOf(m, r).None? then [RejectedRead(r.id, UnmappedReader(r.source, r.antenna))] else []
  {
    assert (journal + [r])[..|journal|] == journal;
    if LaneOf(m, r).Some? {
      DistinctSnoc(LanesSeen(journal, m), LaneOf(m, r).value);
    } else {
      assert LanesSeen(journal + [r], m) == LanesSeen(journal, m);
    }
  }

  lemma InLaneSnoc(journal: seq<Read>, m: AntennaMap, lane: LaneId, r: Read)
    ensures InLane(journal + [r], m, lane) == InLane(journal, m, lane) + if LaneOf(m, r) == Some(lane) then [r] else []
  {
    assert (journal + [r])[..|journal|] == journal;
  }

  lemma SkipKeepsGroups(groups: map<LaneId, seq<Read>>, journal: seq<Read>, m: AntennaMap, r: Read)
    requires GroupsRight(groups, journal, m) && LaneOf(m, r).None?
    ensures GroupsRight(groups, journal + [r], m)
  {
    forall lane
      ensures InLane(journal + [r], m, lane) == InLane(journal, m, lane)
    {
      InLaneSnoc(journal, m, lane, r);
    }
  }

  lemma PushKeepsGroups(groups: map<LaneId, seq<Read>>, journal: seq<Read>, m: AntennaMap, r: Read)
    requires GroupsRight(groups, journal, m) && LaneOf(m, r).Some?
    ensures GroupsRight(Push(groups, LaneOf(m, r).value, r), journal + [r], m)
  {
    var pushed := Push(groups, LaneOf(m, r).value, r);
    forall lane
      ensures InLane(journal + [r], m, lane) == if lane in pushed then pushed[lane] else []
    {
      InLaneSnoc(journal, m, lane, r);
      assert InLane(journal, m, lane) == if lane in groups then groups[lane] else [];
    }
  }

  lemma DistinctSnoc<T>(s: seq<T>, x: T)
    ensures Distinct(s + [x]) == Distinct(s) + if x in Distinct(s) then [] else [x]
  {
    assert (s + [x])[..|s|] == s;
  }

  method CreditLanes(input: Input, groups: map<LaneId, seq<Read>>, lanes: seq<LaneId>)
    returns (accepted: seq<AcceptedRead>, rejected: seq<RejectedRead>, raceSides: map<Uuid, bool>)
    requires forall lane :: lane in lanes ==>
               lane in groups && groups[lane] == InLane(input.journal, input.antennas, lane)
    ensures accepted == Map(CrossingIn, AllCredits(input, lanes))
    ensures rejected == AllRefusals(input, lanes)
    ensures raceSides == SidesOf(AllCredits(input, lanes))
  {
    accepted, rejected, raceSides := [], [], map[];
    for i := 0 to |lanes|
      invariant accepted == Map(CrossingIn, AllCredits(input, lanes[..i]))
      invariant rejected == AllRefusals(input, lanes[..i])
      invariant raceSides == SidesOf(AllCredits(input, lanes[..i]))
    {
      var lane := lanes[i];
      assert lanes[..i + 1][..i] == lanes[..i] && lane in lanes;
      var group := Sort(groups[lane], ReadKey);
      var bursts := SplitIntoBursts(group, WindowFor(input.policy, lane.checkpoint));
      var some, more, sides := CreditLane(RulesFor(input, lane), bursts);
      MapConcat(CrossingIn, AllCredits(input, lanes[..i]), CreditsIn(input, lane));
      SidesConcat(AllCredits(input, lanes[..i]), CreditsIn(input, lane));
      accepted, rejected, raceSides := accepted + some, rejected + more, raceSides + sides;
    }
    assert lanes[..|lanes|] == lanes;
  }

  method GatherSources(accepted: seq<AcceptedRead>, raceSides: map<Uuid, bool>, manual: seq<ManualEntry>,
                       gun: Option<Time>)
    returns (sources: seq<Source>)
    ensures sources == CrossingSources(accepted, raceSides) + ManualSources(manual, gun)
  {
    sources := [];
    for i := 0 to |accepted|
      invariant sources == CrossingSources(accepted[..i], raceSides)
    {
      assert accepted[..i + 1][..i] == accepted[..i];
      if accepted[i].participant.Some? {
        sources := sources + [CrossingSource(accepted[i], accepted[i].participant.value, raceSides)];
      }
    }
    assert accepted[..|accepted|] == accepted;
    for i := 0 to |manual|
      invariant sources == CrossingSources(accepted, raceSides) + ManualSources(manual[..i], gun)
    {
      sources := sources + [ManualSource(manual[i], gun)];
    }
    assert manual[..|manual|] == manual;
  }

  method DeriveAll(input: Input) returns (d: Derivation)
    ensures d == Derived(input)
  {
    var groups, order, rejected := GroupJournal(input.journal, input.antennas);
    var lanes := Sort(order, LaneKey);
    SortPermutes(order, LaneKey);
    var accepted, refused, raceSides := CreditLanes(input, groups, lanes);
    rejected := rejected + refused;
    accepted := Sort(accepted, AcceptedKey);
    var sources := GatherSources(accepted, raceSides, input.manual, input.gun);
    sources := Sort(sources, SourceKey);
    var events := NumberLaps(input.v5, sources);
    d := Derivation(accepted, Sort(rejected, RejectedKey), events);
  }
}
