/** What the gun, the window and the minimum lap can and cannot do to a derivation. */
module Gun {
  import opened Ordering
  import opened Domain
  import opened Bursts
  import opened Selection
  import opened MinimumLap
  import opened Crediting
  import opened Laps
  import opened Derive
  import opened Evidence
  import opened Provenance
  import opened OrderBlind

  // ----- The gun filters nothing -----

  lemma GunBlindBurst(rules: Rules, gun: Option<Time>, bursts: seq<Burst>, i: nat)
    requires rules.minLapMs.None? && i < |bursts|
    ensures var other := rules.(gun := gun);
            && Map(CrossingIn, BurstCredits(rules, bursts, i)) == Map(CrossingIn, BurstCredits(other, bursts, i))
            && BurstRefusals(rules, bursts, i) == BurstRefusals(other, bursts, i)
  {
    NoMinimumCreditsAll(TrackOf(rules, bursts), i);
    NoMinimumCreditsAll(TrackOf(rules.(gun := gun), bursts), i);
  }

  ghost predicate SameButSide(a: Outcome, b: Outcome)
  {
    Map(CrossingIn, a.credits) == Map(CrossingIn, b.credits) && a.refusals == b.refusals
  }

  lemma {:induction false} SameButSideAll(a: seq<Outcome>, b: seq<Outcome>)
    requires |a| == |b| && forall i :: 0 <= i < |a| ==> SameButSide(a[i], b[i])
    ensures Map(CrossingIn, CreditsOf(a)) == Map(CrossingIn, CreditsOf(b)) && RefusalsOf(a) == RefusalsOf(b)
  {
    if a != [] {
      var n := |a| - 1;
      SameButSideAll(a[..n], b[..n]);
      MapConcat(CrossingIn, CreditsOf(a[..n]), a[n].credits);
      MapConcat(CrossingIn, CreditsOf(b[..n]), b[n].credits);
      assert SameButSide(a[n], b[n]);
    }
  }

  lemma {:induction false} GunBlindLanes(input: Input, gun: Option<Time>, lanes: seq<LaneId>)
    requires input.policy.minLapMs.None?
    ensures var other := input.(gun := gun);
            && Map(CrossingIn, AllCredits(input, lanes)) == Map(CrossingIn, AllCredits(other, lanes))
            && AllRefusals(input, lanes) == AllRefusals(other, lanes)
  {
    if lanes != [] {
      var other, front, lane := input.(gun := gun), lanes[..|lanes| - 1], lanes[|lanes| - 1];
      GunBlindLanes(input, gun, front);
      var bursts := BurstsIn(input, lane);
      var a, b := Outcomes(RulesFor(input, lane), bursts), Outcomes(RulesFor(other, lane), bursts);
      forall i | 0 <= i < |bursts|
        ensures SameButSide(a[i], b[i])
      {
        GunBlindBurst(RulesFor(input, lane), gun, bursts, i);
      }
      SameButSideAll(a, b);
      MapConcat(CrossingIn, AllCredits(input, front), CreditsIn(input, lane));
      MapConcat(CrossingIn, AllCredits(other, front), CreditsIn(other, lane));
    }
  }

  /** A piece of evidence without its side of the gun. */
  function Sideless(s: Source): Source
  {
    s.(race := true)
  }

  lemma {:induction false} SidelessCrossings(accepted: seq<AcceptedRead>, a: map<Uuid, bool>, b: map<Uuid, bool>)
    ensures Map(Sideless, CrossingSources(accepted, a)) == Map(Sideless, CrossingSources(accepted, b))
  {
    if accepted != [] {
      SidelessCrossings(accepted[..|accepted| - 1], a, b);
    }
  }

  lemma SidelessSources(input: Input, gun: Option<Time>)
    requires Accepted(input) == Accepted(input.(gun := gun))
    ensures Map(Sideless, Sources(input)) == Map(Sideless, Sources(input.(gun := gun)))
  {
    var other := input.(gun := gun);
    var a, b := UnsortedSources(input), UnsortedSources(other);
    SidelessCrossings(Accepted(input), SidesOf(Credits(input)), SidesOf(Credits(other)));
    MapConcat(Sideless, CrossingSources(Accepted(input), SidesOf(Credits(input))),
              ManualSources(input.manual, input.gun));
    MapConcat(Sideless, CrossingSources(Accepted(other), SidesOf(Credits(other))), ManualSources(input.manual, gun));
    assert Map(Sideless, ManualSources(input.manual, input.gun)) == Map(Sideless, ManualSources(input.manual, gun));
    SortMap(a, Sideless, SourceKey, SourceKey);
    SortMap(b, Sideless, SourceKey, SourceKey);
  }

  ghost predicate SameButLap(a: TimingEvent, b: TimingEvent)
  {
    a.participant == b.participant && a.checkpoint == b.checkpoint && a.at == b.at && a.origin == b.origin
  }

  /** With no minimum lap, moving, adding or removing the gun changes no crossing and no
      suppression, and no timing event except in its lap and the identifier naming that lap. */
  lemma GunFiltersNothing(input: Input, gun: Option<Time>)
    requires input.policy.minLapMs.None?
    ensures var d, e := Derived(input), Derived(input.(gun := gun));
            && d.accepted == e.accepted && d.rejected == e.rejected
            && |d.timingEvents| == |e.timingEvents|
            && forall i :: 0 <= i < |d.timingEvents| ==> SameButLap(d.timingEvents[i], e.timingEvents[i])
  {
    var other := input.(gun := gun);
    GunBlindLanes(input, gun, Lanes(input.journal, input.antennas));
    SidelessSources(input, gun);
    var s, t := Sources(input), Sources(other);
    forall i | 0 <= i < |s|
      ensures SameButLap(Derived(input).timingEvents[i], Derived(other).timingEvents[i])
    {
      assert Map(Sideless, s)[i] == Map(Sideless, t)[i];
    }
  }

  // ----- Counting crossings -----

  function CountOn(credits: seq<Credit>, race: bool): nat
  {
    if credits == [] then 0
    else CountOn(credits[..|credits| - 1], race) + if credits[|credits| - 1].race == race then 1 else 0
  }

  lemma {:induction false} CountBoth(credits: seq<Credit>)
    ensures |credits| == CountOn(credits, true) + CountOn(credits, false)
  {
    if credits != [] {
      CountBoth(credits[..|credits| - 1]);
    }
  }

  lemma CountStep(credits: seq<Credit>, more: seq<Credit>, race: bool)
    requires |more| <= 1
    ensures CountOn(credits + more, race)
            == CountOn(credits, race) + if more != [] && more[0].race == race then 1 else 0
  {
    if more == [] {
      assert credits + more == credits;
    } else {
      assert (credits + more)[..|credits|] == credits;
    }
  }

  /** One credit where the track credits the burst, on the burst's side, and none elsewhere. */
  ghost predicate Shaped(credits: seq<Credit>, track: Track, i: nat, race: bool, minLapMs: Option<U64>)
    requires i < |track|
  {
    && |credits| == (if Credited(track, i, minLapMs) then 1 else 0)
    && (credits != [] && credits[0].race == race <==> JoinsSide(track, i, race, minLapMs))
  }

  lemma CreditShape(rules: Rules, bursts: seq<Burst>, i: nat, race: bool)
    requires i < |bursts|
    ensures Shaped(Outcomes(rules, bursts)[i].credits, TrackOf(rules, bursts), i, race, rules.minLapMs)
  {
  }

  lemma {:induction false} OutcomeCounts(outs: seq<Outcome>, track: Track, n: nat, race: bool, minLapMs: Option<U64>)
    requires n <= |outs| == |track|
    requires forall i :: 0 <= i < n ==> Shaped(outs[i].credits, track, i, race, minLapMs)
    ensures CountOn(CreditsOf(outs[..n]), race) == |CreditedOn(track, n, race, minLapMs)|
  {
    if n > 0 {
      OutcomeCounts(outs, track, n - 1, race, minLapMs);
      OutcomesStep(outs, n - 1);
      CreditedOnGrows(track, n - 1, race, minLapMs);
      ShapedCounts(CreditsOf(outs[..n - 1]), outs[n - 1].credits, track, n - 1, race, minLapMs);
    }
  }

  lemma ShapedCounts(before: seq<Credit>, credits: seq<Credit>, track: Track, i: nat, race: bool, minLapMs: Option<U64>)
    requires i < |track| && Shaped(credits, track, i, race, minLapMs)
    ensures CountOn(before + credits, race)
            == CountOn(before, race) + if JoinsSide(track, i, race, minLapMs) then 1 else 0
  {
    CountStep(before, credits, race);
  }

  lemma LaneCounts(rules: Rules, bursts: seq<Burst>, race: bool)
    ensures CountOn(CreditsOf(Outcomes(rules, bursts)), race)
            == |CreditedOn(TrackOf(rules, bursts), |bursts|, race, rules.minLapMs)|
  {
    var outs, track := Outcomes(rules, bursts), TrackOf(rules, bursts);
    forall i | 0 <= i < |outs|
      ensures Shaped(outs[i].credits, track, i, race, rules.minLapMs)
    {
      CreditShape(rules, bursts, i, race);
    }
    OutcomeCounts(outs, track, |outs|, race, rules.minLapMs);
    assert outs[..|outs|] == outs;
  }

  lemma GroupIsTimeOrdered(input: Input, lane: LaneId)
    ensures TimeOrdered(GroupIn(input, lane))
  {
    var group := GroupIn(input, lane);
    SortSorted(InLane(input.journal, input.antennas, lane), ReadKey);
    forall i, j | 0 <= i < j < |group|
      ensures At(group[i]) <= At(group[j])
    {
      assert Leq(ReadKey(group[i]), ReadKey(group[j]));
    }
  }

  function TrackIn(input: Input, lane: LaneId): Track
  {
    TrackOf(RulesFor(input, lane), BurstsIn(input, lane))
  }

  /** On each lane and each side of the gun, no choice of selectable bursts pairwise at least the
      minimum lap apart has more members than the derivation has crossings there. */
  lemma CrossingsAreAsManyAsPossible(input: Input, lane: LaneId, race: bool, s: set<nat>)
    requires OnSide(TrackIn(input, lane), |TrackIn(input, lane)|, race, s)
    requires Spaced(TrackIn(input, lane), s, input.policy.minLapMs)
    ensures |s| <= CountOn(CreditsIn(input, lane), race)
  {
    var rules, bursts := RulesFor(input, lane), BurstsIn(input, lane);
    GroupIsTimeOrdered(input, lane);
    CandidatesOrdered(GroupIn(input, lane), WindowFor(input.policy, lane.checkpoint), rules.rule, rules.gun);
    CreditIsOptimal(TrackIn(input, lane), race, rules.minLapMs, s);
    LaneCounts(rules, bursts, race);
  }

  lemma GunNeverLowersLane(input: Input, gun: Option<Time>, lane: LaneId)
    requires input.gun.None?
    ensures |CreditsIn(input, lane)| <= |CreditsIn(input.(gun := gun), lane)|
  {
    var other := input.(gun := gun);
    var bursts := BurstsIn(input, lane);
    var bare, gunned := RulesFor(input, lane), RulesFor(other, lane);
    GroupIsTimeOrdered(other, lane);
    CandidatesOrdered(GroupIn(other, lane), WindowFor(other.policy, lane.checkpoint), gunned.rule, gun);
    assert TrackOf(bare, bursts) == NoGun(TrackOf(gunned, bursts));
    GunNeverLowers(TrackOf(gunned, bursts), bare.minLapMs);
    CountBoth(CreditsIn(input, lane));
    CountBoth(CreditsIn(other, lane));
    LaneCounts(bare, bursts, true);
    LaneCounts(bare, bursts, false);
    LaneCounts(gunned, bursts, true);
    LaneCounts(gunned, bursts, false);
  }

  ghost predicate NoMore(input: Input, other: Input, lane: LaneId)
  {
    |CreditsIn(input, lane)| <= |CreditsIn(other, lane)|
  }

  lemma {:induction false} CompareLanes(input: Input, other: Input, lanes: seq<LaneId>)
    requires forall lane :: NoMore(input, other, lane)
    ensures |AllCredits(input, lanes)| <= |AllCredits(other, lanes)|
  {
    if lanes != [] {
      CompareLanes(input, other, lanes[..|lanes| - 1]);
      assert NoMore(input, other, lanes[|lanes| - 1]);
    }
  }

  lemma AcceptedCount(input: Input)
    ensures |Accepted(input)| == |Credits(input)|
  {
    SortPermutes(Map(CrossingIn, Credits(input)), AcceptedKey);
  }

  /** Recording a gun never lowers the number of crossings a derivation accepts. */
  lemma RecordingAGunNeverLowers(input: Input, gun: Option<Time>)
    requires input.gun.None?
    ensures |Derived(input).accepted| <= |Derived(input.(gun := gun)).accepted|
  {
    var other := input.(gun := gun);
    forall lane
      ensures NoMore(input, other, lane)
    {
      GunNeverLowersLane(input, gun, lane);
    }
    CompareLanes(input, other, Lanes(input.journal, input.antennas));
    AcceptedCount(input);
    AcceptedCount(other);
  }

  // ----- Wider windows -----

  /** The same rules with windows at least as wide everywhere. */
  ghost predicate Widens(wide: TimingPolicy, narrow: TimingPolicy)
  {
    && wide.minLapMs == narrow.minLapMs
    && forall checkpoint :: WindowFor(narrow, checkpoint) <= WindowFor(wide, checkpoint)
                            && SelectionRuleFor(narrow, checkpoint) == SelectionRuleFor(wide, checkpoint)
  }

  lemma {:induction false} OutcomesSelectable(outs: seq<Outcome>, bursts: seq<Burst>, rule: SelectionRule)
    requires |outs| == |bursts|
    requires forall i :: 0 <= i < |outs| ==> |outs[i].credits| == SelectableOne(bursts[i], rule)
    ensures |CreditsOf(outs)| == SelectableCount(bursts, rule)
  {
    if outs != [] {
      OutcomesSelectable(outs[..|outs| - 1], bursts[..|outs| - 1], rule);
    }
  }

  lemma CreditsAreSelectable(input: Input, lane: LaneId)
    requires input.policy.minLapMs.None?
    ensures |CreditsIn(input, lane)|
            == SelectableCount(BurstsIn(input, lane), SelectionRuleFor(input.policy, lane.checkpoint))
  {
    var rules, bursts := RulesFor(input, lane), BurstsIn(input, lane);
    forall i | 0 <= i < |bursts|
      ensures |Outcomes(rules, bursts)[i].credits| == SelectableOne(bursts[i], rules.rule)
    {
      CreditShape(rules, bursts, i, true);
      NoMinimumCreditsAll(TrackOf(rules, bursts), i);
    }
    OutcomesSelectable(Outcomes(rules, bursts), bursts, rules.rule);
  }

  /** With no minimum lap, widening the deduplication windows never adds a crossing. */
  lemma WiderWindowsNeverAdd(input: Input, wide: TimingPolicy)
    requires input.policy.minLapMs.None? && Widens(wide, input.policy)
    ensures |Derived(input.(policy := wide)).accepted| <= |Derived(input).accepted|
  {
    var other := input.(policy := wide);
    forall lane
      ensures NoMore(other, input, lane)
    {
      CreditsAreSelectable(input, lane);
      CreditsAreSelectable(other, lane);
      WiderWindowSelectsFewer(GroupIn(input, lane), WindowFor(input.policy, lane.checkpoint),
                              WindowFor(wide, lane.checkpoint), SelectionRuleFor(wide, lane.checkpoint));
    }
    CompareLanes(other, input, Lanes(input.journal, input.antennas));
    AcceptedCount(input);
    AcceptedCount(other);
  }

  // ----- Crossings of one burst -----

  /** A crossing accepted from the burst numbered `i` of a lane. */
  ghost predicate AcceptedFrom(input: Input, lane: LaneId, i: nat, c: AcceptedRead)
    requires i < |BurstsIn(input, lane)|
  {
    && c in Derived(input).accepted && c.chip == lane.chip && c.checkpoint == lane.checkpoint
    && c.burst == Map(IdOf, BurstsIn(input, lane)[i]) && TrackIn(input, lane)[i].Some?
    && c.at == TrackIn(input, lane)[i].value.at
  }

  lemma CreditIsAccepted(input: Input, lane: LaneId, i: nat) returns (c: AcceptedRead)
    requires lane in Lanes(input.journal, input.antennas) && i < |BurstsIn(input, lane)|
    requires Credited(TrackIn(input, lane), i, input.policy.minLapMs)
    ensures c == CrossingOf(RulesFor(input, lane), BurstsIn(input, lane)[i]) && AcceptedFrom(input, lane, i, c)
  {
    var rules, bursts := RulesFor(input, lane), BurstsIn(input, lane);
    c := CrossingOf(rules, bursts[i]);
    LaneCreditPresent(rules, bursts, i);
    var k := Credit(c, OnTheRaceSide(bursts[i], rules.gun));
    CreditPresent(input, Lanes(input.journal, input.antennas), lane, k);
    AcceptedAreCredits(input, c);
  }

  /** No warm-up costs a runner their start: whatever reads came before, the first burst on the race
      side of the gun that a read can be selected from is an accepted crossing. */
  lemma FirstRaceSideIsAccepted(input: Input, lane: LaneId, i: nat) returns (c: AcceptedRead)
    requires lane in Lanes(input.journal, input.antennas) && i < |BurstsIn(input, lane)|
    requires Select(BurstsIn(input, lane)[i], RulesFor(input, lane).rule).Some?
    requires OnTheRaceSide(BurstsIn(input, lane)[i], input.gun)
    requires forall k :: 0 <= k < i && Select(BurstsIn(input, lane)[k], RulesFor(input, lane).rule).Some? ==>
               !OnTheRaceSide(BurstsIn(input, lane)[k], input.gun)
    ensures AcceptedFrom(input, lane, i, c)
  {
    FirstRaceSideIsCredited(TrackIn(input, lane), i, input.policy.minLapMs);
    c := CreditIsAccepted(input, lane, i);
  }

  // ----- Laps on one chip -----

  lemma TrackInOrder(input: Input, lane: LaneId)
    ensures Ordered(TrackIn(input, lane))
  {
    var rules := RulesFor(input, lane);
    GroupIsTimeOrdered(input, lane);
    CandidatesOrdered(GroupIn(input, lane), WindowFor(input.policy, lane.checkpoint), rules.rule, rules.gun);
  }

  lemma CreditOnTrack(input: Input, k: Credit) returns (p: nat)
    requires k in Credits(input)
    ensures var track := TrackIn(input, LaneId(k.crossing.chip, k.crossing.checkpoint));
            && p < |track| && track[p] == Some(Candidate(k.crossing.at, k.race))
            && JoinsSide(track, p, k.race, input.policy.minLapMs)
  {
    var lane := CreditOrigin(input, Lanes(input.journal, input.antennas), k);
    p := LaneCreditOrigin(RulesFor(input, lane), BurstsIn(input, lane), k);
  }

  /** A later crossing of the same chip at the same place is on the race side if an earlier one is. */
  lemma LaneRaceMonotone(input: Input, k: Credit, l: Credit)
    requires k in Credits(input) && l in Credits(input)
    requires k.crossing.chip == l.crossing.chip && k.crossing.checkpoint == l.crossing.checkpoint
    requires k.crossing.at <= l.crossing.at && k.race
    ensures l.race
  {
    var p := CreditOnTrack(input, k);
    var q := CreditOnTrack(input, l);
    TrackInOrder(input, LaneId(k.crossing.chip, k.crossing.checkpoint));
    OrderOnTrack(TrackIn(input, LaneId(k.crossing.chip, k.crossing.checkpoint)), p, q);
  }

  lemma OrderOnTrack(track: Track, p: nat, q: nat)
    requires Ordered(track) && p < |track| && q < |track| && track[p].Some? && track[q].Some?
    ensures track[p].value.at <= track[q].value.at <==> p <= q
    ensures p <= q && track[p].value.race ==> track[q].value.race
  {
  }

  /** The source a crossing became carries that crossing's own side and time. */
  lemma SourceOfCrossing(input: Input, s: Source, c: AcceptedRead) returns (k: Credit)
    requires Once(Ids(input.journal)) && NoCollisions(input)
    requires s in Sources(input) && c in Accepted(input) && s.origin == FromCrossing(c.id)
    ensures k in Credits(input) && k.crossing == c && k.race == s.race && s.at == c.at
    ensures Some(s.participant) == c.participant && s.checkpoint == c.checkpoint
    ensures forall l :: l in Credits(input) && l.crossing.id == c.id ==> l == k
  {
    var sides := SidesOf(Credits(input));
    SortPermutes(UnsortedSources(input), SourceKey);
    assert s in UnsortedSources(input);
    if s in ManualSources(input.manual, input.gun) {
      ManualSourceOrigin(input.manual, input.gun, s);
    }
    CrossingSourceOrigin(Accepted(input), sides, s);
    var d :| d in Accepted(input) && d.participant.Some? && s == CrossingSource(d, d.participant.value, sides);
    AcceptedIdsDistinct(input, c, d);
    AcceptedAreCredits(input, c);
    k :| k in Credits(input) && k.crossing == c;
    forall l | l in Credits(input) && l.crossing.id == c.id
      ensures l == k
    {
      AcceptedAreCredits(input, l.crossing);
      AcceptedIdsDistinct(input, c, l.crossing);
      AcceptedProvenance(input, c);
      BurstIdsOnce(input, c.source);
      SharedMeansSame(Credits(input), k, l, c.source);
    }
    SideIsOwn(Credits(input), k);
  }

  /** For one chip worn by one participant, laps at a checkpoint never go down. */
  lemma LapsOnOneChipNeverDrop(input: Input, i: nat, j: nat, c: AcceptedRead, d: AcceptedRead)
    requires Once(Ids(input.journal)) && NoCollisions(input)
    requires i < j < |Derived(input).timingEvents| && c in Derived(input).accepted && d in Derived(input).accepted
    requires Derived(input).timingEvents[i].origin == FromCrossing(c.id)
    requires Derived(input).timingEvents[j].origin == FromCrossing(d.id)
    requires c.chip == d.chip && c.checkpoint == d.checkpoint && c.participant == d.participant
    ensures Derived(input).timingEvents[i].lap <= Derived(input).timingEvents[j].lap
  {
    var sources := Sources(input);
    SortSorted(UnsortedSources(input), SourceKey);
    assert Leq(SourceKey(sources[i]), SourceKey(sources[j]));
    var k := SourceOfCrossing(input, sources[i], c);
    var l := SourceOfCrossing(input, sources[j], d);
    if k.race {
      LaneRaceMonotone(input, k, l);
    }
    LapsNeverDrop(sources, i, j);
  }
}
