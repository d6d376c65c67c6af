/** What the laws of tracks and of sources say of a whole derivation. */
module DerivedLaws {
  import opened Ordering
  import opened Domain
  import opened Selection
  import opened MinimumLap
  import opened Crediting
  import opened Laps
  import opened Derive
  import opened Evidence
  import opened Provenance
  import opened OrderBlind
  import opened Gun

  // ----- Spacing -----

  /** Crossings accepted for one chip at one checkpoint, on one side of the gun, are a minimum lap
      apart. */
  lemma AcceptedAreSpaced(input: Input, k: Credit, l: Credit)
    requires k in Credits(input) && l in Credits(input) && k.race == l.race
    requires k.crossing.chip == l.crossing.chip && k.crossing.checkpoint == l.crossing.checkpoint
    requires k.crossing.at < l.crossing.at && input.policy.minLapMs.Some?
    ensures WholeMs(l.crossing.at - k.crossing.at) >= input.policy.minLapMs.value
  {
    var track := TrackIn(input, LaneId(k.crossing.chip, k.crossing.checkpoint));
    var p := CreditOnTrack(input, k);
    var q := CreditOnTrack(input, l);
    TrackInOrder(input, LaneId(k.crossing.chip, k.crossing.checkpoint));
    SpacedOnTrack(track, p, q, k.race, input.policy.minLapMs);
  }

  lemma SpacedOnTrack(track: Track, p: nat, q: nat, race: bool, minLapMs: Option<U64>)
    requires Ordered(track) && p < |track| && q < |track| && minLapMs.Some?
    requires JoinsSide(track, p, race, minLapMs) && JoinsSide(track, q, race, minLapMs)
    requires track[p].value.at < track[q].value.at
    ensures LapMs(track[p].value, track[q].value) >= minLapMs.value
  {
    OrderOnTrack(track, q, p);
    CreditedAreSpaced(track, race, minLapMs);
    CreditedOnMeans(track, |track|, race, minLapMs, p);
    CreditedOnMeans(track, |track|, race, minLapMs, q);
    assert FarApart(track, p, q, minLapMs);
  }

  // ----- Laps -----

  /** The side an event is on: its crossing's own, or its entry's instant's. */
  ghost predicate OnRaceSide(input: Input, e: TimingEvent)
  {
    match e.origin
    case FromManual(_) => input.gun.None? || e.at >= input.gun.value
    case FromCrossing(id) => exists k :: k in Credits(input) && k.crossing.id == id && k.race
  }

  lemma SideOfEvent(input: Input, i: nat)
    requires Once(Ids(input.journal)) && NoCollisions(input) && i < |Derived(input).timingEvents|
    ensures OnRaceSide(input, Derived(input).timingEvents[i]) <==> Sources(input)[i].race
  {
    var s, sides := Sources(input)[i], SidesOf(Credits(input));
    SortPermutes(UnsortedSources(input), SourceKey);
    assert s in UnsortedSources(input);
    if s in ManualSources(input.manual, input.gun) {
      ManualSourceOrigin(input.manual, input.gun, s);
    } else {
      CrossingSourceOrigin(Accepted(input), sides, s);
      var c :| c in Accepted(input) && c.participant.Some? && s == CrossingSource(c, c.participant.value, sides);
      var k := SourceOfCrossing(input, s, c);
    }
  }

  /** A race-side event of the participant and checkpoint of the event numbered `j`. */
  ghost predicate LapsWith(input: Input, i: nat, j: nat)
    requires i < |Derived(input).timingEvents| && j < |Derived(input).timingEvents|
  {
    var e, f := Derived(input).timingEvents[i], Derived(input).timingEvents[j];
    OnRaceSide(input, e) && e.participant == f.participant && e.checkpoint == f.checkpoint
  }

  ghost predicate NoneLapsWith(input: Input, i: nat, j: nat)
    requires j < |Derived(input).timingEvents|
  {
    forall k :: i <= k < j ==> !LapsWith(input, k, j)
  }

  /** In a derivation, each participant's race-side events at each checkpoint carry 1, 2, 3 and so on
      in output order, up to the ceiling, and all other events carry 0. */
  lemma LapsOfADerivation(input: Input, j: nat)
    requires Once(Ids(input.journal)) && NoCollisions(input) && j < |Derived(input).timingEvents|
    ensures var events := Derived(input).timingEvents;
            && (!LapsWith(input, j, j) ==> events[j].lap == 0)
            && (LapsWith(input, j, j) && NoneLapsWith(input, 0, j) ==> events[j].lap == 1)
            && forall i :: 0 <= i < j && LapsWith(input, j, j) && LapsWith(input, i, j)
                           && NoneLapsWith(input, i + 1, j) ==>
                 events[j].lap == if events[i].lap < U16_MAX then events[i].lap + 1 else U16_MAX
  {
    var sources, events := Sources(input), Derived(input).timingEvents;
    forall i | 0 <= i <= j
      ensures LapsWith(input, i, j) <==> Counts(sources[i], PostOf(sources[j]))
    {
      SideOfEvent(input, i);
    }
    LapsAreConsecutive(sources, j);
    assert NoneLapsWith(input, 0, j) ==> NoneCounts(sources, 0, j, PostOf(sources[j]));
    forall i | 0 <= i < j && LapsWith(input, j, j) && LapsWith(input, i, j) && NoneLapsWith(input, i + 1, j)
      ensures events[j].lap == if events[i].lap < U16_MAX then events[i].lap + 1 else U16_MAX
    {
      assert Precedes(sources, i, j);
    }
  }
}
