/** The order a derivation's lists come in, and what that makes of laps: said of the lists alone. */
module EventOrder {
  import opened Ordering
  import opened Domain
  import opened Text
  import opened Naming
  import opened Crediting
  import opened Laps
  import opened Derive
  import opened Evidence
  import opened Provenance
  import opened OrderBlind
  import opened DerivedLaws

  /** Earlier; at one instant a crossing ahead of an entry; of one kind the lower identifier. */
  predicate EventBefore(e: TimingEvent, f: TimingEvent)
  {
    e.at < f.at || (e.at == f.at &&
      match (e.origin, f.origin)
      case (FromCrossing(c), FromCrossing(d)) => c < d
      case (FromCrossing(_), FromManual(_)) => true
      case (FromManual(_), FromCrossing(_)) => false
      case (FromManual(m), FromManual(n)) => m < n)
  }

  ghost predicate DistinctEntries(manual: seq<ManualEntry>)
  {
    forall i, j :: 0 <= i < j < |manual| ==> manual[i].id != manual[j].id
  }

  // ----- No evidence is merged twice -----

  lemma OnceNoDuplicates<T(!new)>(s: seq<T>)
    requires Once(multiset(s))
    ensures NoDuplicates(s)
  {
    forall i, j | 0 <= i < j < |s|
      ensures s[i] != s[j]
    {
      if s[i] == s[j] {
        assert multiset(s)[s[i]] <= 1;
        TwiceCounts(s, i, j);
      }
    }
  }

  lemma AcceptedOnce(input: Input)
    requires Once(Ids(input.journal)) && NoCollisions(input)
    ensures forall i, j :: 0 <= i < j < |Accepted(input)| ==> Accepted(input)[i].id != Accepted(input)[j].id
  {
    var accepted := Accepted(input);
    EvidenceIsConserved(input);
    OnceParts(Ids(input.journal), multiset(Map(SourceOf, accepted)), multiset(Map(RawOf, Rejected(input))));
    OnceNoDuplicates(Map(SourceOf, accepted));
    forall i, j | 0 <= i < j < |accepted|
      ensures accepted[i].id != accepted[j].id
    {
      assert Map(SourceOf, accepted)[i] != Map(SourceOf, accepted)[j];
      if accepted[i].id == accepted[j].id {
        AcceptedIdsDistinct(input, accepted[i], accepted[j]);
      }
    }
  }

  function OriginOf(s: Source): Origin { s.origin }

  lemma {:induction false} CrossingOrigins(accepted: seq<AcceptedRead>, sides: map<Uuid, bool>, s: Source)
    requires s in CrossingSources(accepted, sides)
    ensures s.origin.FromCrossing? && exists c :: c in accepted && c.id == s.origin.accepted
  {
    var front := accepted[..|accepted| - 1];
    if s in CrossingSources(front, sides) {
      CrossingOrigins(front, sides, s);
    } else {
      assert accepted[|accepted| - 1] in accepted;
    }
  }

  lemma {:induction false} CrossingSourcesOnce(accepted: seq<AcceptedRead>, sides: map<Uuid, bool>)
    requires forall i, j :: 0 <= i < j < |accepted| ==> accepted[i].id != accepted[j].id
    ensures NoDuplicates(CrossingSources(accepted, sides))
  {
    if accepted != [] {
      var front, last := accepted[..|accepted| - 1], accepted[|accepted| - 1];
      CrossingSourcesOnce(front, sides);
      forall s | s in CrossingSources(front, sides)
        ensures s.origin != FromCrossing(last.id)
      {
        CrossingOrigins(front, sides, s);
      }
    }
  }

  lemma SourcesOnce(input: Input)
    requires Once(Ids(input.journal)) && NoCollisions(input) && DistinctEntries(input.manual)
    ensures NoDuplicates(Sources(input))
  {
    var sides := SidesOf(Credits(input));
    AcceptedOnce(input);
    CrossingSourcesOnce(Accepted(input), sides);
    ManualSourcesOnce(input.manual, input.gun);
    forall s | s in CrossingSources(Accepted(input), sides)
      ensures s !in ManualSources(input.manual, input.gun)
    {
      CrossingOrigins(Accepted(input), sides, s);
    }
    NoDuplicatesConcat(CrossingSources(Accepted(input), sides), ManualSources(input.manual, input.gun));
    SortPermutes(UnsortedSources(input), SourceKey);
    PermutedNoDuplicates(UnsortedSources(input), Sources(input));
  }

  lemma ManualSourcesOnce(manual: seq<ManualEntry>, gun: Option<Time>)
    requires DistinctEntries(manual)
    ensures NoDuplicates(ManualSources(manual, gun))
  {
    forall i, j | 0 <= i < j < |manual|
      ensures ManualSources(manual, gun)[i] != ManualSources(manual, gun)[j]
    {
      assert ManualSources(manual, gun)[i].origin == FromManual(manual[i].id);
      assert ManualSources(manual, gun)[j].origin == FromManual(manual[j].id);
    }
  }

  // ----- The order of the events -----

  /** Strictly in that order, whatever order the evidence was given in. */
  lemma EventsComeInOrder(input: Input, i: nat, j: nat)
    requires Once(Ids(input.journal)) && NoCollisions(input) && DistinctEntries(input.manual)
    requires i < j < |Derived(input).timingEvents|
    ensures EventBefore(Derived(input).timingEvents[i], Derived(input).timingEvents[j])
  {
    var s, t := Sources(input)[i], Sources(input)[j];
    SourcesComeInOrder(input, i, j);
    KeysBefore(s, t);
    BeforeAsEvents(s, t, Derived(input).timingEvents[i], Derived(input).timingEvents[j]);
  }

  lemma BeforeAsEvents(s: Source, t: Source, e: TimingEvent, f: TimingEvent)
    requires SourceBefore(s, t) && e.at == s.at && e.origin == s.origin && f.at == t.at && f.origin == t.origin
    ensures EventBefore(e, f)
  {
  }

  lemma SourcesComeInOrder(input: Input, i: nat, j: nat)
    requires Once(Ids(input.journal)) && NoCollisions(input) && DistinctEntries(input.manual)
    requires i < j < |Sources(input)|
    ensures Leq(SourceKey(Sources(input)[i]), SourceKey(Sources(input)[j]))
    ensures SourceKey(Sources(input)[i]) != SourceKey(Sources(input)[j])
  {
    SourcesAreSorted(input);
    SourcesOnce(input);
    SourceKeysDistinct(input);
    SortedSourcesInOrder(UnsortedSources(input), Sources(input), i, j);
  }

  lemma SourcesAreSorted(input: Input)
    ensures Sources(input) == Sort(UnsortedSources(input), SourceKey)
  {
  }

  lemma SortedSourcesInOrder(given: seq<Source>, sources: seq<Source>, i: nat, j: nat)
    requires sources == Sort(given, SourceKey) && NoDuplicates(sources) && KeyInjective(given, SourceKey)
    requires i < j < |sources|
    ensures Leq(SourceKey(sources[i]), SourceKey(sources[j])) && SourceKey(sources[i]) != SourceKey(sources[j])
  {
    SortStrictly(given, SourceKey, i, j);
  }

  predicate SourceBefore(s: Source, t: Source)
  {
    s.at < t.at || (s.at == t.at &&
      match (s.origin, t.origin)
      case (FromCrossing(c), FromCrossing(d)) => c < d
      case (FromCrossing(_), FromManual(_)) => true
      case (FromManual(_), FromCrossing(_)) => false
      case (FromManual(m), FromManual(n)) => m < n)
  }

  lemma KeysBefore(s: Source, t: Source)
    requires Leq(SourceKey(s), SourceKey(t)) && SourceKey(s) != SourceKey(t)
    ensures SourceBefore(s, t)
  {
    var a, b := SourceKey(s), SourceKey(t);
    LeqThree(a[0], a[1], a[2], b[0], b[1], b[2]);
    assert a == [a[0], a[1], a[2]] && b == [b[0], b[1], b[2]];
  }

  /** A strict order: never both ways round. */
  lemma BeforeIsOneWay(e: TimingEvent, f: TimingEvent)
    requires EventBefore(e, f)
    ensures !EventBefore(f, e)
  {
  }

  // ----- Laps count what came before -----

  /** The race-side events of the same participant and checkpoint that come before. */
  ghost function Earlier(input: Input, j: nat): set<nat>
    requires j < |Derived(input).timingEvents|
  {
    var events := Derived(input).timingEvents;
    set i: nat | i < |events| && LapsWith(input, i, j) && EventBefore(events[i], events[j])
  }

  ghost function Upto(input: Input, n: nat, j: nat): set<nat>
    requires n <= |Derived(input).timingEvents| && j < |Derived(input).timingEvents|
  {
    set i: nat | i < n && LapsWith(input, i, j)
  }

  lemma EarlierIsUpto(input: Input, j: nat)
    requires Once(Ids(input.journal)) && NoCollisions(input) && DistinctEntries(input.manual)
    requires j < |Derived(input).timingEvents|
    ensures Earlier(input, j) == Upto(input, j, j)
  {
    var events := Derived(input).timingEvents;
    forall i, k | 0 <= i < k < |events|
      ensures EventBefore(events[i], events[k])
    {
      EventsComeInOrder(input, i, k);
    }
    forall i: nat | i < |events|
      ensures i in Earlier(input, j) <==> i in Upto(input, j, j)
    {
      PlaceIsOrder(events, i, j);
    }
  }

  lemma PlaceIsOrder(events: seq<TimingEvent>, i: nat, j: nat)
    requires forall m, n :: 0 <= m < n < |events| ==> EventBefore(events[m], events[n])
    requires i < |events| && j < |events|
    ensures EventBefore(events[i], events[j]) <==> i < j
  {
    if j < i {
      BeforeIsOneWay(events[j], events[i]);
    }
  }

  lemma UptoIsCounted(input: Input, j: nat)
    requires Once(Ids(input.journal)) && NoCollisions(input) && j < |Derived(input).timingEvents|
    ensures Upto(input, j, j) == Counting(Sources(input), j, PostOf(Sources(input)[j]))
  {
    forall i: nat | i < j
      ensures LapsWith(input, i, j) <==> Counts(Sources(input)[i], PostOf(Sources(input)[j]))
    {
      SideOfEvent(input, i);
    }
  }

  /** A race-side event's lap is one more than the number of race-side events of its participant and
      checkpoint before it, chips and entries interleaved by time, up to the ceiling. */
  lemma LapsCountWhatCameBefore(input: Input, j: nat)
    requires Once(Ids(input.journal)) && NoCollisions(input) && DistinctEntries(input.manual)
    requires j < |Derived(input).timingEvents|
    ensures var e, before := Derived(input).timingEvents[j], |Earlier(input, j)|;
            e.lap == if !OnRaceSide(input, e) then 0 else if before < U16_MAX then before + 1 else U16_MAX
  {
    SideOfEvent(input, j);
    EarlierIsUpto(input, j);
    UptoIsCounted(input, j);
    RaceCountCounts(Sources(input), j, PostOf(Sources(input)[j]));
  }

  // ----- The other lists -----

  /** Accepted crossings come by time, then by identifier; rejections by the read they reject. */
  lemma ListsComeInOrder(input: Input)
    requires Once(Ids(input.journal)) && NoCollisions(input)
    ensures forall i, j :: 0 <= i < j < |Derived(input).accepted| ==>
              CrossingBefore(Derived(input).accepted[i], Derived(input).accepted[j])
    ensures forall i, j :: 0 <= i < j < |Derived(input).rejected| ==>
              Derived(input).rejected[i].rawRead < Derived(input).rejected[j].rawRead
  {
    var accepted, rejected := Derived(input).accepted, Derived(input).rejected;
    AcceptedOnce(input);
    SortSorted(Map(CrossingIn, Credits(input)), AcceptedKey);
    forall i, j | 0 <= i < j < |accepted|
      ensures CrossingBefore(accepted[i], accepted[j])
    {
      AcceptedKeysBefore(accepted[i], accepted[j]);
    }
    EvidenceIsConserved(input);
    OnceParts(Ids(input.journal), multiset(Map(RawOf, rejected)), multiset(Map(SourceOf, accepted)));
    OnceNoDuplicates(Map(RawOf, rejected));
    SortSorted(Unmapped(input.journal, input.antennas) + AllRefusals(input, Lanes(input.journal, input.antennas)),
               RejectedKey);
    forall i, j | 0 <= i < j < |rejected|
      ensures rejected[i].rawRead < rejected[j].rawRead
    {
      assert Leq(RejectedKey(rejected[i]), RejectedKey(rejected[j]));
      assert Map(RawOf, rejected)[i] != Map(RawOf, rejected)[j];
    }
  }

  predicate CrossingBefore(c: AcceptedRead, d: AcceptedRead)
  {
    c.at < d.at || (c.at == d.at && c.id < d.id)
  }

  lemma AcceptedKeysBefore(c: AcceptedRead, d: AcceptedRead)
    requires Leq(AcceptedKey(c), AcceptedKey(d)) && c.id != d.id
    ensures CrossingBefore(c, d)
  {
    assert AcceptedKey(c)[1..][0] == c.id && AcceptedKey(d)[1..][0] == d.id;
  }

  // ----- Identifiers -----

  /** An event is hashed from its kind, participant, checkpoint, lap and evidence, and a crossing
      from its kind, checkpoint, chip and credited read, with a separator before each part. */
  lemma IdentifiersAreHashed(input: Input, j: nat, c: AcceptedRead)
    requires j < |Derived(input).timingEvents| && c in Derived(input).accepted
    ensures var e, sep := Derived(input).timingEvents[j], [UNIT_SEPARATOR];
            var evidence := match e.origin case FromCrossing(id) => id case FromManual(id) => id;
            e.id == input.v5("timing-event" + sep + UuidText(e.participant) + sep + UuidText(e.checkpoint)
                             + sep + Decimal(e.lap) + sep + UuidText(evidence))
    ensures var sep := [UNIT_SEPARATOR];
            c.id == input.v5("accepted-read" + sep + UuidText(c.checkpoint) + sep + c.chip + sep + UuidText(c.source))
  {
    var e := Derived(input).timingEvents[j];
    var evidence := match e.origin case FromCrossing(id) => id case FromManual(id) => id;
    AcceptedProvenance(input, c);
    FourParts("timing-event", UuidText(e.participant), UuidText(e.checkpoint), Decimal(e.lap), UuidText(evidence));
    ThreeParts("accepted-read", UuidText(c.checkpoint), c.chip, UuidText(c.source));
  }

  lemma ThreeParts(kind: string, a: string, b: string, c: string)
    ensures var sep := [UNIT_SEPARATOR]; kind + Joined([a, b, c]) == kind + sep + a + sep + b + sep + c
  {
    assert [a, b, c] == [a] + [b] + [c] && [a] == [] + [a];
    JoinedSnoc([], a);
    Regroup(kind, Joined([]), [UNIT_SEPARATOR] + a);
    JoinedSnoc([a], b);
    Regroup(kind, Joined([a]), [UNIT_SEPARATOR] + b);
    JoinedSnoc([a] + [b], c);
    Regroup(kind, Joined([a] + [b]), [UNIT_SEPARATOR] + c);
  }

  lemma FourParts(kind: string, a: string, b: string, c: string, d: string)
    ensures var sep := [UNIT_SEPARATOR]; kind + Joined([a, b, c, d]) == kind + sep + a + sep + b + sep + c + sep + d
  {
    assert [a, b, c, d] == [a, b, c] + [d];
    ThreeParts(kind, a, b, c);
    JoinedSnoc([a, b, c], d);
    Regroup(kind, Joined([a, b, c]), [UNIT_SEPARATOR] + d);
  }
}
