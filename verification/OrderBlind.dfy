/** The order evidence arrives in decides nothing. */
module OrderBlind {
  import opened Ordering
  import opened Domain
  import opened Crediting
  import opened Laps
  import opened Derive
  import opened Evidence
  import opened Provenance

  /** What the journal assigns: identifiers and sequence numbers that never repeat. */
  ghost predicate JournalNumbers(journal: seq<Read>)
  {
    && Once(Ids(journal))
    && forall x, y :: x in journal && y in journal && x.seqNo == y.seqNo ==> x == y
  }

  ghost predicate ManualNumbers(manual: seq<ManualEntry>)
  {
    forall x, y :: x in manual && y in manual && x.id == y.id ==> x == y
  }

  // ----- Groups -----

  lemma {:induction false} InLaneCounts(journal: seq<Read>, m: AntennaMap, lane: LaneId, r: Read)
    ensures multiset(InLane(journal, m, lane))[r] == if LaneOf(m, r) == Some(lane) then multiset(journal)[r] else 0
  {
    if journal != [] {
      var front, last := journal[..|journal| - 1], journal[|journal| - 1];
      InLaneCounts(front, m, lane, r);
      assert journal == front + [last];
    }
  }

  lemma InLanePermutes(a: seq<Read>, b: seq<Read>, m: AntennaMap, lane: LaneId)
    requires multiset(a) == multiset(b)
    ensures multiset(InLane(a, m, lane)) == multiset(InLane(b, m, lane))
  {
    forall r
      ensures multiset(InLane(a, m, lane))[r] == multiset(InLane(b, m, lane))[r]
    {
      InLaneCounts(a, m, lane, r);
      InLaneCounts(b, m, lane, r);
    }
  }

  lemma GroupOrderBlind(input: Input, other: Input, lane: LaneId)
    requires multiset(input.journal) == multiset(other.journal) && input.antennas == other.antennas
    requires JournalNumbers(input.journal)
    ensures GroupIn(input, lane) == GroupIn(other, lane)
  {
    var a, b := InLane(input.journal, input.antennas, lane), InLane(other.journal, other.antennas, lane);
    InLanePermutes(input.journal, other.journal, input.antennas, lane);
    forall x, y | x in a && y in a && ReadKey(x) == ReadKey(y)
      ensures x == y
    {
      InLaneMeans(input.journal, input.antennas, lane, x);
      InLaneMeans(input.journal, input.antennas, lane, y);
      assert ReadKey(x)[1] == ReadKey(y)[1];
    }
    SortOrderBlind(a, b, ReadKey);
  }

  lemma LanesOrderBlind(a: seq<Read>, b: seq<Read>, m: AntennaMap)
    requires multiset(a) == multiset(b)
    ensures Lanes(a, m) == Lanes(b, m)
  {
    SameMultiset(a, b);
    forall lane
      ensures lane in LanesSeen(a, m) <==> lane in LanesSeen(b, m)
    {
      LanesSeenAll(a, m, lane);
      LanesSeenAll(b, m, lane);
    }
    DistinctOrderBlind(LanesSeen(a, m), LanesSeen(b, m));
    LaneKeysDistinct(Distinct(LanesSeen(a, m)));
    SortOrderBlind(Distinct(LanesSeen(a, m)), Distinct(LanesSeen(b, m)), LaneKey);
  }

  lemma LaneKeysDistinct(lanes: seq<LaneId>)
    ensures KeyInjective(lanes, LaneKey)
  {
    forall x, y | x in lanes && y in lanes && LaneKey(x) == LaneKey(y)
      ensures x == y
    {
      TextKeyInjective(x.chip, [x.checkpoint], y.chip, [y.checkpoint]);
      assert [x.checkpoint][0] == [y.checkpoint][0];
    }
  }

  // ----- Crossings and suppressions -----

  lemma {:induction false} LanesAgree(input: Input, other: Input, lanes: seq<LaneId>)
    requires multiset(input.journal) == multiset(other.journal) && JournalNumbers(input.journal)
    requires other == input.(journal := other.journal, manual := other.manual)
    ensures AllCredits(input, lanes) == AllCredits(other, lanes)
    ensures AllRefusals(input, lanes) == AllRefusals(other, lanes)
  {
    if lanes != [] {
      LanesAgree(input, other, lanes[..|lanes| - 1]);
      GroupOrderBlind(input, other, lanes[|lanes| - 1]);
      assert RulesFor(input, lanes[|lanes| - 1]) == RulesFor(other, lanes[|lanes| - 1]);
    }
  }

  function UnmappedReads(journal: seq<Read>, m: AntennaMap): seq<Read>
  {
    if journal == [] then []
    else
      var r := journal[|journal| - 1];
      UnmappedReads(journal[..|journal| - 1], m) + if LaneOf(m, r).None? then [r] else []
  }

  function AsUnmapped(r: Read): RejectedRead
  {
    RejectedRead(r.id, UnmappedReader(r.source, r.antenna))
  }

  lemma {:induction false} UnmappedIsMap(journal: seq<Read>, m: AntennaMap)
    ensures Unmapped(journal, m) == Map(AsUnmapped, UnmappedReads(journal, m))
  {
    if journal != [] {
      UnmappedIsMap(journal[..|journal| - 1], m);
    }
  }

  lemma {:induction false} UnmappedCounts(journal: seq<Read>, m: AntennaMap, r: Read)
    ensures multiset(UnmappedReads(journal, m))[r] == if LaneOf(m, r).None? then multiset(journal)[r] else 0
  {
    if journal != [] {
      var front, last := journal[..|journal| - 1], journal[|journal| - 1];
      UnmappedCounts(front, m, r);
      assert journal == front + [last];
    }
  }

  lemma UnmappedPermutes(a: seq<Read>, b: seq<Read>, m: AntennaMap)
    requires multiset(a) == multiset(b)
    ensures multiset(Unmapped(a, m)) == multiset(Unmapped(b, m))
  {
    forall r
      ensures multiset(UnmappedReads(a, m))[r] == multiset(UnmappedReads(b, m))[r]
    {
      UnmappedCounts(a, m, r);
      UnmappedCounts(b, m, r);
    }
    UnmappedIsMap(a, m);
    UnmappedIsMap(b, m);
    MapPermutes(AsUnmapped, UnmappedReads(a, m), UnmappedReads(b, m));
  }

  lemma RejectedKeysDistinct(input: Input)
    requires Once(Ids(input.journal))
    ensures KeyInjective(Rejected(input), RejectedKey)
  {
    EvidenceIsConserved(input);
    var rejected := Rejected(input);
    OnceParts(Ids(input.journal), multiset(Map(SourceOf, Accepted(input))), multiset(Map(RawOf, rejected)));
    forall x, y | x in rejected && y in rejected && RejectedKey(x) == RejectedKey(y)
      ensures x == y
    {
      assert RejectedKey(x)[0] == RejectedKey(y)[0];
      OnceInjective(RawOf, rejected, x, y);
    }
  }

  lemma RejectedOrderBlind(input: Input, other: Input)
    requires multiset(input.journal) == multiset(other.journal) && JournalNumbers(input.journal)
    requires other == input.(journal := other.journal, manual := other.manual)
    ensures Rejected(input) == Rejected(other)
  {
    var lanes := Lanes(input.journal, input.antennas);
    LanesOrderBlind(input.journal, other.journal, input.antennas);
    LanesAgree(input, other, lanes);
    UnmappedPermutes(input.journal, other.journal, input.antennas);
    var a := Unmapped(input.journal, input.antennas) + AllRefusals(input, lanes);
    var b := Unmapped(other.journal, input.antennas) + AllRefusals(input, lanes);
    RejectedKeysDistinct(input);
    SortPermutes(a, RejectedKey);
    InjectivePermuted(Rejected(input), a, RejectedKey);
    SortOrderBlind(a, b, RejectedKey);
  }

  // ----- Events -----

  lemma {:induction false} CrossingSourceOrigin(accepted: seq<AcceptedRead>, sides: map<Uuid, bool>, s: Source)
    requires s in CrossingSources(accepted, sides)
    ensures exists c :: c in accepted && c.participant.Some? && s == CrossingSource(c, c.participant.value, sides)
  {
    var front, last := accepted[..|accepted| - 1], accepted[|accepted| - 1];
    if s in CrossingSources(front, sides) {
      CrossingSourceOrigin(front, sides, s);
      var c :| c in front && c.participant.Some? && s == CrossingSource(c, c.participant.value, sides);
      assert c in accepted;
    } else {
      assert last in accepted;
    }
  }

  lemma CrossingSourcesDistinct(input: Input, x: Source, y: Source)
    requires Once(Ids(input.journal)) && NoCollisions(input)
    requires x in CrossingSources(Accepted(input), SidesOf(Credits(input)))
    requires y in CrossingSources(Accepted(input), SidesOf(Credits(input)))
    requires OriginId(x.origin) == OriginId(y.origin)
    ensures x == y && x.origin.FromCrossing?
  {
    var sides := SidesOf(Credits(input));
    CrossingSourceOrigin(Accepted(input), sides, x);
    CrossingSourceOrigin(Accepted(input), sides, y);
    var c :| c in Accepted(input) && c.participant.Some? && x == CrossingSource(c, c.participant.value, sides);
    var d :| d in Accepted(input) && d.participant.Some? && y == CrossingSource(d, d.participant.value, sides);
    AcceptedIdsDistinct(input, c, d);
  }

  lemma ManualSourceOrigin(manual: seq<ManualEntry>, gun: Option<Time>, s: Source)
    requires s in ManualSources(manual, gun)
    ensures exists e :: e in manual && s == ManualSource(e, gun)
  {
    var i :| 0 <= i < |manual| && ManualSources(manual, gun)[i] == s;
    assert manual[i] in manual;
  }

  function UnsortedSources(input: Input): seq<Source>
  {
    CrossingSources(Accepted(input), SidesOf(Credits(input))) + ManualSources(input.manual, input.gun)
  }

  lemma SourceKeysDistinct(input: Input)
    requires Once(Ids(input.journal)) && NoCollisions(input) && ManualNumbers(input.manual)
    ensures KeyInjective(UnsortedSources(input), SourceKey)
  {
    var crossings := CrossingSources(Accepted(input), SidesOf(Credits(input)));
    var entries := ManualSources(input.manual, input.gun);
    forall x, y | x in crossings + entries && y in crossings + entries && SourceKey(x) == SourceKey(y)
      ensures x == y
    {
      assert SourceKey(x)[1] == SourceKey(y)[1] && SourceKey(x)[2] == SourceKey(y)[2];
      assert x in crossings ==> x.origin.FromCrossing? by {
        if x in crossings { CrossingSourcesDistinct(input, x, x); }
      }
      assert y in crossings ==> y.origin.FromCrossing? by {
        if y in crossings { CrossingSourcesDistinct(input, y, y); }
      }
      if x in crossings && y in crossings {
        CrossingSourcesDistinct(input, x, y);
      } else {
        ManualKeysDistinct(input, x, y);
      }
    }
  }

  lemma ManualKeysDistinct(input: Input, x: Source, y: Source)
    requires ManualNumbers(input.manual)
    requires x in ManualSources(input.manual, input.gun) || y in ManualSources(input.manual, input.gun)
    requires x in ManualSources(input.manual, input.gun) || x.origin.FromCrossing?
    requires y in ManualSources(input.manual, input.gun) || y.origin.FromCrossing?
    requires SourceKey(x) == SourceKey(y)
    ensures x == y
  {
    assert SourceKey(x)[1] == SourceKey(y)[1] && SourceKey(x)[2] == SourceKey(y)[2];
    if x in ManualSources(input.manual, input.gun) {
      ManualSourceOrigin(input.manual, input.gun, x);
    }
    if y in ManualSources(input.manual, input.gun) {
      ManualSourceOrigin(input.manual, input.gun, y);
    }
  }

  lemma ManualSourcesPermute(a: seq<ManualEntry>, b: seq<ManualEntry>, gun: Option<Time>)
    requires multiset(a) == multiset(b)
    ensures multiset(ManualSources(a, gun)) == multiset(ManualSources(b, gun))
  {
    var f := (e: ManualEntry) => ManualSource(e, gun);
    assert Map(f, a) == ManualSources(a, gun) && Map(f, b) == ManualSources(b, gun);
    MapPermutes(f, a, b);
  }

  /** Permuting the reads and the manual entries leaves every crossing, every suppression and
      every timing event exactly as it was, in the same order. */
  lemma DerivationIsOrderBlind(input: Input, other: Input)
    requires other == input.(journal := other.journal, manual := other.manual)
    requires multiset(input.journal) == multiset(other.journal)
    requires multiset(input.manual) == multiset(other.manual)
    requires JournalNumbers(input.journal) && ManualNumbers(input.manual) && NoCollisions(input)
    ensures Derived(input) == Derived(other)
  {
    LanesOrderBlind(input.journal, other.journal, input.antennas);
    LanesAgree(input, other, Lanes(input.journal, input.antennas));
    RejectedOrderBlind(input, other);
    ManualSourcesPermute(input.manual, other.manual, input.gun);
    SourceKeysDistinct(input);
    SortOrderBlind(UnsortedSources(input), UnsortedSources(other), SourceKey);
  }
}
