/** Nothing in the journal is lost or counted twice on the way to a conclusion. */
module Evidence {
  import opened Ordering
  import opened Domain
  import opened Bursts
  import opened Selection
  import opened MinimumLap
  import opened Crediting
  import opened Derive

  function RawOf(r: RejectedRead): Uuid { r.rawRead }

  function SourceOf(c: AcceptedRead): Uuid { c.source }

  function CreditedIdOf(c: Credit): Uuid { c.crossing.source }

  function Ids(s: seq<Read>): multiset<Uuid>
  {
    multiset(Map(IdOf, s))
  }

  /** Every read accounted for: credited ones and suppressed ones. */
  function Tally(credits: seq<Credit>, refusals: seq<RejectedRead>): multiset<Uuid>
  {
    multiset(Map(CreditedIdOf, credits)) + multiset(Map(RawOf, refusals))
  }

  ghost predicate Once<T(!new)>(m: multiset<T>)
  {
    forall x :: m[x] <= 1
  }

  lemma OnceParts<T(!new)>(whole: multiset<T>, a: multiset<T>, b: multiset<T>)
    requires Once(whole) && whole == a + b
    ensures Once(a) && Once(b)
  {
    forall x
      ensures a[x] <= 1 && b[x] <= 1
    {
      assert whole[x] == a[x] + b[x];
    }
  }

  lemma MapAppend<T, U>(f: T -> U, a: seq<T>, b: seq<T>)
    ensures multiset(Map(f, a + b)) == multiset(Map(f, a)) + multiset(Map(f, b))
  {
    MapConcat(f, a, b);
  }

  lemma TallyAppend(c: seq<Credit>, r: seq<RejectedRead>, c': seq<Credit>, r': seq<RejectedRead>)
    ensures Tally(c + c', r + r') == Tally(c, r) + Tally(c', r')
  {
    MapAppend(CreditedIdOf, c, c');
    MapAppend(RawOf, r, r');
  }

  lemma OnceInjective<T, U>(f: T -> U, s: seq<T>, x: T, y: T)
    requires x in s && y in s && f(x) == f(y) && multiset(Map(f, s))[f(x)] <= 1
    ensures x == y
  {
    var i :| 0 <= i < |s| && s[i] == x;
    var j :| 0 <= j < |s| && s[j] == y;
    if i < j {
      TwiceCounts(Map(f, s), i, j);
    } else if j < i {
      TwiceCounts(Map(f, s), j, i);
    }
  }

  lemma InMap<T, U>(f: T -> U, s: seq<T>, x: T)
    requires x in s
    ensures f(x) in Map(f, s) && multiset(Map(f, s))[f(x)] >= 1
  {
    var i :| 0 <= i < |s| && s[i] == x;
    assert Map(f, s)[i] == f(x);
    assert f(x) in multiset(Map(f, s));
  }

  // ----- One burst -----

  lemma {:induction false} DuplicatesTally(burst: Burst, c: AcceptedRead)
    ensures multiset(Map(RawOf, Duplicates(burst, c))) == Ids(burst)[c.source := 0]
  {
    if burst != [] {
      var front, last := burst[..|burst| - 1], burst[|burst| - 1];
      DuplicatesTally(front, c);
      assert burst == front + [last];
      MapAppend(IdOf, front, [last]);
      assert Map(IdOf, [last]) == [last.id];
      var more := Duplicates(burst, c)[|Duplicates(front, c)|..];
      assert Duplicates(burst, c) == Duplicates(front, c) + more;
      MapAppend(RawOf, Duplicates(front, c), more);
      assert multiset(Map(RawOf, more)) == if last.id == c.source then multiset{} else multiset{last.id} by {
        if last.id != c.source {
          assert Map(RawOf, more) == [last.id];
        }
      }
    }
  }

  lemma BurstTally(rules: Rules, bursts: seq<Burst>, i: nat)
    requires i < |bursts| && Once(Ids(bursts[i]))
    ensures Tally(BurstCredits(rules, bursts, i), BurstRefusals(rules, bursts, i)) == Ids(bursts[i])
  {
    var burst := bursts[i];
    var credits, refusals := BurstCredits(rules, bursts, i), BurstRefusals(rules, bursts, i);
    if Credited(TrackOf(rules, bursts), i, rules.minLapMs) {
      var c := CrossingOf(rules, burst);
      DuplicatesTally(burst, c);
      InMap(IdOf, burst, Select(burst, rules.rule).value);
      assert Map(CreditedIdOf, credits) == [c.source];
    } else {
      assert Map(CreditedIdOf, credits) == [];
      assert Map(RawOf, refusals) == Map(IdOf, burst);
    }
  }

  // ----- One lane -----

  lemma {:induction false} OutcomesTally(outs: seq<Outcome>, bursts: seq<Burst>)
    requires |outs| == |bursts|
    requires forall i :: 0 <= i < |outs| ==> Tally(outs[i].credits, outs[i].refusals) == Ids(bursts[i])
    ensures Tally(CreditsOf(outs), RefusalsOf(outs)) == Ids(Flatten(bursts))
  {
    if outs != [] {
      var n := |outs| - 1;
      OutcomesTally(outs[..n], bursts[..n]);
      TallyAppend(CreditsOf(outs[..n]), RefusalsOf(outs[..n]), outs[n].credits, outs[n].refusals);
      MapAppend(IdOf, Flatten(bursts[..n]), bursts[n]);
    }
  }

  lemma {:induction false} BurstsOnce(bursts: seq<Burst>, i: nat)
    requires i < |bursts| && Once(Ids(Flatten(bursts)))
    ensures Once(Ids(bursts[i]))
  {
    var front, last := bursts[..|bursts| - 1], bursts[|bursts| - 1];
    MapAppend(IdOf, Flatten(front), last);
    OnceParts(Ids(Flatten(bursts)), Ids(Flatten(front)), Ids(last));
    if i < |front| {
      BurstsOnce(front, i);
    }
  }

  lemma LaneTally(rules: Rules, bursts: seq<Burst>)
    requires Once(Ids(Flatten(bursts)))
    ensures Tally(CreditsOf(Outcomes(rules, bursts)), RefusalsOf(Outcomes(rules, bursts))) == Ids(Flatten(bursts))
  {
    var outs := Outcomes(rules, bursts);
    forall i | 0 <= i < |outs|
      ensures Tally(outs[i].credits, outs[i].refusals) == Ids(bursts[i])
    {
      BurstsOnce(bursts, i);
      BurstTally(rules, bursts, i);
    }
    OutcomesTally(outs, bursts);
  }

  lemma LaneKeepsAll(input: Input, lane: LaneId)
    requires Once(Ids(InLane(input.journal, input.antennas, lane)))
    ensures Tally(CreditsIn(input, lane), RefusalsIn(input, lane)) == Ids(InLane(input.journal, input.antennas, lane))
  {
    LaneReads(input, lane);
    LaneTally(RulesFor(input, lane), BurstsIn(input, lane));
  }

  lemma LaneReads(input: Input, lane: LaneId)
    ensures Flatten(BurstsIn(input, lane)) == GroupIn(input, lane)
    ensures Ids(GroupIn(input, lane)) == Ids(InLane(input.journal, input.antennas, lane))
  {
    SortPermutes(InLane(input.journal, input.antennas, lane), ReadKey);
    MapPermutes(IdOf, GroupIn(input, lane), InLane(input.journal, input.antennas, lane));
    BurstsOfIsSplit(GroupIn(input, lane), WindowFor(input.policy, lane.checkpoint));
  }

  // ----- All lanes -----

  function LaneIds(lanes: seq<LaneId>, journal: seq<Read>, m: AntennaMap): multiset<Uuid>
  {
    if lanes == [] then multiset{}
    else LaneIds(lanes[..|lanes| - 1], journal, m) + Ids(InLane(journal, m, lanes[|lanes| - 1]))
  }

  lemma {:induction false} LaneIdsStep(lanes: seq<LaneId>, journal: seq<Read>, m: AntennaMap, r: Read)
    requires NoDuplicates(lanes)
    ensures var lane := LaneOf(m, r);
            LaneIds(lanes, journal + [r], m)
            == LaneIds(lanes, journal, m) + if lane.Some? && lane.value in lanes then multiset{r.id} else multiset{}
  {
    if lanes != [] {
      var front, last := lanes[..|lanes| - 1], lanes[|lanes| - 1];
      LaneIdsStep(front, journal, m, r);
      OneLaneStep(journal, m, last, r);
      LastIsNew(lanes, LaneOf(m, r));
    }
  }

  lemma LastIsNew(lanes: seq<LaneId>, lane: Option<LaneId>)
    requires NoDuplicates(lanes) && lanes != []
    ensures var front, last := lanes[..|lanes| - 1], lanes[|lanes| - 1];
            && NoDuplicates(front) && last !in front
            && (lane.Some? ==> (lane.value in lanes <==> lane.value in front || lane.value == last))
  {
  }

  lemma OneLaneStep(journal: seq<Read>, m: AntennaMap, lane: LaneId, r: Read)
    ensures Ids(InLane(journal + [r], m, lane))
            == Ids(InLane(journal, m, lane)) + if LaneOf(m, r) == Some(lane) then multiset{r.id} else multiset{}
  {
    assert (journal + [r])[..|journal|] == journal;
    if LaneOf(m, r) == Some(lane) {
      IdsSnoc(InLane(journal, m, lane), r);
    } else {
      assert InLane(journal, m, lane) + [] == InLane(journal, m, lane);
    }
  }

  /** The lanes and the unmapped reads between them hold each journal read once. */
  lemma {:induction false} LanesPartition(lanes: seq<LaneId>, journal: seq<Read>, m: AntennaMap)
    requires NoDuplicates(lanes)
    requires forall r :: r in journal && LaneOf(m, r).Some? ==> LaneOf(m, r).value in lanes
    ensures LaneIds(lanes, journal, m) + multiset(Map(RawOf, Unmapped(journal, m))) == Ids(journal)
  {
    if journal == [] {
      NoLaneIds(lanes, m);
    } else {
      var front, r := journal[..|journal| - 1], journal[|journal| - 1];
      assert journal == front + [r];
      assert r in journal && forall x :: x in front ==> x in journal;
      LanesPartition(lanes, front, m);
      LaneIdsStep(lanes, front, m, r);
      IdsSnoc(front, r);
      UnmappedStep(front, m, r);
    }
  }

  lemma IdsSnoc(journal: seq<Read>, r: Read)
    ensures Ids(journal + [r]) == Ids(journal) + multiset{r.id}
  {
    MapAppend(IdOf, journal, [r]);
    assert Map(IdOf, [r]) == [r.id];
  }

  lemma UnmappedStep(journal: seq<Read>, m: AntennaMap, r: Read)
    ensures multiset(Map(RawOf, Unmapped(journal + [r], m)))
            == multiset(Map(RawOf, Unmapped(journal, m))) + if LaneOf(m, r).None? then multiset{r.id} else multiset{}
  {
    assert (journal + [r])[..|journal|] == journal;
    if LaneOf(m, r).None? {
      var entry := RejectedRead(r.id, UnmappedReader(r.source, r.antenna));
      MapAppend(RawOf, Unmapped(journal, m), [entry]);
      assert Map(RawOf, [entry]) == [r.id];
    } else {
      assert Unmapped(journal + [r], m) == Unmapped(journal, m);
    }
  }

  lemma {:induction false} NoLaneIds(lanes: seq<LaneId>, m: AntennaMap)
    ensures LaneIds(lanes, [], m) == multiset{}
  {
    if lanes != [] {
      NoLaneIds(lanes[..|lanes| - 1], m);
      assert Map(IdOf, InLane([], m, lanes[|lanes| - 1])) == [];
    }
  }

  lemma {:induction false} LanesKeepAll(input: Input, lanes: seq<LaneId>)
    requires Once(LaneIds(lanes, input.journal, input.antennas))
    ensures Tally(AllCredits(input, lanes), AllRefusals(input, lanes)) == LaneIds(lanes, input.journal, input.antennas)
  {
    if lanes != [] {
      var front, last := lanes[..|lanes| - 1], lanes[|lanes| - 1];
      OnceParts(LaneIds(lanes, input.journal, input.antennas), LaneIds(front, input.journal, input.antennas),
                Ids(InLane(input.journal, input.antennas, last)));
      LanesKeepAll(input, front);
      LaneKeepsAll(input, last);
      TallyAppend(AllCredits(input, front), AllRefusals(input, front), CreditsIn(input, last), RefusalsIn(input, last));
    }
  }

  lemma {:induction false} LanesSeenAll(journal: seq<Read>, m: AntennaMap, lane: LaneId)
    ensures lane in LanesSeen(journal, m) <==> exists r :: r in journal && LaneOf(m, r) == Some(lane)
  {
    if journal != [] {
      var front, last := journal[..|journal| - 1], journal[|journal| - 1];
      LanesSeenAll(front, m, lane);
      assert forall r :: r in journal <==> r in front || r == last;
    }
  }

  lemma LanesAreRight(journal: seq<Read>, m: AntennaMap)
    ensures NoDuplicates(Lanes(journal, m))
    ensures forall r :: r in journal && LaneOf(m, r).Some? ==> LaneOf(m, r).value in Lanes(journal, m)
    ensures forall lane :: lane in Lanes(journal, m) <==> lane in LanesSeen(journal, m)
  {
    var seen := LanesSeen(journal, m);
    DistinctHasNoDuplicates(seen);
    SortPermutes(Distinct(seen), LaneKey);
    PermutedNoDuplicates(Distinct(seen), Lanes(journal, m));
    forall r | r in journal && LaneOf(m, r).Some?
      ensures LaneOf(m, r).value in Lanes(journal, m)
    {
      LanesSeenAll(journal, m, LaneOf(m, r).value);
    }
  }

  lemma EverythingTallies(input: Input)
    requires Once(Ids(input.journal))
    ensures var lanes := Lanes(input.journal, input.antennas);
            && Once(LaneIds(lanes, input.journal, input.antennas))
            && Tally(AllCredits(input, lanes), AllRefusals(input, lanes))
               + multiset(Map(RawOf, Unmapped(input.journal, input.antennas))) == Ids(input.journal)
  {
    var lanes := Lanes(input.journal, input.antennas);
    LanesAreRight(input.journal, input.antennas);
    LanesPartition(lanes, input.journal, input.antennas);
    OnceParts(Ids(input.journal), LaneIds(lanes, input.journal, input.antennas),
              multiset(Map(RawOf, Unmapped(input.journal, input.antennas))));
    LanesKeepAll(input, lanes);
  }

  /** Every journal read is the credited read of one crossing, or is rejected once, never both
      and never neither. */
  lemma EvidenceIsConserved(input: Input)
    requires Once(Ids(input.journal))
    ensures multiset(Map(SourceOf, Derived(input).accepted)) + multiset(Map(RawOf, Derived(input).rejected))
            == Ids(input.journal)
  {
    var lanes := Lanes(input.journal, input.antennas);
    var credits, refusals := AllCredits(input, lanes), AllRefusals(input, lanes);
    var unmapped := Unmapped(input.journal, input.antennas);
    EverythingTallies(input);
    SortPermutes(Map(CrossingIn, credits), AcceptedKey);
    MapPermutes(SourceOf, Accepted(input), Map(CrossingIn, credits));
    assert Map(SourceOf, Map(CrossingIn, credits)) == Map(CreditedIdOf, credits);
    SortPermutes(unmapped + refusals, RejectedKey);
    MapPermutes(RawOf, Rejected(input), unmapped + refusals);
    MapAppend(RawOf, unmapped, refusals);
  }
}
