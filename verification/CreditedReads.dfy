/** Which reads an accepted crossing is made of, and which of them it is credited to: said of the
    journal and the policy, with nothing of how bursts are split or read selected. */
module CreditedReads {
  import opened Ordering
  import opened Domain
  import opened Bursts
  import opened Selection
  import opened Crediting
  import opened Registry
  import opened Derive
  import opened Evidence
  import opened Provenance
  import opened Gun

  // ----- The burst behind a crossing -----

  /** The crossing is of this burst of this lane. */
  ghost predicate OfBurst(input: Input, lane: LaneId, i: nat, c: AcceptedRead, race: bool)
  {
    && i < |BurstsIn(input, lane)| && lane == LaneId(c.chip, c.checkpoint)
    && CreditOfBurst(RulesFor(input, lane), BurstsIn(input, lane), i, Credit(c, race))
  }

  lemma BurstOfCredit(input: Input, k: Credit) returns (lane: LaneId, i: nat)
    requires k in Credits(input)
    ensures OfBurst(input, lane, i, k.crossing, k.race) && lane in Lanes(input.journal, input.antennas)
  {
    lane := CreditOrigin(input, Lanes(input.journal, input.antennas), k);
    i := LaneCreditOrigin(RulesFor(input, lane), BurstsIn(input, lane), k);
  }

  /** The read a crossing lists at `n`. */
  ghost predicate Lists(input: Input, c: AcceptedRead, n: nat, r: Read)
  {
    n < |c.burst| && r in input.journal && r.id == c.burst[n]
  }

  lemma ListedIsInBurst(input: Input, lane: LaneId, i: nat, c: AcceptedRead, race: bool, n: nat, r: Read)
    requires Once(Ids(input.journal)) && OfBurst(input, lane, i, c, race) && Lists(input, c, n, r)
    ensures |c.burst| == |BurstsIn(input, lane)[i]| && BurstsIn(input, lane)[i][n] == r
  {
    var s := BurstsIn(input, lane)[i][n];
    BurstReads(input, lane, i, s);
    OnceInjective(IdOf, input.journal, r, s);
  }

  // ----- Where a burst stands in its group -----

  lemma {:induction false} FlattenAt(bursts: seq<Burst>, i: nat, m: nat)
    requires i < |bursts| && m < |bursts[i]|
    ensures |Flatten(bursts[..i])| + m < |Flatten(bursts)|
    ensures Flatten(bursts)[|Flatten(bursts[..i])| + m] == bursts[i][m]
    ensures i + 1 < |bursts| ==> |Flatten(bursts[..i])| + |bursts[i]| == |Flatten(bursts[..i + 1])|
  {
    var front := bursts[..|bursts| - 1];
    if i < |front| {
      FlattenAt(front, i, m);
      assert front[..i] == bursts[..i] && front[i] == bursts[i];
      assert bursts[..i + 1][..i] == bursts[..i];
    }
  }

  ghost predicate Sequential(group: seq<Read>)
  {
    forall i, j :: 0 <= i < j < |group| ==> ReadBefore(group[i], group[j])
  }

  /** Earlier, or at the same instant and journalled no later. */
  ghost predicate ReadBefore(r: Read, s: Read)
  {
    At(r) < At(s) || (At(r) == At(s) && r.seqNo <= s.seqNo)
  }

  lemma GroupIsSequential(input: Input, lane: LaneId)
    ensures Sequential(GroupIn(input, lane))
  {
    var group := GroupIn(input, lane);
    SortSorted(InLane(input.journal, input.antennas, lane), ReadKey);
    forall i, j | 0 <= i < j < |group|
      ensures ReadBefore(group[i], group[j])
    {
      KeysInOrder(group[i], group[j]);
    }
  }

  lemma KeysInOrder(r: Read, s: Read)
    requires Leq(ReadKey(r), ReadKey(s))
    ensures ReadBefore(r, s)
  {
    assert ReadKey(r)[1..][0] == r.seqNo && ReadKey(s)[1..][0] == s.seqNo;
  }

  /** A burst's reads are in the order of their times, and of the journal at equal times. */
  lemma BurstInOrder(input: Input, lane: LaneId, i: nat, m: nat, n: nat)
    requires i < |BurstsIn(input, lane)| && m < n < |BurstsIn(input, lane)[i]|
    ensures ReadBefore(BurstsIn(input, lane)[i][m], BurstsIn(input, lane)[i][n])
  {
    var bursts := BurstsIn(input, lane);
    BurstsOfIsSplit(GroupIn(input, lane), WindowFor(input.policy, lane.checkpoint));
    GroupIsSequential(input, lane);
    FlattenAt(bursts, i, m);
    FlattenAt(bursts, i, n);
  }

  // ----- The law -----

  /** The read is the one the rule asks for, among the reads the crossing lists, `m` being its place
      in the list and `s` the read at any place `n`. */
  ghost predicate AsTheRuleAsks(rule: SelectionRule, r: Read, m: nat, s: Read, n: nat)
  {
    match rule
    case First => m == 0
    case FirstAboveRssi(floorDbm) =>
      && r.rssi.Some? && r.rssi.value >= floorDbm
      && (n < m ==> s.rssi.None? || s.rssi.value < floorDbm)
    case PeakRssi =>
      && (s.rssi.Some? ==> (if r.rssi.Some? then r.rssi.value else I16_MIN) >= s.rssi.value)
      && (n < m ==> r.rssi.Some? && (s.rssi.Some? ==> r.rssi.value > s.rssi.value))
  }

  lemma SelectedAsAsked(burst: Burst, rule: SelectionRule, n: nat) returns (m: nat)
    requires Select(burst, rule).Some? && n < |burst|
    ensures m < |burst| && burst[m] == Select(burst, rule).value
    ensures AsTheRuleAsks(rule, burst[m], m, burst[n], n)
  {
    match rule
    case First => m := 0;
    case FirstAboveRssi(floorDbm) =>
      m :| 0 <= m < |burst| && Select(burst, rule).value == burst[m] && Clears(burst[m], floorDbm)
           && forall j :: 0 <= j < m ==> !Clears(burst[j], floorDbm);
    case PeakRssi => m := Peak(burst);
  }

  /** Every accepted crossing is credited to the read its checkpoint's rule asks for: under the first
      rule the first it lists, which is the earliest; above a floor the first that clears it; at the
      peak the strongest, the earliest among equals. Its instant and strength are that read's own. */
  lemma CreditedAsTheRuleAsks(input: Input, c: AcceptedRead, n: nat, s: Read) returns (m: nat, r: Read)
    requires Once(Ids(input.journal)) && c in Derived(input).accepted && Lists(input, c, n, s)
    ensures Lists(input, c, m, r) && r.id == c.source
    ensures AsTheRuleAsks(SelectionRuleFor(input.policy, c.checkpoint), r, m, s, n)
    ensures c.at == (if r.readerTimed && r.readerTimestamp.Some? then r.readerTimestamp.value else r.receivedAt)
    ensures c.rssi == r.rssi
  {
    AcceptedAreCredits(input, c);
    var k :| k in Credits(input) && k.crossing == c;
    var lane, i := BurstOfCredit(input, k);
    var burst := BurstsIn(input, lane)[i];
    ListedIsInBurst(input, lane, i, c, k.race, n, s);
    m := SelectedAsAsked(burst, RulesFor(input, lane).rule, n);
    r := burst[m];
    BurstReads(input, lane, i, r);
  }

  /** What a crossing lists is in order of time, then of the journal, with no gap above the window. */
  lemma ListedInOrder(input: Input, c: AcceptedRead, m: nat, n: nat, r: Read, s: Read)
    requires Once(Ids(input.journal)) && c in Derived(input).accepted
    requires m < n && Lists(input, c, m, r) && Lists(input, c, n, s)
    ensures ReadBefore(r, s)
    ensures n == m + 1 ==> At(s) - At(r) <= WindowFor(input.policy, c.checkpoint)
  {
    AcceptedAreCredits(input, c);
    var k :| k in Credits(input) && k.crossing == c;
    var lane, i := BurstOfCredit(input, k);
    ListedIsInBurst(input, lane, i, c, k.race, m, r);
    ListedIsInBurst(input, lane, i, c, k.race, n, s);
    BurstInOrder(input, lane, i, m, n);
    BurstsOfIsSplit(GroupIn(input, lane), WindowFor(input.policy, lane.checkpoint));
  }

  /** A crossing is on the race side exactly when the last read it lists is at or after the gun, or
      there is none. */
  lemma SideIsTheLastReads(input: Input, k: Credit, r: Read)
    requires Once(Ids(input.journal)) && k in Credits(input)
    requires k.crossing.burst != [] && Lists(input, k.crossing, |k.crossing.burst| - 1, r)
    ensures k.race <==> input.gun.None? || At(r) >= input.gun.value
  {
    var last := LastOfCredit(input, k);
    OnceInjective(IdOf, input.journal, r, last);
  }

  lemma LastOfCredit(input: Input, k: Credit) returns (last: Read)
    requires k in Credits(input)
    ensures k.crossing.burst != [] && Lists(input, k.crossing, |k.crossing.burst| - 1, last)
    ensures k.race <==> input.gun.None? || At(last) >= input.gun.value
  {
    var lane, i := BurstOfCredit(input, k);
    var burst := BurstsIn(input, lane)[i];
    last := burst[|burst| - 1];
    BurstReads(input, lane, i, last);
  }

  // ----- Nothing near a burst is left out of it -----

  /** Any other read of the chip at the checkpoint is more than the window away from all it lists. */
  lemma OthersAreFar(input: Input, c: AcceptedRead, n: nat, r: Read, other: Read)
    requires Once(Ids(input.journal)) && c in Derived(input).accepted && Lists(input, c, n, r)
    requires other in input.journal && LaneOf(input.antennas, other) == Some(LaneId(c.chip, c.checkpoint))
    requires other.id !in c.burst
    ensures At(other) - At(r) > WindowFor(input.policy, c.checkpoint)
            || At(r) - At(other) > WindowFor(input.policy, c.checkpoint)
  {
    AcceptedAreCredits(input, c);
    var k :| k in Credits(input) && k.crossing == c;
    var lane, i := BurstOfCredit(input, k);
    ListedIsInBurst(input, lane, i, c, k.race, n, r);
    var j, m := BurstHolding(input, lane, other);
    if j == i {
      InMap(IdOf, BurstsIn(input, lane)[i], other);
    } else if i < j {
      BurstsApart(input, lane, i, n, j, m);
    } else {
      BurstsApart(input, lane, j, m, i, n);
    }
  }

  lemma {:induction false} SomeBurstHolds(bursts: seq<Burst>, r: Read) returns (i: nat, m: nat)
    requires r in Flatten(bursts)
    ensures i < |bursts| && m < |bursts[i]| && bursts[i][m] == r
  {
    var last := bursts[|bursts| - 1];
    if r in last {
      i := |bursts| - 1;
      m :| 0 <= m < |last| && last[m] == r;
    } else {
      i, m := SomeBurstHolds(bursts[..|bursts| - 1], r);
    }
  }

  lemma BurstHolding(input: Input, lane: LaneId, r: Read) returns (i: nat, m: nat)
    requires r in input.journal && LaneOf(input.antennas, r) == Some(lane)
    ensures i < |BurstsIn(input, lane)| && m < |BurstsIn(input, lane)[i]| && BurstsIn(input, lane)[i][m] == r
  {
    InLaneMeans(input.journal, input.antennas, lane, r);
    SortPermutes(InLane(input.journal, input.antennas, lane), ReadKey);
    BurstsOfIsSplit(GroupIn(input, lane), WindowFor(input.policy, lane.checkpoint));
    i, m := SomeBurstHolds(BurstsIn(input, lane), r);
  }

  lemma BurstsApart(input: Input, lane: LaneId, i: nat, m: nat, j: nat, n: nat)
    requires i < j < |BurstsIn(input, lane)|
    requires m < |BurstsIn(input, lane)[i]| && n < |BurstsIn(input, lane)[j]|
    ensures At(BurstsIn(input, lane)[j][n]) - At(BurstsIn(input, lane)[i][m]) > WindowFor(input.policy, lane.checkpoint)
  {
    GroupIsTimeOrdered(input, lane);
    BurstsOfIsSplit(GroupIn(input, lane), WindowFor(input.policy, lane.checkpoint));
    SplitApart(BurstsIn(input, lane), GroupIn(input, lane), WindowFor(input.policy, lane.checkpoint), i, m, j, n);
  }

  lemma SplitApart(bursts: seq<Burst>, group: seq<Read>, window: nat, i: nat, m: nat, j: nat, n: nat)
    requires IsSplit(bursts, group, window) && TimeOrdered(group)
    requires i < j < |bursts| && m < |bursts[i]| && n < |bursts[j]|
    ensures At(bursts[j][n]) - At(bursts[i][m]) > window
  {
    var last := |bursts[j - 1]| - 1;
    assert bursts[j - 1] != [] && Apart(bursts[j - 1], bursts[j], window);
    InTimeOrder(bursts, group, i, m, j - 1, last);
    InTimeOrder(bursts, group, j, 0, j, n);
  }

  lemma InTimeOrder(bursts: seq<Burst>, group: seq<Read>, i: nat, m: nat, j: nat, n: nat)
    requires Flatten(bursts) == group && TimeOrdered(group)
    requires i <= j < |bursts| && m < |bursts[i]| && n < |bursts[j]| && (i == j ==> m <= n)
    ensures At(bursts[i][m]) <= At(bursts[j][n])
  {
    FlattenAt(bursts, i, m);
    FlattenAt(bursts, j, n);
    if i < j {
      FlattenGrows(bursts, i, j);
    }
  }

  lemma {:induction false} FlattenGrows(bursts: seq<Burst>, i: nat, j: nat)
    requires i < j <= |bursts|
    ensures |Flatten(bursts[..i])| + |bursts[i]| <= |Flatten(bursts[..j])|
  {
    assert bursts[..j][..j - 1] == bursts[..j - 1];
    if i < j - 1 {
      FlattenGrows(bursts, i, j - 1);
    }
  }

  // ----- Whose it is -----

  /** In force from its start until just before its end. */
  predicate Worn(a: Assignment, chip: string, at: Time)
  {
    a.chip == chip && a.validFrom <= at && (a.validUntil.Some? ==> at < a.validUntil.value)
  }

  /** A crossing belongs to somebody its chip was assigned to at its own instant, and to nobody only if
      it was assigned to nobody then. */
  lemma CrossingsAreTheWearers(input: Input, assignments: seq<Assignment>, c: AcceptedRead)
    requires c in Derived(input).accepted && IsRegistryOf(input.chips, assignments)
    ensures c.participant.Some? ==>
              exists a :: a in assignments && Worn(a, c.chip, c.at) && a.participant == c.participant.value
    ensures c.participant.None? ==> forall a :: a in assignments ==> !Worn(a, c.chip, c.at)
  {
    AcceptedProvenance(input, c);
    var r :| RestsOn(input, c, r);
    var list := Windows(assignments, c.chip);
    ForChipMembers(assignments, c.chip);
    SortPermutes(ForChip(assignments, c.chip), FromKey);
    FirstCoveringFinds(list, c.at);
    forall a | a in assignments
      ensures Worn(a, c.chip, c.at) <==> a in list && Covers(a, c.at)
    {
    }
    var held := FirstCovering(list, c.at);
    if held.Some? {
      assert held.value in list && Worn(held.value, c.chip, c.at);
    }
  }
}
