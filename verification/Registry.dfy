/** Time-aware chip to participant resolution. */
module Registry {
  import opened Ordering
  import opened Domain

  /** `validFrom` is inclusive and `validUntil` exclusive; `None` never ends. */
  datatype Assignment = Assignment(
    chip: string,
    participant: Uuid,
    race: Uuid,
    validFrom: Time,
    validUntil: Option<Time>)

  type ChipRegistry = map<string, seq<Assignment>>

  datatype Built = Ok(registry: ChipRegistry) | OverlappingChipAssignment(chip: string)

  predicate Covers(a: Assignment, at: Time)
  {
    at >= a.validFrom && (a.validUntil.None? || at < a.validUntil.value)
  }

  predicate Overlaps(a: Assignment, b: Assignment)
  {
    && (b.validUntil.None? || a.validFrom < b.validUntil.value)
    && (a.validUntil.None? || b.validFrom < a.validUntil.value)
  }

  function FirstCovering(list: seq<Assignment>, at: Time): Option<Assignment>
  {
    if list == [] then None else if Covers(list[0], at) then Some(list[0]) else FirstCovering(list[1..], at)
  }

  function Resolve(registry: ChipRegistry, chip: string, at: Time): Option<Assignment>
  {
    if chip in registry then FirstCovering(registry[chip], at) else None
  }

  function ParticipantAt(registry: ChipRegistry, chip: string, at: Time): Option<Uuid>
  {
    var a := Resolve(registry, chip, at);
    if a.Some? then Some(a.value.participant) else None
  }

  // ----- Building -----

  function FromKey(a: Assignment): Key { [a.validFrom] }

  function ChipKey(chip: string): Key { Codes(chip) }

  function ChipOf(a: Assignment): string { a.chip }

  function ForChip(assignments: seq<Assignment>, chip: string): seq<Assignment>
  {
    if assignments == [] then []
    else
      var last := assignments[|assignments| - 1];
      ForChip(assignments[..|assignments| - 1], chip) + if last.chip == chip then [last] else []
  }

  /** The list the registry holds for a chip: by start of validity. */
  function Windows(assignments: seq<Assignment>, chip: string): seq<Assignment>
  {
    Sort(ForChip(assignments, chip), FromKey)
  }

  /** What the builder checks: neighbours only. */
  predicate NeighboursClear(list: seq<Assignment>)
  {
    forall i :: 0 <= i < |list| - 1 ==> !Overlaps(list[i], list[i + 1])
  }

  /** Whether a registry can be built. */
  predicate Accepts(assignments: seq<Assignment>)
  {
    forall i :: 0 <= i < |assignments| ==> NeighboursClear(Windows(assignments, assignments[i].chip))
  }

  /** The chip a refusal names: the first in order of those with clashing neighbours. */
  ghost predicate Offends(assignments: seq<Assignment>, chip: string)
  {
    && !NeighboursClear(Windows(assignments, chip))
    && forall a :: a in assignments && !NeighboursClear(Windows(assignments, a.chip)) ==>
         Leq(ChipKey(chip), ChipKey(a.chip))
  }

  ghost predicate IsRegistryOf(registry: ChipRegistry, assignments: seq<Assignment>)
  {
    && (forall chip :: chip in registry <==> exists a :: a in assignments && a.chip == chip)
    && (forall chip :: chip in registry ==> registry[chip] == Windows(assignments, chip))
  }

  method GroupByChip(assignments: seq<Assignment>) returns (byChip: ChipRegistry)
    ensures forall chip :: chip in byChip <==> exists a :: a in assignments && a.chip == chip
    ensures forall chip :: chip in byChip ==> byChip[chip] == ForChip(assignments, chip)
  {
    byChip := map[];
    for i := 0 to |assignments|
      invariant forall chip :: chip in byChip <==> ForChip(assignments[..i], chip) != []
      invariant forall chip :: chip in byChip ==> byChip[chip] == ForChip(assignments[..i], chip)
    {
      var a := assignments[i];
      assert assignments[..i + 1][..i] == assignments[..i];
      byChip := byChip[a.chip := (if a.chip in byChip then byChip[a.chip] else []) + [a]];
    }
    assert assignments[..|assignments|] == assignments;
    forall chip
      ensures ForChip(assignments, chip) != [] <==> exists a :: a in assignments && a.chip == chip
    {
      ForChipMembers(assignments, chip);
      var list := ForChip(assignments, chip);
      if list != [] {
        assert list[0] in list;
      }
    }
  }

  method FromAssignments(assignments: seq<Assignment>) returns (r: Built)
    ensures r.Ok? <==> Accepts(assignments)
    ensures r.Ok? ==> IsRegistryOf(r.registry, assignments)
    ensures r.OverlappingChipAssignment? ==> Offends(assignments, r.chip)
  {
    var byChip := GroupByChip(assignments);
    var chips := Sort(Distinct(Map(ChipOf, assignments)), ChipKey);
    ChipsInOrder(assignments);
    r := SortAndCheck(byChip, chips);
    assert forall chip :: chip in byChip ==> Ordered(byChip)[chip] == Windows(assignments, chip);
    assert forall a :: a in assignments ==> a.chip in byChip;
  }

  /** Every chip's list by start of validity. */
  function Ordered(grouped: ChipRegistry): (r: ChipRegistry)
    ensures r.Keys == grouped.Keys
  {
    map chip | chip in grouped :: Sort(grouped[chip], FromKey)
  }

  ghost predicate AllClear(lists: ChipRegistry, chips: seq<string>)
  {
    forall chip :: chip in chips ==> chip in lists && NeighboursClear(lists[chip])
  }

  method SortAndCheck(grouped: ChipRegistry, chips: seq<string>) returns (r: Built)
    requires NoDuplicates(chips) && Sorted(chips, ChipKey)
    requires forall chip :: chip in chips <==> chip in grouped
    ensures r.Ok? ==> r.registry == Ordered(grouped)
                      && forall chip :: chip in grouped ==> NeighboursClear(Ordered(grouped)[chip])
    ensures r.OverlappingChipAssignment? ==>
              && r.chip in grouped && !NeighboursClear(Ordered(grouped)[r.chip])
              && forall chip :: chip in grouped && !NeighboursClear(Ordered(grouped)[chip]) ==>
                   Leq(ChipKey(r.chip), ChipKey(chip))
  {
    var byChip := grouped;
    for i := 0 to |chips|
      invariant byChip == Partly(grouped, chips[..i])
      invariant AllClear(Ordered(grouped), chips[..i])
    {
      var chip := chips[i];
      PrefixGrows(chips, i);
      PartlyStep(grouped, chips[..i], chip);
      byChip := byChip[chip := Sort(byChip[chip], FromKey)];
      if !NeighboursClear(byChip[chip]) {
        FirstOffender(Ordered(grouped), chips, i);
        return OverlappingChipAssignment(chip);
      }
      ClearNext(Ordered(grouped), chips[..i], chip);
    }
    assert chips[..|chips|] == chips;
    PartlyAll(grouped, chips);
    r := Ok(byChip);
  }

  /** The map part of the way through: the lists of `done` are in order. */
  ghost function Partly(grouped: ChipRegistry, done: seq<string>): (r: ChipRegistry)
    ensures r.Keys == grouped.Keys
  {
    map chip | chip in grouped :: if chip in done then Ordered(grouped)[chip] else grouped[chip]
  }

  lemma PartlyAll(grouped: ChipRegistry, chips: seq<string>)
    requires forall chip :: chip in chips <==> chip in grouped
    ensures Partly(grouped, chips) == Ordered(grouped)
  {
  }

  lemma ClearNext(lists: ChipRegistry, chips: seq<string>, chip: string)
    requires AllClear(lists, chips) && chip in lists && NeighboursClear(lists[chip])
    ensures AllClear(lists, chips + [chip])
  {
  }

  lemma PartlyStep(grouped: ChipRegistry, done: seq<string>, chip: string)
    requires chip in grouped && chip !in done
    ensures var before := Partly(grouped, done);
            && before[chip] == grouped[chip]
            && Partly(grouped, done + [chip]) == before[chip := Ordered(grouped)[chip]]
  {
  }

  lemma FirstOffender(lists: ChipRegistry, chips: seq<string>, i: nat)
    requires i < |chips| && Sorted(chips, ChipKey)
    requires forall chip :: chip in chips <==> chip in lists
    requires AllClear(lists, chips[..i])
    ensures forall chip :: chip in lists && !NeighboursClear(lists[chip]) ==> Leq(ChipKey(chips[i]), ChipKey(chip))
  {
    LeqRefl(ChipKey(chips[i]));
    forall j | 0 <= j < i
      ensures chips[j] in lists && NeighboursClear(lists[chips[j]])
    {
      assert chips[..i][j] == chips[j];
    }
    forall chip | chip in lists && !NeighboursClear(lists[chip])
      ensures Leq(ChipKey(chips[i]), ChipKey(chip))
    {
      assert chip in chips;
      var j :| 0 <= j < |chips| && chips[j] == chip;
    }
  }

  lemma ChipsInOrder(assignments: seq<Assignment>)
    ensures var chips := Sort(Distinct(Map(ChipOf, assignments)), ChipKey);
            && NoDuplicates(chips) && Sorted(chips, ChipKey)
            && (forall a :: a in assignments ==> a.chip in chips)
            && (forall chip :: chip in chips ==> exists a :: a in assignments && a.chip == chip)
  {
    var all := Map(ChipOf, assignments);
    DistinctHasNoDuplicates(all);
    SortPermutes(Distinct(all), ChipKey);
    SortSorted(Distinct(all), ChipKey);
    PermutedNoDuplicates(Distinct(all), Sort(Distinct(all), ChipKey));
    forall a | a in assignments
      ensures a.chip in all
    {
      var j :| 0 <= j < |assignments| && assignments[j] == a;
      assert all[j] == a.chip;
    }
  }

  // ----- Lists and lookups -----

  lemma {:induction false} FirstCoveringFinds(list: seq<Assignment>, at: Time)
    ensures var r := FirstCovering(list, at);
            && (r.None? <==> forall a :: a in list ==> !Covers(a, at))
            && (r.Some? ==> r.value in list && Covers(r.value, at))
  {
    if list != [] {
      FirstCoveringFinds(list[1..], at);
      assert forall a :: a in list <==> a == list[0] || a in list[1..];
    }
  }

  lemma {:induction false} ForChipMembers(assignments: seq<Assignment>, chip: string)
    ensures forall a :: a in ForChip(assignments, chip) <==> a in assignments && a.chip == chip
  {
    if assignments != [] {
      ForChipMembers(assignments[..|assignments| - 1], chip);
    }
  }
}
