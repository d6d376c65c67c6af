/** What the neighbour check decides, and when that is what it is for. */
module RegistryLaws {
  import opened Ordering
  import opened Domain
  import opened Registry

  /** A window that ends after it starts. */
  predicate Proper(a: Assignment)
  {
    a.validUntil.Some? ==> a.validFrom < a.validUntil.value
  }

  ghost predicate ShareAnInstant(a: Assignment, b: Assignment)
  {
    exists at: Time :: Covers(a, at) && Covers(b, at)
  }

  /** One chip assigned twice at the same instant. */
  ghost predicate Clash(a: Assignment, b: Assignment)
  {
    a.chip == b.chip && ShareAnInstant(a, b)
  }

  /** No two entries of a list clash. */
  ghost predicate Unambiguous(list: seq<Assignment>)
  {
    forall i, j :: 0 <= i < j < |list| ==> !Clash(list[i], list[j])
  }

  predicate OfOneChip(list: seq<Assignment>)
  {
    forall i :: 0 < i < |list| ==> list[i].chip == list[0].chip
  }

  // ----- For proper windows, checking neighbours is checking everything -----

  lemma OverlapMeansShared(a: Assignment, b: Assignment)
    requires Proper(a) && Proper(b)
    ensures Overlaps(a, b) <==> ShareAnInstant(a, b)
  {
    if Overlaps(a, b) {
      var at := if a.validFrom < b.validFrom then b.validFrom else a.validFrom;
      assert Covers(a, at) && Covers(b, at);
    }
  }

  lemma {:induction false} NeighboursSuffice(list: seq<Assignment>, i: nat, j: nat)
    requires Sorted(list, FromKey) && NeighboursClear(list)
    requires forall a :: a in list ==> Proper(a)
    requires i < j < |list|
    ensures list[i].validUntil.Some? && list[i].validUntil.value <= list[j].validFrom
  {
    assert list[i] in list && list[j - 1] in list;
    assert !Overlaps(list[j - 1], list[j]);
    assert Leq(FromKey(list[j - 1]), FromKey(list[j]));
    if i < j - 1 {
      NeighboursSuffice(list, i, j - 1);
    } else {
      assert list[j] in list;
    }
  }

  /** For one chip, comparing sorted neighbours finds a clash exactly when there is one. */
  lemma NeighboursDecide(list: seq<Assignment>)
    requires Sorted(list, FromKey) && OfOneChip(list)
    requires forall a :: a in list ==> Proper(a)
    ensures NeighboursClear(list) <==> Unambiguous(list)
  {
    if NeighboursClear(list) {
      forall i, j | 0 <= i < j < |list|
        ensures !Clash(list[i], list[j])
      {
        NeighboursSuffice(list, i, j);
      }
    }
    if Unambiguous(list) {
      forall i | 0 <= i < |list| - 1
        ensures !Overlaps(list[i], list[i + 1])
      {
        assert list[i] in list && list[i + 1] in list;
        assert !Clash(list[i], list[i + 1]);
        OverlapMeansShared(list[i], list[i + 1]);
      }
    }
  }

  // ----- Ambiguity counts entries, in whatever order -----

  ghost predicate Clashing(m: multiset<Assignment>)
  {
    exists x, y :: x in m && y in m && (x != y || m[x] > 1) && Clash(x, y)
  }

  lemma {:induction false} CountsTwice<T>(s: seq<T>, x: T) returns (i: nat, j: nat)
    requires multiset(s)[x] > 1
    ensures i < j < |s| && s[i] == x && s[j] == x
  {
    var n := |s| - 1;
    assert s == s[..n] + [s[n]];
    if s[n] == x {
      assert x in multiset(s[..n]);
      i :| 0 <= i < n && s[i] == x;
      j := n;
    } else {
      i, j := CountsTwice(s[..n], x);
    }
  }

  lemma UnambiguousCounts(list: seq<Assignment>)
    ensures Unambiguous(list) <==> !Clashing(multiset(list))
  {
    if x, y :| x in multiset(list) && y in multiset(list) && (x != y || multiset(list)[x] > 1) && Clash(x, y) {
      var i: nat, j: nat := 0, 0;
      if x == y {
        i, j := CountsTwice(list, x);
      } else {
        i :| 0 <= i < |list| && list[i] == x;
        j :| 0 <= j < |list| && list[j] == y;
      }
      assert Clash(list[i], list[j]) && Clash(list[j], list[i]);
    }
    if i, j :| 0 <= i < j < |list| && Clash(list[i], list[j]) {
      if list[i] == list[j] {
        TwiceCounts(list, i, j);
      }
      assert list[i] in multiset(list) && list[j] in multiset(list);
    }
  }

  lemma {:induction false} ForChipPermutes(a: seq<Assignment>, chip: string)
    ensures forall x :: multiset(ForChip(a, chip))[x] == if x.chip == chip then multiset(a)[x] else 0
  {
    if a != [] {
      var front, last := a[..|a| - 1], a[|a| - 1];
      ForChipPermutes(front, chip);
      assert a == front + [last];
    }
  }

  lemma WindowsCount(assignments: seq<Assignment>, chip: string)
    ensures forall x ::
              multiset(Windows(assignments, chip))[x] == if x.chip == chip then multiset(assignments)[x] else 0
    ensures Sorted(Windows(assignments, chip), FromKey) && OfOneChip(Windows(assignments, chip))
  {
    ForChipPermutes(assignments, chip);
    SortPermutes(ForChip(assignments, chip), FromKey);
    SortSorted(ForChip(assignments, chip), FromKey);
    forall x | x in Windows(assignments, chip)
      ensures x.chip == chip
    {
      assert x in multiset(Windows(assignments, chip));
    }
  }

  /** Nothing clashes exactly when nothing does among the entries of each chip. */
  lemma UnambiguousByChip(assignments: seq<Assignment>)
    ensures Unambiguous(assignments)
            <==> forall i :: 0 <= i < |assignments| ==> Unambiguous(Windows(assignments, assignments[i].chip))
  {
    var all := multiset(assignments);
    UnambiguousCounts(assignments);
    forall chip
      ensures Unambiguous(Windows(assignments, chip)) <==> !Clashing(multiset(Windows(assignments, chip)))
      ensures Clashing(multiset(Windows(assignments, chip))) ==> Clashing(all)
    {
      UnambiguousCounts(Windows(assignments, chip));
      WindowsCount(assignments, chip);
    }
    if x, y :| x in all && y in all && (x != y || all[x] > 1) && Clash(x, y) {
      var i :| 0 <= i < |assignments| && assignments[i] == x;
      WindowsCount(assignments, x.chip);
      var m := multiset(Windows(assignments, x.chip));
      assert x in m && y in m && (x != y || m[x] > 1);
    }
  }

  // ----- The verdict -----

  /** Where every window ends after it starts, a registry is built exactly when no chip is assigned
      twice at one instant. */
  lemma AcceptedMeansUnambiguous(assignments: seq<Assignment>)
    requires forall a :: a in assignments ==> Proper(a)
    ensures Accepts(assignments) <==> Unambiguous(assignments)
  {
    UnambiguousByChip(assignments);
    forall chip
      ensures NeighboursClear(Windows(assignments, chip)) <==> Unambiguous(Windows(assignments, chip))
    {
      ChipDecides(assignments, chip);
    }
  }

  lemma ChipDecides(assignments: seq<Assignment>, chip: string)
    requires forall a :: a in assignments ==> Proper(a)
    ensures NeighboursClear(Windows(assignments, chip)) <==> Unambiguous(Windows(assignments, chip))
  {
    WindowsCount(assignments, chip);
    WindowsHold(assignments, chip);
    NeighboursDecide(Windows(assignments, chip));
  }

  lemma WindowsHold(assignments: seq<Assignment>, chip: string)
    ensures forall x :: x in Windows(assignments, chip) <==> x in assignments && x.chip == chip
  {
    ForChipMembers(assignments, chip);
    SortPermutes(ForChip(assignments, chip), FromKey);
  }

  /** The windows that end after they start. */
  function Props(list: seq<Assignment>): seq<Assignment>
  {
    if list == [] then []
    else
      var last := list[|list| - 1];
      Props(list[..|list| - 1]) + if Proper(last) then [last] else []
  }

  lemma {:induction false} PropsCount(list: seq<Assignment>, x: Assignment)
    ensures multiset(Props(list))[x] == if Proper(x) then multiset(list)[x] else 0
  {
    if list != [] {
      var front, last := list[..|list| - 1], list[|list| - 1];
      PropsCount(front, x);
      assert list == front + [last];
    }
  }

  lemma ClashesAreProper(list: seq<Assignment>)
    ensures Clashing(multiset(Props(list))) <==> Clashing(multiset(list))
  {
    forall x
      ensures multiset(Props(list))[x] == if Proper(x) then multiset(list)[x] else 0
    {
      PropsCount(list, x);
    }
    var all, proper := multiset(list), multiset(Props(list));
    if x, y :| x in all && y in all && (x != y || all[x] > 1) && Clash(x, y) {
      assert Proper(x) && Proper(y);
      assert x in proper && y in proper && (x != y || proper[x] > 1);
    }
  }

  /** Whatever the windows, no chip is assigned twice at one instant exactly when what is left
      without the empty ones would be accepted. */
  lemma AmbiguityIgnoresEmptyWindows(assignments: seq<Assignment>)
    ensures Unambiguous(assignments) <==> Accepts(Props(assignments))
  {
    UnambiguousCounts(assignments);
    UnambiguousCounts(Props(assignments));
    ClashesAreProper(assignments);
    forall a | a in Props(assignments)
      ensures Proper(a)
    {
      PropsCount(assignments, a);
      assert a in multiset(Props(assignments));
    }
    AcceptedMeansUnambiguous(Props(assignments));
  }

  /** So the builder is right exactly when leaving the empty windows out would not change what it
      says, as it never would if there are none. */
  lemma VerdictIsRightExactly(assignments: seq<Assignment>)
    ensures (Accepts(assignments) <==> Unambiguous(assignments))
            <==> (Accepts(assignments) <==> Accepts(Props(assignments)))
    ensures (forall a :: a in assignments ==> Proper(a)) ==> Props(assignments) == assignments
  {
    AmbiguityIgnoresEmptyWindows(assignments);
    if forall a :: a in assignments ==> Proper(a) {
      AllProper(assignments);
    }
  }

  lemma {:induction false} AllProper(list: seq<Assignment>)
    requires forall a :: a in list ==> Proper(a)
    ensures Props(list) == list
  {
    if list != [] {
      var front, last := list[..|list| - 1], list[|list| - 1];
      assert last in list && forall a :: a in front ==> a in list;
      AllProper(front);
      assert list == front + [last];
    }
  }

  // ----- What a registry answers -----

  /** Asked at any instant, the registry names an assignment exactly when it is the one in force;
      this holds exactly when no two different assignments of the chip clash. */
  lemma ResolveIsUnique(registry: ChipRegistry, assignments: seq<Assignment>, chip: string)
    requires IsRegistryOf(registry, assignments)
    ensures (forall at: Time, a :: Answers(registry, assignments, chip, at, a))
            <==> forall x, y :: x in assignments && y in assignments && x.chip == chip && x != y ==> !Clash(x, y)
  {
    forall at: Time
      ensures var r := Resolve(registry, chip, at);
              (r.Some? ==> InForce(assignments, chip, at, r.value))
              && (r.None? ==> forall a :: !InForce(assignments, chip, at, a))
    {
      ResolveFinds(registry, assignments, chip, at);
    }
    if forall at: Time, a :: Answers(registry, assignments, chip, at, a) {
      forall x, y | x in assignments && y in assignments && x.chip == chip && Clash(x, y)
        ensures x == y
      {
        var at: Time :| Covers(x, at) && Covers(y, at);
        assert Answers(registry, assignments, chip, at, x) && Answers(registry, assignments, chip, at, y);
      }
    } else {
      var at: Time, a :| !Answers(registry, assignments, chip, at, a);
      var r := Resolve(registry, chip, at).value;
      assert Covers(a, at) && Covers(r, at);
      assert Clash(a, r) && a != r;
    }
  }

  ghost predicate InForce(assignments: seq<Assignment>, chip: string, at: Time, a: Assignment)
  {
    a in assignments && a.chip == chip && Covers(a, at)
  }

  ghost predicate Answers(registry: ChipRegistry, assignments: seq<Assignment>, chip: string, at: Time, a: Assignment)
  {
    Resolve(registry, chip, at) == Some(a) <==> InForce(assignments, chip, at, a)
  }

  lemma ResolveFinds(registry: ChipRegistry, assignments: seq<Assignment>, chip: string, at: Time)
    requires IsRegistryOf(registry, assignments)
    ensures var r := Resolve(registry, chip, at);
            (r.Some? ==> InForce(assignments, chip, at, r.value))
            && (r.None? ==> forall a :: !InForce(assignments, chip, at, a))
  {
    WindowsHold(assignments, chip);
    FirstCoveringFinds(Windows(assignments, chip), at);
  }

  /** In particular of every registry built from windows that end after they start. */
  lemma BuiltRegistriesAnswer(registry: ChipRegistry, assignments: seq<Assignment>, chip: string,
                              at: Time, a: Assignment)
    requires IsRegistryOf(registry, assignments) && Accepts(assignments)
    requires forall b :: b in assignments ==> Proper(b)
    ensures Answers(registry, assignments, chip, at, a)
  {
    AcceptedMeansUnambiguous(assignments);
    forall x, y | x in assignments && y in assignments && x.chip == chip && x != y
      ensures !Clash(x, y)
    {
      DifferentDoNotClash(assignments, x, y);
    }
    ResolveIsUnique(registry, assignments, chip);
  }

  lemma DifferentDoNotClash(list: seq<Assignment>, x: Assignment, y: Assignment)
    requires Unambiguous(list) && x in list && y in list && x != y
    ensures !Clash(x, y)
  {
    var i :| 0 <= i < |list| && list[i] == x;
    var j :| 0 <= j < |list| && list[j] == y;
    assert Clash(x, y) ==> Clash(y, x);
  }

  // ----- Input order -----

  predicate SameWindow(a: Assignment, b: Assignment)
  {
    a.validFrom == b.validFrom && a.validUntil == b.validUntil
  }

  predicate StartTogether(a: Assignment, b: Assignment)
  {
    a.chip == b.chip && a.validFrom == b.validFrom
  }

  /** Entries of one chip that start together have the same window, or windows that end after they start. */
  ghost predicate TiesAgree(list: seq<Assignment>)
  {
    forall x, y :: x in list && y in list && StartTogether(x, y) ==> SameWindow(x, y) || (Proper(x) && Proper(y))
  }

  /** Different entries that start together and end later cannot be told apart by neighbours. */
  lemma TiesAreRefused(list: seq<Assignment>, x: Assignment, y: Assignment)
    requires Sorted(list, FromKey) && OfOneChip(list) && TiesAgree(list)
    requires x in list && y in list && x != y && x.validFrom == y.validFrom && Proper(x)
    ensures !NeighboursClear(list)
  {
    var i :| 0 <= i < |list| && list[i] == x;
    var j :| 0 <= j < |list| && list[j] == y;
    var low, high := if i < j then i else j, if i < j then j else i;
    assert StartTogether(x, y) && StartTogether(y, x);
    assert Proper(y) && Proper(list[low]);
    assert list[low] in list && list[low + 1] in list;
    assert Leq(FromKey(list[low]), FromKey(list[low + 1]));
    assert Leq(FromKey(list[low + 1]), FromKey(list[high])) by { LeqRefl(FromKey(list[high])); }
    assert list[low + 1].validFrom == x.validFrom;
    assert StartTogether(x, list[low + 1]) && Proper(list[low + 1]);
    assert Overlaps(list[low], list[low + 1]);
  }

  function WindowOf(a: Assignment): (Time, Option<Time>) { (a.validFrom, a.validUntil) }

  function WindowKey(w: (Time, Option<Time>)): Key { [w.0] }

  /** Where what starts together has one window, the order of the windows is settled. */
  lemma SameWindows(a: seq<Assignment>, b: seq<Assignment>)
    requires multiset(a) == multiset(b)
    requires forall x, y :: x in a && y in a && x.validFrom == y.validFrom ==> SameWindow(x, y)
    ensures Map(WindowOf, Sort(a, FromKey)) == Map(WindowOf, Sort(b, FromKey))
  {
    SortMap(a, WindowOf, FromKey, WindowKey);
    SortMap(b, WindowOf, FromKey, WindowKey);
    MapPermutes(WindowOf, a, b);
    var wa := Map(WindowOf, a);
    forall v, w | v in wa && w in wa && WindowKey(v) == WindowKey(w)
      ensures v == w
    {
      var i :| 0 <= i < |wa| && wa[i] == v;
      var j :| 0 <= j < |wa| && wa[j] == w;
      assert [v.0][0] == [w.0][0];
      assert SameWindow(a[i], a[j]);
    }
    SortOrderBlind(wa, Map(WindowOf, b), WindowKey);
  }

  lemma NeighboursSeeWindows(s: seq<Assignment>, t: seq<Assignment>)
    requires Map(WindowOf, s) == Map(WindowOf, t)
    ensures NeighboursClear(s) <==> NeighboursClear(t)
  {
    assert |s| == |t|;
    forall i | 0 <= i < |s|
      ensures SameWindow(s[i], t[i])
    {
      assert Map(WindowOf, s)[i] == Map(WindowOf, t)[i];
    }
  }

  /** The same entry, or windows that cover nothing, place by place. */
  ghost predicate Alike(s: seq<Assignment>, t: seq<Assignment>)
  {
    |s| == |t| && forall i :: 0 <= i < |s| ==> s[i] == t[i] || (!Proper(s[i]) && !Proper(t[i]))
  }

  lemma {:induction false} AlikeAnswerAlike(s: seq<Assignment>, t: seq<Assignment>, at: Time)
    requires Alike(s, t)
    ensures FirstCovering(s, at) == FirstCovering(t, at)
  {
    if s != [] {
      AlikeAnswerAlike(s[1..], t[1..], at);
    }
  }

  lemma TiesAgreeAmong(list: seq<Assignment>, some: seq<Assignment>)
    requires TiesAgree(list) && forall x :: x in some ==> x in list
    ensures TiesAgree(some)
  {
  }

  /** The verdict on a chip does not depend on the order its entries come in, nor do the answers. */
  lemma WindowsOrderBlind(a: seq<Assignment>, b: seq<Assignment>, chip: string)
    requires multiset(a) == multiset(b) && TiesAgree(a)
    ensures NeighboursClear(Windows(a, chip)) <==> NeighboursClear(Windows(b, chip))
    ensures NeighboursClear(Windows(a, chip)) ==> Alike(Windows(a, chip), Windows(b, chip))
  {
    var la, lb, wa, wb := ForChip(a, chip), ForChip(b, chip), Windows(a, chip), Windows(b, chip);
    SameMultiset(a, b);
    WindowsCount(a, chip);
    WindowsCount(b, chip);
    WindowsHold(a, chip);
    WindowsHold(b, chip);
    TiesAgreeAmong(a, wa);
    TiesAgreeAmong(a, wb);
    if x, y :| x in wa && y in wa && x.validFrom == y.validFrom && !SameWindow(x, y) {
      assert StartTogether(x, y);
      TiesAreRefused(wa, x, y);
      TiesAreRefused(wb, x, y);
    } else {
      ChipPermutes(a, b, chip);
      ForChipMembers(a, chip);
      SameWindows(la, lb);
      NeighboursSeeWindows(wa, wb);
      if NeighboursClear(wa) {
        ClearMeansAlike(wa, wb);
      }
    }
  }

  lemma ChipPermutes(a: seq<Assignment>, b: seq<Assignment>, chip: string)
    requires multiset(a) == multiset(b)
    ensures multiset(ForChip(a, chip)) == multiset(ForChip(b, chip))
  {
    ForChipPermutes(a, chip);
    ForChipPermutes(b, chip);
  }

  lemma ClearMeansAlike(s: seq<Assignment>, t: seq<Assignment>)
    requires Map(WindowOf, s) == Map(WindowOf, t) && NeighboursClear(s)
    requires Sorted(s, FromKey) && OfOneChip(s) && TiesAgree(s) && forall x :: x in t ==> x in s
    ensures Alike(s, t)
  {
    assert |s| == |t|;
    forall i | 0 <= i < |s|
      ensures s[i] == t[i] || (!Proper(s[i]) && !Proper(t[i]))
    {
      assert Map(WindowOf, s)[i] == Map(WindowOf, t)[i];
      assert t[i] in t;
      if s[i] != t[i] && Proper(s[i]) {
        TiesAreRefused(s, s[i], t[i]);
      }
    }
  }

  /** Permuting the input changes neither whether a registry is built, nor the chip a refusal names,
      nor any answer. */
  lemma RegistryOrderBlind(a: seq<Assignment>, b: seq<Assignment>)
    requires multiset(a) == multiset(b) && TiesAgree(a)
    ensures Accepts(a) <==> Accepts(b)
    ensures forall c, d :: Offends(a, c) && Offends(b, d) ==> c == d
    ensures Accepts(a) ==> forall chip, at: Time :: AnswerIn(a, chip, at) == AnswerIn(b, chip, at)
  {
    SameMultiset(a, b);
    forall chip
      ensures NeighboursClear(Windows(a, chip)) <==> NeighboursClear(Windows(b, chip))
      ensures NeighboursClear(Windows(a, chip)) ==> Alike(Windows(a, chip), Windows(b, chip))
    {
      WindowsOrderBlind(a, b, chip);
    }
    SameVerdict(a, b);
    SameVerdict(b, a);
    forall c, d | Offends(a, c) && Offends(b, d)
      ensures c == d
    {
      OffenderIsGiven(a, c);
      OffenderIsGiven(b, d);
      LeqAntisymmetric(ChipKey(c), ChipKey(d));
      TextKeyInjective(c, [], d, []);
    }
    forall chip, at: Time | Accepts(a)
      ensures AnswerIn(a, chip, at) == AnswerIn(b, chip, at)
    {
      AcceptedIsClear(a, chip);
      AlikeAnswerAlike(Windows(a, chip), Windows(b, chip), at);
    }
  }

  function AnswerIn(assignments: seq<Assignment>, chip: string, at: Time): Option<Assignment>
  {
    FirstCovering(Windows(assignments, chip), at)
  }

  lemma SameVerdict(a: seq<Assignment>, b: seq<Assignment>)
    requires forall x :: x in a <==> x in b
    requires forall chip :: NeighboursClear(Windows(a, chip)) <==> NeighboursClear(Windows(b, chip))
    ensures Accepts(a) ==> Accepts(b)
  {
    if Accepts(a) {
      forall i | 0 <= i < |b|
        ensures NeighboursClear(Windows(b, b[i].chip))
      {
        assert b[i] in b;
        var j :| 0 <= j < |a| && a[j] == b[i];
        assert NeighboursClear(Windows(a, a[j].chip));
      }
    }
  }

  lemma OffenderIsGiven(assignments: seq<Assignment>, chip: string)
    requires !NeighboursClear(Windows(assignments, chip))
    ensures exists i :: 0 <= i < |assignments| && assignments[i].chip == chip
  {
    WindowsHold(assignments, chip);
    assert Windows(assignments, chip)[0] in Windows(assignments, chip);
  }

  lemma AcceptedIsClear(assignments: seq<Assignment>, chip: string)
    requires Accepts(assignments)
    ensures NeighboursClear(Windows(assignments, chip))
  {
    if !NeighboursClear(Windows(assignments, chip)) {
      OffenderIsGiven(assignments, chip);
    }
  }

  // ----- What empty windows do -----

  lemma {:induction false} AllForChip(list: seq<Assignment>, chip: string)
    requires forall i :: 0 <= i < |list| ==> list[i].chip == chip
    ensures ForChip(list, chip) == list
  {
    if list != [] {
      AllForChip(list[..|list| - 1], chip);
    }
  }

  lemma AcceptsOneList(list: seq<Assignment>)
    requires Sorted(list, FromKey) && OfOneChip(list)
    ensures Accepts(list) <==> NeighboursClear(list)
  {
    if list != [] {
      AllForChip(list, list[0].chip);
      SortedStays(list, FromKey);
    }
  }

  lemma AcceptsThree(a: Assignment, b: Assignment, c: Assignment)
    requires a.chip == b.chip == c.chip && a.validFrom <= b.validFrom <= c.validFrom
    ensures Accepts([a, b, c]) <==> !Overlaps(a, b) && !Overlaps(b, c)
  {
    var list := [a, b, c];
    AcceptsOneList(list);
    assert NeighboursClear(list) <==> !Overlaps(list[0], list[1]) && !Overlaps(list[1], list[2]);
  }

  /** An empty window between two that clash lets them through: it sorts between them. */
  lemma EmptyWindowHidesAClash(chip: string, one: Uuid, two: Uuid)
    ensures var wide, empty, late := Assignment(chip, one, 0, 0, Some(100)), Assignment(chip, one, 0, 10, Some(0)),
                                     Assignment(chip, two, 0, 20, Some(30));
            Accepts([wide, empty, late]) && Clash(wide, late)
  {
    var wide, empty, late := Assignment(chip, one, 0, 0, Some(100)), Assignment(chip, one, 0, 10, Some(0)),
                             Assignment(chip, two, 0, 20, Some(30));
    AcceptsThree(wide, empty, late);
    assert Covers(wide, 20) && Covers(late, 20);
  }

  /** An empty window inside another is refused, though it is never in force. */
  lemma EmptyWindowRefusedInVain(chip: string, one: Uuid, two: Uuid)
    ensures var wide, empty := Assignment(chip, one, 0, 0, Some(100)), Assignment(chip, two, 0, 10, Some(5));
            !Accepts([wide, empty]) && Unambiguous([wide, empty])
  {
    var wide, empty := Assignment(chip, one, 0, 0, Some(100)), Assignment(chip, two, 0, 10, Some(5));
    AcceptsOneList([wide, empty]);
    assert Overlaps([wide, empty][0], [wide, empty][1]);
  }

  /** And for any two entries of a chip that start together and break the tie rule, there is input
      that holds both and is accepted in one order and refused in another. */
  lemma OrderCanDecide(x: Assignment, y: Assignment) returns (p: seq<Assignment>, q: seq<Assignment>)
    requires StartTogether(x, y) && !SameWindow(x, y) && !(Proper(x) && Proper(y))
    ensures multiset(p) == multiset(q) && x in p && y in p
    ensures Accepts(p) && !Accepts(q)
  {
    if Proper(x) {
      p, q := EmptyBetween(x, y);
    } else if Proper(y) {
      p, q := EmptyBetween(y, x);
    } else if x.validUntil.value < y.validUntil.value {
      p, q := EmptyAfter(x, y);
    } else {
      p, q := EmptyAfter(y, x);
    }
  }

  lemma SwapLastTwo<T>(a: T, b: T, c: T)
    ensures multiset([a, b, c]) == multiset([a, c, b])
    ensures a in [a, b, c] && b in [a, b, c] && c in [a, b, c]
  {
    assert b == [a, b, c][1] && c == [a, b, c][2];
  }

  lemma EmptyBetween(x: Assignment, y: Assignment) returns (p: seq<Assignment>, q: seq<Assignment>)
    requires StartTogether(x, y) && Proper(x) && !Proper(y)
    ensures multiset(p) == multiset(q) && x in p && y in p
    ensures Accepts(p) && !Accepts(q)
  {
    var other := x.(participant := y.participant);
    p, q := [x, y, other], [x, other, y];
    SwapLastTwo(x, y, other);
    AcceptsThree(x, y, other);
    AcceptsThree(x, other, y);
  }

  lemma EmptyAfter(x: Assignment, y: Assignment) returns (p: seq<Assignment>, q: seq<Assignment>)
    requires StartTogether(x, y) && !Proper(x) && !Proper(y) && x.validUntil.value < y.validUntil.value
    ensures multiset(p) == multiset(q) && x in p && y in p
    ensures Accepts(p) && !Accepts(q)
  {
    var wide := x.(validFrom := x.validUntil.value, validUntil := None);
    p, q := [wide, x, y], [wide, y, x];
    SwapLastTwo(wide, x, y);
    AcceptsThree(wide, x, y);
    AcceptsThree(wide, y, x);
  }
}
