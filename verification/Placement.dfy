/** Overall places by standard competition ranking, and the order a results sheet is read in. */
module Placement {
  import opened Ordering
  import opened Domain
  import opened Text
  import opened Results

  const U64_MAX := 0xFFFF_FFFF_FFFF_FFFF

  // ----- Bibs -----

  /** `str::parse::<u64>`: digits, with an optional leading plus, that fit 64 bits. */
  function ParseU64(s: string): Option<nat>
  {
    var digits := if |s| > 1 && s[0] == '+' then s[1..] else s;
    if digits != [] && AllDigits(digits) && Value(digits) <= U64_MAX then Some(Value(digits)) else None
  }

  /** Numeric bibs in numeric order, then all others as text. */
  function BibKey(bib: string, rest: Key): Key
  {
    var number := ParseU64(bib);
    (if number.Some? then [0, number.value] else [1, 0]) + TextKey(bib, rest)
  }

  lemma BibKeyInjective(a: string, x: Key, b: string, y: Key)
    requires BibKey(a, x) == BibKey(b, y)
    ensures a == b && x == y
  {
    assert BibKey(a, x)[2..] == TextKey(a, x) && BibKey(b, y)[2..] == TextKey(b, y);
    TextKeyInjective(a, x, b, y);
  }

  // ----- Places -----

  predicate Placeable(e: Entry)
  {
    e.status.Finished? && e.scoringTimeMs.Some?
  }

  /** Placeable entries with a strictly smaller time. */
  function Faster(entries: seq<Entry>, timeMs: int): nat
  {
    if entries == [] then 0
    else
      var last := entries[|entries| - 1];
      Faster(entries[..|entries| - 1], timeMs) + if Placeable(last) && last.scoringTimeMs.value < timeMs then 1 else 0
  }

  function ToPlace(ahead: nat): int
  {
    if ahead < U32_MAX then ahead + 1 else U32_MAX
  }

  /** One more than the number of runners strictly faster: ties share a place and use it up. */
  function Ranked(entries: seq<Entry>, e: Entry): Entry
  {
    if Placeable(e) then e.(place := Some(ToPlace(Faster(entries, e.scoringTimeMs.value)))) else e
  }

  function Placed(entries: seq<Entry>): (r: seq<Entry>)
    ensures |r| == |entries|
    ensures forall i :: 0 <= i < |r| ==> r[i] == Ranked(entries, entries[i])
  {
    seq(|entries|, i requires 0 <= i < |entries| => Ranked(entries, entries[i]))
  }

  /** An entry beside its index, so that a sort of indices can look at entries. */
  datatype Indexed = Indexed(index: nat, entry: Entry)

  function PlacementKey(x: Indexed): Key
  {
    [if x.entry.scoringTimeMs.Some? then x.entry.scoringTimeMs.value else 0]
    + BibKey(x.entry.bib, [x.entry.participant])
  }

  function PlaceableOf(entries: seq<Entry>, n: nat): (r: seq<Indexed>)
    requires n <= |entries|
  {
    if n == 0 then []
    else PlaceableOf(entries, n - 1) + if Placeable(entries[n - 1]) then [Indexed(n - 1, entries[n - 1])] else []
  }

  function TimeOf(x: Indexed): int
  {
    if x.entry.scoringTimeMs.Some? then x.entry.scoringTimeMs.value else 0
  }

  function Below(times: seq<int>, t: int): nat
  {
    if times == [] then 0 else Below(times[..|times| - 1], t) + if times[|times| - 1] < t then 1 else 0
  }

  lemma {:induction false} BelowAppend(a: seq<int>, b: seq<int>, t: int)
    ensures Below(a + b, t) == Below(a, t) + Below(b, t)
  {
    if b == [] {
      assert a + b == a;
    } else {
      assert (a + b)[..|a + b| - 1] == a + b[..|b| - 1];
      BelowAppend(a, b[..|b| - 1], t);
    }
  }

  lemma BelowOne(x: int, t: int)
    ensures Below([x], t) == if x < t then 1 else 0
  {
    assert [x][..0] == [];
  }

  lemma {:induction false} BelowPermutes(a: seq<int>, b: seq<int>, t: int)
    requires multiset(a) == multiset(b)
    ensures Below(a, t) == Below(b, t)
    decreases |a|
  {
    SameLength(a, b);
    if a != [] {
      var j := TakeOut(a, b);
      BelowPermutes(a[1..], b[..j] + b[j + 1..], t);
      BelowUncons(a, t);
      BelowExtract(b, j, t);
    }
  }

  lemma BelowUncons(s: seq<int>, t: int)
    requires s != []
    ensures Below(s, t) == (if s[0] < t then 1 else 0) + Below(s[1..], t)
  {
    assert s == [s[0]] + s[1..];
    BelowAppend([s[0]], s[1..], t);
    BelowOne(s[0], t);
  }

  lemma BelowExtract(s: seq<int>, j: int, t: int)
    requires 0 <= j < |s|
    ensures Below(s, t) == (if s[j] < t then 1 else 0) + Below(s[..j] + s[j + 1..], t)
  {
    assert s == s[..j] + s[j..];
    BelowAppend(s[..j], s[j..], t);
    BelowUncons(s[j..], t);
    assert s[j..][1..] == s[j + 1..];
    BelowAppend(s[..j], s[j + 1..], t);
  }

  lemma {:induction false} FasterIsBelow(entries: seq<Entry>, n: nat, t: int)
    requires n <= |entries|
    ensures Faster(entries[..n], t) == Below(Map(TimeOf, PlaceableOf(entries, n)), t)
  {
    if n > 0 {
      FasterIsBelow(entries, n - 1, t);
      assert entries[..n][..n - 1] == entries[..n - 1] && entries[..n][n - 1] == entries[n - 1];
      BelowNext(PlaceableOf(entries, n - 1), Indexed(n - 1, entries[n - 1]), t);
    }
  }

  lemma BelowNext(queue: seq<Indexed>, x: Indexed, t: int)
    ensures Below(Map(TimeOf, queue + if Placeable(x.entry) then [x] else []), t)
            == Below(Map(TimeOf, queue), t) + if Placeable(x.entry) && TimeOf(x) < t then 1 else 0
  {
    if Placeable(x.entry) {
      MapConcat(TimeOf, queue, [x]);
      assert Map(TimeOf, [x]) == [TimeOf(x)];
      BelowAppend(Map(TimeOf, queue), [TimeOf(x)], t);
      BelowOne(TimeOf(x), t);
    } else {
      assert queue + [] == queue;
    }
  }

  ghost predicate Rising(times: seq<int>)
  {
    forall i, j :: 0 <= i < j < |times| ==> times[i] <= times[j]
  }

  /** In a sorted list, the number below a value is where that value first stands. */
  lemma {:induction false} BelowInRising(times: seq<int>, first: nat, t: int)
    requires Rising(times) && first <= |times|
    requires forall i :: 0 <= i < first ==> times[i] < t
    requires forall i :: first <= i < |times| ==> times[i] >= t
    ensures Below(times, t) == first
  {
    if times != [] {
      var n := |times| - 1;
      BelowInRising(times[..n], if first <= n then first else n, t);
    }
  }

  lemma {:induction false} PlaceableAre(entries: seq<Entry>, n: nat, x: Indexed)
    requires n <= |entries|
    ensures x in PlaceableOf(entries, n) <==> x.index < n && x.entry == entries[x.index] && Placeable(x.entry)
  {
    if n > 0 {
      PlaceableAre(entries, n - 1, x);
    }
  }

  lemma {:induction false} PlaceableOnce(entries: seq<Entry>, n: nat)
    requires n <= |entries|
    ensures NoDuplicates(PlaceableOf(entries, n))
  {
    if n > 0 {
      PlaceableOnce(entries, n - 1);
      var front := PlaceableOf(entries, n - 1);
      forall x | x in front
        ensures x.index < n - 1
      {
        PlaceableAre(entries, n - 1, x);
      }
    }
  }

  /** The placeable entries in placement order: what the loop below walks. */
  function Queue(entries: seq<Entry>): seq<Indexed>
  {
    Sort(PlaceableOf(entries, |entries|), PlacementKey)
  }

  function QueueTimes(entries: seq<Entry>): seq<int>
  {
    Map(TimeOf, Queue(entries))
  }

  lemma QueueHolds(entries: seq<Entry>)
    ensures NoDuplicates(Queue(entries))
    ensures forall x :: x in Queue(entries) <==>
              x.index < |entries| && x.entry == entries[x.index] && Placeable(x.entry)
  {
    var all := PlaceableOf(entries, |entries|);
    PlaceableOnce(entries, |entries|);
    SortPermutes(all, PlacementKey);
    PermutedNoDuplicates(all, Queue(entries));
    forall x
      ensures x in all <==> x.index < |entries| && x.entry == entries[x.index] && Placeable(x.entry)
    {
      PlaceableAre(entries, |entries|, x);
    }
  }

  lemma QueueRises(entries: seq<Entry>)
    ensures Rising(QueueTimes(entries))
  {
    var queue := Queue(entries);
    SortSorted(PlaceableOf(entries, |entries|), PlacementKey);
    forall i, j | 0 <= i < j < |queue|
      ensures TimeOf(queue[i]) <= TimeOf(queue[j])
    {
      assert Leq(PlacementKey(queue[i]), PlacementKey(queue[j]));
    }
  }

  lemma QueueCounts(entries: seq<Entry>, t: int)
    ensures Below(QueueTimes(entries), t) == Faster(entries, t)
  {
    var all := PlaceableOf(entries, |entries|);
    SortPermutes(all, PlacementKey);
    MapPermutes(TimeOf, Queue(entries), all);
    BelowPermutes(QueueTimes(entries), Map(TimeOf, all), t);
    FasterIsBelow(entries, |entries|, t);
    assert entries[..|entries|] == entries;
  }

  /** The entries once the first `n` of the queue have their places. */
  ghost predicate PlacedUpTo(now: seq<Entry>, was: seq<Entry>, n: nat)
    requires n <= |Queue(was)|
  {
    && |now| == |was|
    && forall i :: 0 <= i < |was| ==>
         now[i] == if Indexed(i, was[i]) in Queue(was)[..n] then Ranked(was, was[i]) else was[i]
  }

  lemma PlacedNext(now: seq<Entry>, was: seq<Entry>, n: nat)
    requires n < |Queue(was)| && PlacedUpTo(now, was, n)
    ensures var x := Queue(was)[n];
            && x.index < |now| && now[x.index] == x.entry && Placeable(x.entry)
            && PlacedUpTo(now[x.index := Ranked(was, x.entry)], was, n + 1)
  {
    QueueHolds(was);
    var x := Queue(was)[n];
    assert x in Queue(was);
    PrefixGrows(Queue(was), n);
    assert Indexed(x.index, was[x.index]) == x;
    var next := now[x.index := Ranked(was, x.entry)];
    forall i | 0 <= i < |was|
      ensures next[i] == if Indexed(i, was[i]) in Queue(was)[..n + 1] then Ranked(was, was[i]) else was[i]
    {
    }
  }

  lemma PlacedDone(now: seq<Entry>, was: seq<Entry>)
    requires PlacedUpTo(now, was, |Queue(was)|)
    ensures now == Placed(was)
  {
    QueueHolds(was);
    assert Queue(was)[..|Queue(was)|] == Queue(was);
  }

  /** Where the run of times equal to the last of the first `n` starts. */
  function RunStart(times: seq<int>, n: nat): nat
    requires 0 < n <= |times|
  {
    if n > 1 && times[n - 1] == times[n - 2] then RunStart(times, n - 1) else n - 1
  }

  lemma {:induction false} RunStartIsFirst(times: seq<int>, n: nat)
    requires Rising(times) && 0 < n <= |times|
    ensures RunStart(times, n) < n
    ensures forall i :: 0 <= i < RunStart(times, n) ==> times[i] < times[n - 1]
    ensures forall i :: RunStart(times, n) <= i < n ==> times[i] == times[n - 1]
  {
    if n > 1 && times[n - 1] == times[n - 2] {
      RunStartIsFirst(times, n - 1);
    }
  }

  /** The place the loop gives is one more than the number of runners strictly faster. */
  lemma RunStartCounts(entries: seq<Entry>, n: nat)
    requires n < |Queue(entries)|
    ensures var times := QueueTimes(entries); Faster(entries, times[n]) == RunStart(times, n + 1)
  {
    var times := QueueTimes(entries);
    QueueRises(entries);
    RunStartIsFirst(times, n + 1);
    BelowInRising(times, RunStart(times, n + 1), times[n]);
    QueueCounts(entries, times[n]);
  }

  /** What the loop holds once `n` of the queue have their places. */
  ghost predicate Walked(now: seq<Entry>, was: seq<Entry>, n: nat, place: int, previousTime: Option<int>)
    requires n <= |Queue(was)|
  {
    && PlacedUpTo(now, was, n)
    && (n == 0 ==> previousTime.None?)
    && (n > 0 ==> previousTime == Some(QueueTimes(was)[n - 1]) && place == ToPlace(RunStart(QueueTimes(was), n)))
  }

  /** The place of the next in the queue: a new one, unless the time is the one before. */
  function NextPlace(place: int, previousTime: Option<int>, time: Option<int>, offset: nat): int
  {
    if previousTime != time then ToPlace(offset) else place
  }

  lemma WalkNext(now: seq<Entry>, was: seq<Entry>, n: nat, place: int, previousTime: Option<int>)
    requires n < |Queue(was)| && Walked(now, was, n, place, previousTime)
    ensures var x := Queue(was)[n];
            && x.index < |now| && now[x.index] == x.entry
            && var next := NextPlace(place, previousTime, x.entry.scoringTimeMs, n);
               Walked(now[x.index := x.entry.(place := Some(next))], was, n + 1, next, x.entry.scoringTimeMs)
  {
    PlacedNext(now, was, n);
    RunStartCounts(was, n);
    var x := Queue(was)[n];
    assert QueueTimes(was)[n] == x.entry.scoringTimeMs.value;
    assert NextPlace(place, previousTime, x.entry.scoringTimeMs, n) == ToPlace(RunStart(QueueTimes(was), n + 1));
  }

  datatype Walk = Walk(entries: seq<Entry>, place: int, previousTime: Option<int>)

  /** The entries, and what the loop remembers, once the first `n` of the queue have their places. */
  function Walking(was: seq<Entry>, n: nat): (w: Walk)
    requires n <= |Queue(was)|
    ensures |w.entries| == |was|
  {
    if n == 0 then Walk(was, 0, None)
    else
      var w, x := Walking(was, n - 1), Queue(was)[n - 1];
      QueueIndexed(was, n - 1);
      var time := w.entries[x.index].scoringTimeMs;
      var place := NextPlace(w.place, w.previousTime, time, n - 1);
      Walk(w.entries[x.index := w.entries[x.index].(place := Some(place))], place, time)
  }

  lemma QueueIndexed(was: seq<Entry>, n: nat)
    requires n < |Queue(was)|
    ensures Queue(was)[n].index < |was|
  {
    QueueHolds(was);
    assert Queue(was)[n] in Queue(was);
  }

  lemma {:induction false} WalkingIsRight(was: seq<Entry>, n: nat)
    requires n <= |Queue(was)|
    ensures var w := Walking(was, n); Walked(w.entries, was, n, w.place, w.previousTime)
  {
    if n > 0 {
      WalkingIsRight(was, n - 1);
      var w := Walking(was, n - 1);
      WalkNext(w.entries, was, n - 1, w.place, w.previousTime);
    }
  }

  /** Walked to its end, the queue has placed everybody. */
  lemma WalkedAll(was: seq<Entry>)
    ensures Walking(was, |Queue(was)|).entries == Placed(was)
  {
    WalkingIsRight(was, |Queue(was)|);
    PlacedDone(Walking(was, |Queue(was)|).entries, was);
  }

  method AssignPlaces(entries: array<Entry>)
    modifies entries
    ensures entries[..] == Placed(old(entries[..]))
  {
    ghost var was := entries[..];
    var queue := Sort(PlaceableOf(entries[..], entries.Length), PlacementKey);
    var place := 0;
    var previousTime: Option<int> := None;
    for offset := 0 to |queue|
      invariant Walk(entries[..], place, previousTime) == Walking(was, offset)
    {
      QueueIndexed(was, offset);
      ghost var before := entries[..];
      var index := queue[offset].index;
      var time := entries[index].scoringTimeMs;
      if previousTime != time {
        place := if offset < U32_MAX then offset + 1 else U32_MAX;
        previousTime := time;
      }
      entries[index] := entries[index].(place := Some(place));
      assert entries[..] == before[index := before[index].(place := Some(place))];
    }
    WalkedAll(was);
  }

  // ----- Publication order -----

  function StatusRank(s: ResultStatus): int
  {
    match s
    case Finished => 0
    case Dns => 1
    case Dnf => 2
    case Dq => 3
  }

  /** Placed entries first, in place order; then by status, bib and participant. */
  function PublicationKey(e: Entry): Key
  {
    (if e.place.Some? then [0, e.place.value] else [1, 0])
    + [StatusRank(e.status)] + BibKey(e.bib, [e.participant])
  }

  method SortForPublication(entries: array<Entry>)
    modifies entries
    ensures entries[..] == Sort(old(entries[..]), PublicationKey)
  {
    var sorted := Sort(entries[..], PublicationKey);
    SortPermutes(entries[..], PublicationKey);
    forall i | 0 <= i < entries.Length {
      entries[i] := sorted[i];
    }
    assert entries[..] == sorted;
  }

  /** What is published: everyone ranked, in publication order. */
  function Published(entries: seq<Entry>): seq<Entry>
  {
    Sort(Placed(entries), PublicationKey)
  }

  lemma PublicationKeyParts(a: Entry, b: Entry)
    requires PublicationKey(a) == PublicationKey(b)
    ensures a.place == b.place && a.status == b.status && a.bib == b.bib && a.participant == b.participant
  {
    var x, y := PublicationKey(a), PublicationKey(b);
    assert x[0] == y[0] && x[1] == y[1];
    assert x[2] == StatusRank(a.status) && y[2] == StatusRank(b.status);
    assert x[3..] == BibKey(a.bib, [a.participant]) && y[3..] == BibKey(b.bib, [b.participant]);
    BibKeyInjective(a.bib, [a.participant], b.bib, [b.participant]);
    assert [a.participant][0] == [b.participant][0];
  }

  // ----- Laws of placement -----

  ghost function FasterSet(entries: seq<Entry>, timeMs: int): set<nat>
  {
    set i: nat | i < |entries| && Placeable(entries[i]) && entries[i].scoringTimeMs.value < timeMs
  }

  /** The count behind a place is the number of runners strictly faster. */
  lemma {:induction false} FasterCountsRunners(entries: seq<Entry>, timeMs: int)
    ensures Faster(entries, timeMs) == |FasterSet(entries, timeMs)|
  {
    if entries == [] {
      assert FasterSet(entries, timeMs) == {};
    } else {
      var n := |entries| - 1;
      FasterCountsRunners(entries[..n], timeMs);
      var before := FasterSet(entries[..n], timeMs);
      assert FasterSet(entries, timeMs)
          == before + if Placeable(entries[n]) && entries[n].scoringTimeMs.value < timeMs then {n} else {};
    }
  }

  /** What one entry adds to the count of runners faster than `t`. */
  function Ahead(e: Entry, t: int): nat
  {
    if Placeable(e) && e.scoringTimeMs.value < t then 1 else 0
  }

  lemma {:induction false} FasterAppend(a: seq<Entry>, b: seq<Entry>, t: int)
    ensures Faster(a + b, t) == Faster(a, t) + Faster(b, t)
  {
    if b == [] {
      assert a + b == a;
    } else {
      assert (a + b)[..|a + b| - 1] == a + b[..|b| - 1];
      FasterAppend(a, b[..|b| - 1], t);
    }
  }

  lemma FasterExtract(s: seq<Entry>, j: int, t: int)
    requires 0 <= j < |s|
    ensures Faster(s, t) == Ahead(s[j], t) + Faster(s[..j] + s[j + 1..], t)
  {
    assert s == s[..j] + ([s[j]] + s[j + 1..]);
    assert [s[j]][..0] == [];
    FasterAppend(s[..j], [s[j]] + s[j + 1..], t);
    FasterAppend([s[j]], s[j + 1..], t);
    FasterAppend(s[..j], s[j + 1..], t);
  }

  lemma FasterUncons(s: seq<Entry>, t: int)
    requires s != []
    ensures Faster(s, t) == Ahead(s[0], t) + Faster(s[1..], t)
  {
    FasterExtract(s, 0, t);
    assert s[..0] + s[1..] == s[1..];
  }

  lemma {:induction false} FasterPermutes(a: seq<Entry>, b: seq<Entry>, t: int)
    requires multiset(a) == multiset(b)
    ensures Faster(a, t) == Faster(b, t)
    decreases |a|
  {
    SameLength(a, b);
    if a != [] {
      var j := TakeOut(a, b);
      FasterPermutes(a[1..], b[..j] + b[j + 1..], t);
      FasterUncons(a, t);
      FasterExtract(b, j, t);
    }
  }

  lemma FasterUpdate(s: seq<Entry>, k: int, e: Entry, t: int)
    requires 0 <= k < |s|
    ensures Faster(s[k := e], t) == Faster(s, t) - Ahead(s[k], t) + Ahead(e, t)
  {
    FasterExtract(s, k, t);
    FasterExtract(s[k := e], k, t);
    assert s[k := e][..k] + s[k := e][k + 1..] == s[..k] + s[k + 1..];
  }

  lemma PlacedPermutes(a: seq<Entry>, b: seq<Entry>)
    requires multiset(a) == multiset(b)
    ensures multiset(Placed(a)) == multiset(Placed(b))
  {
    var rank := (e: Entry) => Ranked(a, e);
    forall e: Entry
      ensures Ranked(a, e) == Ranked(b, e)
    {
      if Placeable(e) {
        FasterPermutes(a, b, e.scoringTimeMs.value);
      }
    }
    assert Map(rank, a) == Placed(a) && Map(rank, b) == Placed(b);
    MapPermutes(rank, a, b);
  }

  lemma {:induction false} FasterMonotone(entries: seq<Entry>, s: int, t: int)
    requires s <= t
    ensures Faster(entries, s) <= Faster(entries, t) <= |entries|
  {
    if entries != [] {
      FasterMonotone(entries[..|entries| - 1], s, t);
    }
  }

  lemma {:induction false} FasterStrict(entries: seq<Entry>, e: Entry, t: int)
    requires e in entries && Placeable(e) && e.scoringTimeMs.value < t
    ensures Faster(entries, e.scoringTimeMs.value) < Faster(entries, t)
    ensures Faster(entries, e.scoringTimeMs.value) < |entries|
  {
    var front, last := entries[..|entries| - 1], entries[|entries| - 1];
    FasterMonotone(front, e.scoringTimeMs.value, t);
    if e in front {
      FasterStrict(front, e, t);
    }
  }

  lemma {:induction false} FasterBelowAll(entries: seq<Entry>, e: Entry)
    requires e in entries && Placeable(e)
    ensures Faster(entries, e.scoringTimeMs.value) < |entries|
  {
    var front, last := entries[..|entries| - 1], entries[|entries| - 1];
    FasterMonotone(front, e.scoringTimeMs.value, e.scoringTimeMs.value);
    if e in front {
      FasterBelowAll(front, e);
    }
  }

  /** Places order runners exactly as their times do: ties share a place, faster is ahead. */
  lemma PlacesFollowTimes(entries: seq<Entry>, a: Entry, b: Entry)
    requires a in entries && b in entries && Placeable(a) && Placeable(b)
    requires |entries| <= U32_MAX
    ensures Ranked(entries, a).place.value < Ranked(entries, b).place.value
            <==> a.scoringTimeMs.value < b.scoringTimeMs.value
  {
    FasterBelowAll(entries, a);
    FasterBelowAll(entries, b);
    if a.scoringTimeMs.value < b.scoringTimeMs.value {
      FasterStrict(entries, a, b.scoringTimeMs.value);
    } else {
      FasterMonotone(entries, b.scoringTimeMs.value, a.scoringTimeMs.value);
    }
  }

  ghost predicate Unplaced(entries: seq<Entry>)
  {
    forall e :: e in entries ==> e.place.None?
  }

  /** The published list holds everyone once, placed runners first and in time order. */
  lemma PublishedInOrder(entries: seq<Entry>)
    requires Unplaced(entries)
    ensures multiset(Published(entries)) == multiset(Placed(entries))
    ensures forall e :: e in Published(entries) ==> (e.place.Some? <==> Placeable(e))
    ensures |entries| <= U32_MAX ==>
              forall i, j :: 0 <= i < j < |Published(entries)| ==> InOrder(Published(entries)[i], Published(entries)[j])
  {
    SortPermutes(Placed(entries), PublicationKey);
    forall e | e in Published(entries)
      ensures e.place.Some? <==> Placeable(e)
    {
      var was := RankedFrom(entries, e);
    }
    if |entries| <= U32_MAX {
      forall i, j | 0 <= i < j < |Published(entries)|
        ensures InOrder(Published(entries)[i], Published(entries)[j])
      {
        PublishedPair(entries, i, j);
      }
    }
  }

  /** Nobody without a place stands before somebody with one, and nobody slower before the faster. */
  ghost predicate InOrder(a: Entry, b: Entry)
  {
    b.place.Some? ==> Placeable(b) && Placeable(a) && a.place.Some? && a.scoringTimeMs.value <= b.scoringTimeMs.value
  }

  lemma PublishedPair(entries: seq<Entry>, i: nat, j: nat)
    requires Unplaced(entries) && |entries| <= U32_MAX
    requires i < j < |Published(entries)|
    ensures InOrder(Published(entries)[i], Published(entries)[j])
  {
    var list := Published(entries);
    SortSorted(Placed(entries), PublicationKey);
    var a := RankedFrom(entries, list[i]);
    var b := RankedFrom(entries, list[j]);
    assert Leq(PublicationKey(list[i]), PublicationKey(list[j]));
    if list[j].place.Some? {
      PublicationKeyLeads(list[i], list[j]);
      PlacesFollowTimes(entries, b, a);
    }
  }

  lemma RankedFrom(entries: seq<Entry>, r: Entry) returns (e: Entry)
    requires Unplaced(entries) && r in Published(entries)
    ensures e in entries && r == Ranked(entries, e)
    ensures Placeable(r) == Placeable(e) == r.place.Some?
  {
    SortPermutes(Placed(entries), PublicationKey);
    assert r in Placed(entries);
    var i :| 0 <= i < |entries| && Placed(entries)[i] == r;
    e := entries[i];
  }

  lemma PublicationKeyLeads(a: Entry, b: Entry)
    requires Leq(PublicationKey(a), PublicationKey(b)) && b.place.Some?
    ensures a.place.Some? && a.place.value <= b.place.value
  {
    var x, y := PublicationKey(a), PublicationKey(b);
    assert x[0] <= y[0];
    assert x[0] == y[0] ==> x[1..][0] <= y[1..][0];
  }
}
