/** What course can be scored, what place a runner gets, and how a sheet is read. */
module SheetLaws {
  import opened Ordering
  import opened Domain
  import opened Text
  import opened Results
  import opened Placement
  import opened Scoring
  import opened ResultLaws
  import opened MeasureLaws

  // ----- The course -----

  ghost function Kind(checkpoints: seq<CourseCheckpoint>, kind: CheckpointKind): set<nat>
  {
    set i: nat | i < |checkpoints| && checkpoints[i].kind == kind
  }

  lemma {:induction false} OfKindCounts(checkpoints: seq<CourseCheckpoint>, kind: CheckpointKind)
    ensures |OfKind(checkpoints, kind)| == |Kind(checkpoints, kind)|
  {
    if checkpoints == [] {
      assert Kind(checkpoints, kind) == {};
    } else {
      var n := |checkpoints| - 1;
      OfKindCounts(checkpoints[..n], kind);
      KindGrows(checkpoints, kind);
    }
  }

  lemma KindGrows(checkpoints: seq<CourseCheckpoint>, kind: CheckpointKind)
    requires checkpoints != []
    ensures var n := |checkpoints| - 1;
            |Kind(checkpoints, kind)| == |Kind(checkpoints[..n], kind)| + if checkpoints[n].kind == kind then 1 else 0
  {
    var n := |checkpoints| - 1;
    assert Kind(checkpoints, kind) == Kind(checkpoints[..n], kind) + if checkpoints[n].kind == kind then {n} else {};
  }

  lemma {:induction false} OfKindHolds(checkpoints: seq<CourseCheckpoint>, kind: CheckpointKind, c: CourseCheckpoint)
    ensures c in OfKind(checkpoints, kind) <==> c in checkpoints && c.kind == kind
  {
    if checkpoints != [] {
      OfKindHolds(checkpoints[..|checkpoints| - 1], kind, c);
    }
  }

  lemma SoleMeans(checkpoints: seq<CourseCheckpoint>, kind: CheckpointKind)
    ensures var sole, k := SoleCheckpoint(checkpoints, kind), Kind(checkpoints, kind);
            && (sole.Nothing? <==> |k| == 0) && (sole.Only? <==> |k| == 1) && (sole.Several? <==> |k| >= 2)
            && (sole.Only? ==> forall i :: i in k ==> checkpoints[i].id == sole.id)
            && (sole.Several? ==> sole.count == |k| && Listed(checkpoints, kind, sole.names))
  {
    OfKindCounts(checkpoints, kind);
    SortedOfKind(checkpoints, kind);
    var matching := Sort(OfKind(checkpoints, kind), CourseKey);
    NamesJoin(matching);
    forall i | i in Kind(checkpoints, kind)
      ensures checkpoints[i] in matching
    {
      assert checkpoints[i] in checkpoints;
    }
  }

  lemma SortedOfKind(checkpoints: seq<CourseCheckpoint>, kind: CheckpointKind)
    ensures InCourseOrder(checkpoints, kind, Sort(OfKind(checkpoints, kind), CourseKey))
  {
    var given := OfKind(checkpoints, kind);
    var matching := Sort(given, CourseKey);
    OfKindCounts(checkpoints, kind);
    SortPermutes(given, CourseKey);
    SortSorted(given, CourseKey);
    forall c
      ensures c in matching <==> c in checkpoints && c.kind == kind
    {
      OfKindHolds(checkpoints, kind, c);
    }
    forall i, j | 0 <= i < j < |matching|
      ensures matching[i].sequence <= matching[j].sequence
    {
      assert Leq(CourseKey(matching[i]), CourseKey(matching[j]));
    }
  }

  ghost predicate InCourseOrder(checkpoints: seq<CourseCheckpoint>, kind: CheckpointKind, list: seq<CourseCheckpoint>)
  {
    && |list| == |Kind(checkpoints, kind)| && (forall c :: c in list <==> c in checkpoints && c.kind == kind)
    && forall i, j :: 0 <= i < j < |list| ==> list[i].sequence <= list[j].sequence
  }

  /** The names of all of a kind, in course order. */
  ghost predicate Listed(checkpoints: seq<CourseCheckpoint>, kind: CheckpointKind, names: string)
  {
    exists list :: InCourseOrder(checkpoints, kind, list) && names == Joining(list)
  }

  /** The first name, and each of the others behind a comma. */
  function Joining(list: seq<CourseCheckpoint>): string
  {
    if list == [] then "" else list[0].name + Behind(list[1..])
  }

  function Behind(list: seq<CourseCheckpoint>): string
  {
    if list == [] then "" else ", " + list[0].name + Behind(list[1..])
  }

  lemma {:induction false} BehindSnoc(list: seq<CourseCheckpoint>, c: CourseCheckpoint)
    ensures Behind(list + [c]) == Behind(list) + ", " + c.name
  {
    if list != [] {
      assert (list + [c])[1..] == list[1..] + [c];
      BehindSnoc(list[1..], c);
    } else {
      assert [c][1..] == [];
    }
  }

  lemma {:induction false} NamesJoin(list: seq<CourseCheckpoint>)
    ensures Names(list) == Joining(list)
  {
    if |list| > 1 {
      var front, last := list[..|list| - 1], list[|list| - 1];
      NamesJoin(front);
      assert list[1..] == front[1..] + [last];
      BehindSnoc(front[1..], last);
    }
  }

  /** A course is scored by its one finish line and its one start line, if it has one, which chip
      timing needs; and otherwise refused for the first of these it lacks. */
  lemma CourseIsItsLines(checkpoints: seq<CourseCheckpoint>, mode: StartMode)
    ensures var course := CourseOf(checkpoints, mode);
            var finishes, starts := Kind(checkpoints, FinishLine), Kind(checkpoints, StartLine);
            && (course.Lines? <==> |finishes| == 1 && |starts| <= 1 && (mode.FromChip? ==> |starts| == 1))
            && (course.Lines? ==>
                  && (forall i :: i in finishes ==> course.finish == checkpoints[i].id)
                  && (forall i :: i in starts ==> course.start == Some(checkpoints[i].id))
                  && (starts == {} ==> course.start == None))
            && (course.Unscorable? ==>
                  if |finishes| >= 2 then
                    course.error.MultipleFinishCheckpoints? && course.error.count == |finishes|
                    && Listed(checkpoints, FinishLine, course.error.names)
                  else if |finishes| == 0 then course.error == NoFinishCheckpoint
                  else if |starts| >= 2 then
                    course.error.MultipleStartCheckpoints? && course.error.count == |starts|
                    && Listed(checkpoints, StartLine, course.error.names)
                  else course.error == ChipTimeWithoutStartCheckpoint && mode.FromChip? && |starts| == 0)
  {
    SoleMeans(checkpoints, FinishLine);
    SoleMeans(checkpoints, StartLine);
  }

  // ----- Places -----

  /** In what any race is scored to, a place is one more than the number of runners on the sheet with a
      place and a strictly smaller time. */
  lemma PlacesCountTheFaster(race: Race, list: seq<Entry>, e: Entry)
    requires ScoreOf(race) == Scores(list) && e in list && |list| <= U32_MAX
    requires e.status == Finished && e.scoringTimeMs.Some?
    ensures e.place == Some(|FasterSet(list, e.scoringTimeMs.value)| + 1)
  {
    var course := CourseOf(race.checkpoints, race.mode);
    var lines := Sheet(race, course.start, course.finish);
    SortPermutes(Placed(lines), PublicationKey);
    FasterOnTheSheet(lines, e.scoringTimeMs.value);
    FasterCountsRunners(list, e.scoringTimeMs.value);
    PlacedByCount(lines, e);
  }

  lemma PlacedByCount(lines: seq<Entry>, e: Entry)
    requires e in Placed(lines) && e.status == Finished && e.scoringTimeMs.Some? && |lines| <= U32_MAX
    ensures e.place == Some(Faster(lines, e.scoringTimeMs.value) + 1)
  {
    var x := WhoWasRanked(lines, e);
    RankedByCount(lines, x);
  }

  lemma WhoWasRanked(lines: seq<Entry>, e: Entry) returns (x: Entry)
    requires e in Placed(lines)
    ensures x in lines && e == Ranked(lines, x) && e == x.(place := e.place)
  {
    var i :| 0 <= i < |lines| && Placed(lines)[i] == e;
    x := lines[i];
    RankedKeeps(lines, x);
  }

  lemma RankedByCount(lines: seq<Entry>, x: Entry)
    requires x in lines && Placeable(x) && |lines| <= U32_MAX
    ensures Ranked(lines, x).place == Some(Faster(lines, x.scoringTimeMs.value) + 1)
  {
    FasterBelowAll(lines, x);
  }

  lemma FasterOnTheSheet(lines: seq<Entry>, timeMs: int)
    ensures Faster(Published(lines), timeMs) == Faster(lines, timeMs)
  {
    SortPermutes(Placed(lines), PublicationKey);
    FasterPermutes(Published(lines), Placed(lines), timeMs);
    forall i | 0 <= i < |lines|
      ensures (Placeable(Placed(lines)[i]) <==> Placeable(lines[i]))
      ensures Placed(lines)[i].scoringTimeMs == lines[i].scoringTimeMs
    {
      RankedKeeps(lines, lines[i]);
    }
    SameFaster(Placed(lines), lines, timeMs);
  }

  // ----- The order of a sheet -----

  /** The number a bib spells: digits, with a plus or not, that fit 64 bits. */
  ghost predicate Spells(bib: string, n: nat)
  {
    exists digits :: digits != "" && AllDigits(digits) && (bib == digits || bib == "+" + digits)
                     && Value(digits) == n <= U64_MAX
  }

  ghost predicate Numeric(bib: string)
  {
    exists n :: Spells(bib, n)
  }

  lemma ParseMeans(bib: string)
    ensures ParseU64(bib).Some? ==> Spells(bib, ParseU64(bib).value)
    ensures forall n: nat :: Spells(bib, n) ==> ParseU64(bib) == Some(n)
  {
    var digits := if |bib| > 1 && bib[0] == '+' then bib[1..] else bib;
    assert bib == digits || bib == "+" + digits;
    forall n: nat | Spells(bib, n)
      ensures ParseU64(bib) == Some(n)
    {
      var d :| d != "" && AllDigits(d) && (bib == d || bib == "+" + d) && Value(d) == n <= U64_MAX;
      assert IsDigit(d[0]);
      assert bib == "+" + d ==> bib[1..] == d;
    }
  }

  /** Numbers come before all other bibs and in the order of their values, and the rest as text. */
  ghost predicate BibBefore(a: string, b: string)
  {
    if Numeric(a) && Numeric(b) then
      exists m, n :: Spells(a, m) && Spells(b, n) && (m < n || (m == n && a != b && Leq(Codes(a), Codes(b))))
    else Numeric(a) || (!Numeric(b) && a != b && Leq(Codes(a), Codes(b)))
  }

  lemma {:induction false} TextKeysInOrder(a: string, x: Key, b: string, y: Key)
    ensures Leq(TextKey(a, x), TextKey(b, y)) <==> if a == b then Leq(x, y) else Leq(Codes(a), Codes(b))
  {
    if a == "" || b == "" {
      NoTextFirst(a, x, b, y);
    } else {
      TextKeysInOrder(a[1..], x, b[1..], y);
      TextKeysStep(a, x, b, y);
    }
  }

  lemma NoTextFirst(a: string, x: Key, b: string, y: Key)
    requires a == "" || b == ""
    ensures Leq(TextKey(a, x), TextKey(b, y)) <==> if a == b then Leq(x, y) else Leq(Codes(a), Codes(b))
  {
    AheadOfText(a, x);
    AheadOfText(b, y);
    if a == b {
      OneAhead(-1, x, -1, y);
    }
    assert Codes("") == [];
  }

  lemma TextKeysStep(a: string, x: Key, b: string, y: Key)
    requires a != "" && b != ""
    ensures a[0] != b[0] ==> (Leq(TextKey(a, x), TextKey(b, y)) <==> a[0] < b[0])
                             && (Leq(Codes(a), Codes(b)) <==> a[0] < b[0])
    ensures a[0] == b[0] ==> (Leq(TextKey(a, x), TextKey(b, y)) <==> Leq(TextKey(a[1..], x), TextKey(b[1..], y)))
                             && (Leq(Codes(a), Codes(b)) <==> Leq(Codes(a[1..]), Codes(b[1..])))
                             && (a == b <==> a[1..] == b[1..])
  {
    TextKeyUncons(a, x);
    TextKeyUncons(b, y);
    OneAhead(a[0] as int, TextKey(a[1..], x), b[0] as int, TextKey(b[1..], y));
    OneAhead(a[0] as int, Codes(a[1..]), b[0] as int, Codes(b[1..]));
    assert a == [a[0]] + a[1..] && b == [b[0]] + b[1..];
  }

  lemma AheadOfText(a: string, x: Key)
    ensures if a == "" then TextKey(a, x) == [-1] + x else TextKey(a, x)[0] >= 0
  {
    assert a == "" ==> Codes(a) == [];
  }

  lemma TextKeyUncons(a: string, x: Key)
    requires a != ""
    ensures TextKey(a, x) == [a[0] as int] + TextKey(a[1..], x) && Codes(a) == [a[0] as int] + Codes(a[1..])
  {
    assert Codes(a) == [a[0] as int] + Codes(a[1..]);
  }

  lemma OneAhead(p: int, k: Key, q: int, l: Key)
    ensures Leq([p] + k, [q] + l) <==> p < q || (p == q && Leq(k, l))
  {
    assert ([p] + k)[1..] == k && ([q] + l)[1..] == l;
  }

  lemma BibKeysInOrder(a: string, x: Key, b: string, y: Key)
    requires Leq(BibKey(a, x), BibKey(b, y))
    ensures if a == b then Leq(x, y) else BibBefore(a, b)
  {
    var m, n := ParseU64(a), ParseU64(b);
    ParseMeans(a);
    ParseMeans(b);
    TwoAhead(if m.Some? then 0 else 1, if m.Some? then m.value else 0, TextKey(a, x),
             if n.Some? then 0 else 1, if n.Some? then n.value else 0, TextKey(b, y));
    if m == n {
      TextKeysInOrder(a, x, b, y);
    }
    if m.Some? && n.Some? && a != b {
      assert Spells(a, m.value) && Spells(b, n.value);
    }
  }

  lemma TwoAhead(p: int, q: int, k: Key, r: int, s: int, l: Key)
    ensures Leq([p, q] + k, [r, s] + l) <==> p < r || (p == r && (q < s || (q == s && Leq(k, l))))
  {
    assert [p, q] + k == [p] + ([q] + k) && [r, s] + l == [r] + ([s] + l);
    OneAhead(p, [q] + k, r, [s] + l);
    OneAhead(q, k, s, l);
  }

  /** Finishers, then those who did not start, those who did not finish, and the disqualified. */
  predicate StatusBefore(a: ResultStatus, b: ResultStatus)
  {
    match a
    case Finished => !b.Finished?
    case Dns => b.Dnf? || b.Dq?
    case Dnf => b.Dq?
    case Dq => false
  }

  /** Placed runners first, by place; then by status, by bib and by participant. */
  ghost predicate ReadsBefore(a: Entry, b: Entry)
  {
    if a.place != b.place then a.place.Some? && (b.place.Some? ==> a.place.value < b.place.value)
    else if a.status != b.status then StatusBefore(a.status, b.status)
    else if a.bib != b.bib then BibBefore(a.bib, b.bib)
    else a.participant <= b.participant
  }

  lemma ThreeAhead(p: int, q: int, r: int, k: Key, s: int, t: int, u: int, l: Key)
    ensures Leq([p, q] + ([r] + k), [s, t] + ([u] + l))
            <==> p < s || (p == s && (q < t || (q == t && (r < u || (r == u && Leq(k, l))))))
  {
    TwoAhead(p, q, [r] + k, s, t, [u] + l);
    OneAhead(r, k, u, l);
  }

  function TheirKey(e: Entry): Key
  {
    BibKey(e.bib, [e.participant])
  }

  function Lead(e: Entry): int
  {
    if e.place.Some? then 0 else 1
  }

  function LeadPlace(e: Entry): int
  {
    if e.place.Some? then e.place.value else 0
  }

  lemma PublicationKeyIs(e: Entry)
    ensures PublicationKey(e) == [Lead(e), LeadPlace(e)] + ([StatusRank(e.status)] + TheirKey(e))
  {
  }

  lemma TheirKeysInOrder(a: Entry, b: Entry)
    requires Leq(TheirKey(a), TheirKey(b))
    ensures if a.bib != b.bib then BibBefore(a.bib, b.bib) else a.participant <= b.participant
  {
    BibKeysInOrder(a.bib, [a.participant], b.bib, [b.participant]);
    assert Leq([a.participant], [b.participant]) ==> a.participant <= b.participant;
  }

  lemma PublicationKeysInOrder(a: Entry, b: Entry)
    requires Leq(PublicationKey(a), PublicationKey(b))
    ensures ReadsBefore(a, b)
  {
    PublicationKeyIs(a);
    PublicationKeyIs(b);
    ThreeAhead(Lead(a), LeadPlace(a), StatusRank(a.status), TheirKey(a),
               Lead(b), LeadPlace(b), StatusRank(b.status), TheirKey(b));
    if a.place == b.place && a.status == b.status {
      TheirKeysInOrder(a, b);
    }
  }

  /** So is every published list read, from its first line to its last. */
  lemma SheetsReadInOrder(race: Race, list: seq<Entry>, i: nat, j: nat)
    requires ScoreOf(race) == Scores(list) && i < j < |list|
    ensures ReadsBefore(list[i], list[j])
  {
    var course := CourseOf(race.checkpoints, race.mode);
    SortSorted(Placed(Sheet(race, course.start, course.finish)), PublicationKey);
    PublicationKeysInOrder(list[i], list[j]);
  }
}
