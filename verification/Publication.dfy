/** Publishing: a revision is written once, and only when it says something new or is told to. */
module Publication {
  import opened Ordering
  import opened Domain
  import opened Text
  import opened Naming
  import opened Results
  import opened Placement
  import opened Scoring
  import opened ResultLaws
  import opened Revisions
  import opened RevisionLaws

  function NameOf(entries: seq<Entry>): string
  {
    "result-digest" + Joined([DigestText(entries)])
  }

  /** The 32 hexadecimal digits a revision is known by. */
  function Digest(v5: string -> Uuid, entries: seq<Entry>): string
  {
    Hex(v5(NameOf(entries)), 32)
  }

  method ComputeDigest(v5: string -> Uuid, entries: seq<Entry>) returns (digest: string)
    ensures digest == Digest(v5, entries)
  {
    var rows := DigestName(entries);
    var name := DerivedName("result-digest", [rows]);
    return Hex(v5(name), 32);
  }

  datatype Outcome = Written(changed: bool) | Unexplained | Unchanged

  /** Every revision nobody forced differs from the one before it. */
  ghost predicate NewsOnly(revisions: seq<seq<Entry>>, forced: set<nat>)
  {
    NeighboursDiffer(Map(DigestText, revisions), forced)
  }

  predicate NeighboursDiffer(texts: seq<string>, forced: set<nat>)
  {
    forall i :: 0 < i < |texts| && i !in forced ==> texts[i - 1] != texts[i]
  }

  lemma DifferGrows(texts: seq<string>, forced: set<nat>, text: string)
    requires NeighboursDiffer(texts, forced)
    ensures NeighboursDiffer(texts + [text], forced + {|texts|})
    ensures texts == [] || texts[|texts| - 1] != text ==> NeighboursDiffer(texts + [text], forced)
  {
  }

  /** Whether publishing would call a sheet changed. */
  predicate IsNews(v5: string -> Uuid, revisions: seq<seq<Entry>>, entries: seq<Entry>)
  {
    revisions == [] || Digest(v5, revisions[|revisions| - 1]) != Digest(v5, entries)
  }

  lemma NewsGrows(v5: string -> Uuid, revisions: seq<seq<Entry>>, forced: set<nat>, entries: seq<Entry>)
    requires NewsOnly(revisions, forced)
    ensures NewsOnly(revisions + [entries], forced + {|revisions|})
    ensures IsNews(v5, revisions, entries) ==> NewsOnly(revisions + [entries], forced)
  {
    MapConcat(DigestText, revisions, [entries]);
    assert Map(DigestText, [entries]) == [DigestText(entries)];
    DifferGrows(Map(DigestText, revisions), forced, DigestText(entries));
  }

  class ResultStore {
    var revisions: seq<seq<Entry>>
    /** The revisions published although they might say nothing new. */
    ghost var forced: set<nat>

    constructor ()
      ensures revisions == [] && forced == {}
    {
      revisions, forced := [], {};
    }

    method Publish(v5: string -> Uuid, entries: seq<Entry>, explained: bool, allowUnchanged: bool)
      returns (outcome: Outcome)
      requires NewsOnly(revisions, forced)
      modifies this
      ensures NewsOnly(revisions, forced)
      ensures outcome.Unexplained? <==> !explained
      ensures outcome.Unchanged? <==> explained && !allowUnchanged && !IsNews(v5, old(revisions), entries)
      ensures outcome.Written? ==> (outcome.changed <==> IsNews(v5, old(revisions), entries))
      ensures revisions == old(revisions) + if outcome.Written? then [entries] else []
      ensures forced == old(forced) + if outcome.Written? && allowUnchanged then {|old(revisions)|} else {}
    {
      if !explained {
        return Unexplained;
      }
      var digest := ComputeDigest(v5, entries);
      var changed := true;
      if revisions != [] {
        var earlier := ComputeDigest(v5, revisions[|revisions| - 1]);
        changed := earlier != digest;
      }
      assert changed == IsNews(v5, revisions, entries);
      NewsGrows(v5, revisions, forced, entries);
      if !changed && !allowUnchanged {
        return Unchanged;
      }
      if allowUnchanged {
        forced := forced + {|revisions|};
      }
      revisions := revisions + [entries];
      return Written(changed);
    }
  }

  // ----- The test for "unchanged" and the difference agree -----

  /** UUIDv5 tells these two names apart, if they differ. */
  ghost predicate ToldApart(v5: string -> Uuid, a: seq<Entry>, b: seq<Entry>)
  {
    v5(NameOf(a)) == v5(NameOf(b)) ==> NameOf(a) == NameOf(b)
  }

  lemma DigestsCompareTexts(v5: string -> Uuid, a: seq<Entry>, b: seq<Entry>)
    requires ToldApart(v5, a, b)
    ensures Digest(v5, a) == Digest(v5, b) <==> DigestText(a) == DigestText(b)
  {
    if Digest(v5, a) == Digest(v5, b) {
      Pow16Of32();
      HexInjective(v5(NameOf(a)), v5(NameOf(b)), 32);
      OnePartInjective("result-digest", DigestText(a), DigestText(b));
    }
  }

  lemma OnePartInjective(kind: string, x: string, y: string)
    requires kind + Joined([x]) == kind + Joined([y])
    ensures x == y
  {
    JoinedSnoc([], x);
    Regroup(kind, Joined([]), [UNIT_SEPARATOR] + x);
    JoinedSnoc([], y);
    Regroup(kind, Joined([]), [UNIT_SEPARATOR] + y);
    assert [] + [x] == [x] && [] + [y] == [y];
    ConcatInjective(kind + Joined([]), [UNIT_SEPARATOR] + x, kind + Joined([]), [UNIT_SEPARATOR] + y);
    ConcatInjective([UNIT_SEPARATOR], x, [UNIT_SEPARATOR], y);
  }

  // ----- Scored sheets -----

  function RosterRunner(p: Participant): Uuid { p.id }

  function RosterBib(p: Participant): string { p.bib }

  function RosterWho(p: Participant): (Uuid, string) { (p.id, p.bib) }

  ghost predicate RosterBibs(participants: seq<Participant>)
  {
    NoDuplicates(Map(RosterBib, participants))
  }

  /** One bib spells a row that scoring could give another, and goes on. */
  ghost predicate Continues(long: string, short: string)
  {
    exists status, timeMs, place :: Scorable(status, timeMs, place) && short + Ending(status, timeMs, place) <= long
  }

  /** No bib on the roster spells a row of another's. */
  ghost predicate Tellable(participants: seq<Participant>)
  {
    forall p, q :: p in participants && q in participants ==> !Continues(p.bib, q.bib)
  }

  /** So it is where no bib holds both separators. */
  lemma OneSeparatorIsTellable(participants: seq<Participant>)
    requires forall p :: p in participants ==> UNIT_SEPARATOR !in p.bib || RECORD_SEPARATOR !in p.bib
    ensures Tellable(participants)
  {
    forall p, q | p in participants && q in participants
      ensures !Continues(p.bib, q.bib)
    {
      OneSeparatorIsPlain(p.bib);
      forall status, timeMs, place
        ensures !(q.bib + Ending(status, timeMs, place) <= p.bib)
      {
        SpelledOut(q.bib, Ending(status, timeMs, place), p.bib);
      }
    }
  }

  lemma SpelledOut(u: string, e: string, long: string)
    ensures u + e <= long ==> long == u + (e + long[|u| + |e|..])
  {
  }

  lemma SheetLabels(race: Race, start: Option<Uuid>, finish: Uuid)
    ensures var placed := Placed(Sheet(race, start, finish));
            && Map(Runner, placed) == Map(RosterRunner, race.participants)
            && Map(Bib, placed) == Map(RosterBib, race.participants)
            && Map(Who, placed) == Map(RosterWho, race.participants)
  {
  }

  lemma ElementsPermute<T>(a: seq<T>, b: seq<T>)
    requires multiset(a) == multiset(b)
    ensures Elements(a) == Elements(b)
  {
    SameMultiset(a, b);
  }

  /** What scoring publishes has one line for each of the roster, in publication order. */
  lemma ScoredSheets(race: Race, list: seq<Entry>)
    requires ScoreOf(race) == Scores(list) && RosterNumbers(race.participants) && RosterBibs(race.participants)
    ensures Sorted(list, PublicationKey) && OnePerRunner(list) && DistinctBibs(list)
    ensures Elements(Map(Who, list)) == Elements(Map(RosterWho, race.participants))
  {
    var course := CourseOf(race.checkpoints, race.mode);
    var placed := Placed(Sheet(race, course.start, course.finish));
    SheetLabels(race, course.start, course.finish);
    SortPermutes(placed, PublicationKey);
    SortSorted(placed, PublicationKey);
    MapPermutes(Runner, placed, list);
    MapPermutes(Bib, placed, list);
    MapPermutes(Who, placed, list);
    PermutedNoDuplicates(Map(Runner, placed), Map(Runner, list));
    PermutedNoDuplicates(Map(Bib, placed), Map(Bib, list));
    ElementsPermute(Map(Who, placed), Map(Who, list));
  }

  lemma ScoredBibIsGiven(race: Race, list: seq<Entry>, e: Entry) returns (p: Participant)
    requires Elements(Map(Who, list)) == Elements(Map(RosterWho, race.participants)) && e in list
    ensures p in race.participants && p.bib == e.bib
  {
    var i :| 0 <= i < |list| && list[i] == e;
    assert Map(Who, list)[i] == Who(e);
    assert Who(e) in Elements(Map(RosterWho, race.participants));
    var k :| 0 <= k < |race.participants| && Map(RosterWho, race.participants)[k] == Who(e);
    p := race.participants[k];
  }

  lemma RowIsNoStart(a: Race, b: Race, earlier: seq<Entry>, later: seq<Entry>, e: Entry, f: Entry)
    requires ScoreOf(a) == Scores(earlier) && e in earlier && f in later
    requires Elements(Map(Who, earlier)) == Elements(Map(RosterWho, a.participants))
    requires Elements(Map(Who, later)) == Elements(Map(RosterWho, b.participants))
    requires Tellable(a.participants) && multiset(a.participants) == multiset(b.participants)
    ensures !(Row(e) <= f.bib)
  {
    var p := ScoredBibIsGiven(a, earlier, e);
    var q := ScoredBibIsGiven(b, later, f);
    SameMultiset(a.participants, b.participants);
    PublishedIsScorable(a, earlier, e);
    assert !Continues(q.bib, p.bib);
  }

  /** Sheets scored of such a roster are told apart by their texts. */
  lemma TellableSheets(a: Race, b: Race, earlier: seq<Entry>, later: seq<Entry>)
    requires ScoreOf(a) == Scores(earlier) && ScoreOf(b) == Scores(later)
    requires Elements(Map(Who, earlier)) == Elements(Map(RosterWho, a.participants))
    requires Elements(Map(Who, later)) == Elements(Map(RosterWho, b.participants))
    requires Tellable(a.participants) && multiset(a.participants) == multiset(b.participants)
    ensures Apart(earlier, later)
  {
    SameMultiset(a.participants, b.participants);
    forall i | 0 <= i < |earlier| && i < |later|
      ensures !(Row(earlier[i]) <= later[i].bib) && !(Row(later[i]) <= earlier[i].bib)
    {
      assert earlier[i] in earlier && later[i] in later;
      RowIsNoStart(a, b, earlier, later, earlier[i], later[i]);
      RowIsNoStart(b, a, later, earlier, later[i], earlier[i]);
    }
  }

  /** Score one roster twice, whatever evidence, declarations, gun or start mode changed between: the
      difference lists no change exactly when publishing calls the second sheet unchanged and no bib
      begins with the row in its place in the other sheet. So the two agree exactly where the latter
      holds of sheets with one digest, and for every pair of sheets of a tellable roster. */
  lemma PublishAgreesWithDiff(v5: string -> Uuid, a: Race, b: Race, earlier: seq<Entry>, later: seq<Entry>)
    requires multiset(a.participants) == multiset(b.participants)
    requires RosterNumbers(a.participants) && RosterNumbers(b.participants)
    requires RosterBibs(a.participants) && RosterBibs(b.participants)
    requires ScoreOf(a) == Scores(earlier) && ScoreOf(b) == Scores(later) && ToldApart(v5, earlier, later)
    ensures NothingChanged(earlier, later) <==> Digest(v5, earlier) == Digest(v5, later) && Apart(earlier, later)
    ensures Tellable(a.participants) ==> (Digest(v5, earlier) == Digest(v5, later) <==> NothingChanged(earlier, later))
  {
    ScoredSheets(a, earlier);
    ScoredSheets(b, later);
    MapPermutes(RosterWho, a.participants, b.participants);
    ElementsPermute(Map(RosterWho, a.participants), Map(RosterWho, b.participants));
    DigestsCompareTexts(v5, earlier, later);
    FingerprintAgreesWithDiff(earlier, later);
    if Tellable(a.participants) {
      TellableSheets(a, b, earlier, later);
    }
  }

  /** So two revisions published one after the other, unforced and of one roster, always have a
      difference to show, whatever their bibs. */
  lemma UnforcedRevisionsDiffer(revisions: seq<seq<Entry>>, forced: set<nat>, i: nat)
    requires NewsOnly(revisions, forced) && 0 < i < |revisions| && i !in forced
    requires OneRoster(revisions[i - 1], revisions[i]) && OnePerRunner(revisions[i - 1]) && OnePerRunner(revisions[i])
    requires Sorted(revisions[i - 1], PublicationKey) && Sorted(revisions[i], PublicationKey)
    ensures ChangesOf(Pairs(revisions[i - 1], revisions[i])) != []
  {
    assert Map(DigestText, revisions)[i - 1] != Map(DigestText, revisions)[i];
    if NothingChanged(revisions[i - 1], revisions[i]) {
      NothingChangedSameRows(revisions[i - 1], revisions[i]);
      DigestReadsBack(revisions[i - 1], revisions[i]);
    }
  }

  // ----- What the agreement rests on -----

  /** A line that shows only what a fingerprint covers. */
  function Line(participant: Uuid, bib: string, status: ResultStatus, timeMs: Option<int>, place: Option<int>): Entry
  {
    Entry(participant, bib, "", status, FromCrossings, None, None, None, None, None, timeMs, place, [], [])
  }

  function Absent(participant: Uuid, bib: string): Entry
  {
    Line(participant, bib, Dns, None, None)
  }

  lemma OneRow(x: Entry)
    ensures DigestText([x]) == Row(x)
  {
    DigestUncons([x]);
  }

  lemma TwoRows(x: Entry, y: Entry)
    ensures DigestText([x, y]) == Row(x) + Row(y)
  {
    DigestUncons([x, y]);
    DigestUncons([y]);
    assert [x, y][1..] == [y] && [y][1..] == [];
  }

  lemma ThreeRows(x: Entry, y: Entry, z: Entry)
    ensures DigestText([x, y, z]) == Row(x) + (Row(y) + Row(z))
  {
    DigestUncons([x, y, z]);
    assert [x, y, z][1..] == [y, z];
    TwoRows(y, z);
  }

  /** Two runners, the second's bib spelling the first's row and then their bib: exchanging the
      results leaves the text as it was. */
  lemma SwapCollides(a: Entry, b: Entry, c: Entry, d: Entry)
    requires Who(a) == Who(d) && Who(b) == Who(c) && a.participant != b.participant
    requires b.bib == a.bib + (EndingOf(a) + a.bib)
    requires SameResult(a, c) && SameResult(b, d) && a.status != b.status
    ensures Collide([a, b], [c, d])
  {
    TwoRows(a, b);
    TwoRows(c, d);
    SwapWords(a.bib, EndingOf(a), EndingOf(b));
    assert |b.bib| > |a.bib|;
    TwoLines(a, b, c, d);
  }

  lemma SwapWords(u: string, e: string, d: string)
    ensures (u + e) + ((u + (e + u)) + d) == ((u + (e + u)) + e) + (u + d)
  {
  }

  /** Sheets of one roster that have one text, and whose difference is not empty. */
  ghost predicate Collide(earlier: seq<Entry>, later: seq<Entry>)
  {
    && DigestText(earlier) == DigestText(later) && !NothingChanged(earlier, later)
    && OneRoster(earlier, later) && OnePerRunner(earlier) && OnePerRunner(later) && DistinctBibs(earlier)
  }

  lemma TwoLines(a: Entry, b: Entry, c: Entry, d: Entry)
    requires Who(a) == Who(d) && Who(b) == Who(c) && a.participant != b.participant && a.bib != b.bib
    requires a.status != d.status
    ensures !NothingChanged([a, b], [c, d]) && OneRoster([a, b], [c, d])
    ensures OnePerRunner([a, b]) && OnePerRunner([c, d]) && DistinctBibs([a, b])
  {
    EntryOfIsTheLine([a, b], 0);
    assert [a, b][0] == a && [c, d][1] == d;
    DisagreesSomewhere([a, b], [c, d], 1);
    assert Map(Who, [a, b]) == [Who(a), Who(b)] && Map(Who, [c, d]) == [Who(b), Who(a)];
    assert Elements(Map(Who, [a, b])) == {Who(a), Who(b)} == Elements(Map(Who, [c, d]));
  }

  lemma ThreeLines(a: Entry, b: Entry, c: Entry, x: Entry, y: Entry, z: Entry)
    requires Who(a) == Who(y) && Who(b) == Who(z) && Who(c) == Who(x)
    requires a.participant != b.participant && a.participant != c.participant && b.participant != c.participant
    requires a.bib != b.bib && a.bib != c.bib && b.bib != c.bib
    requires b.status != z.status
    ensures !NothingChanged([a, b, c], [x, y, z]) && OneRoster([a, b, c], [x, y, z])
    ensures OnePerRunner([a, b, c]) && OnePerRunner([x, y, z]) && DistinctBibs([a, b, c])
  {
    var earlier, later := [a, b, c], [x, y, z];
    ThreeDistinct(a, b, c);
    ThreeDistinct(x, y, z);
    WhoAmongThree(a, b, c);
    WhoAmongThree(x, y, z);
    assert earlier[1] == b;
    EntryOfIsTheLine(earlier, 1);
    DisagreesSomewhere(earlier, later, 2);
  }

  lemma ThreeDistinct(a: Entry, b: Entry, c: Entry)
    requires a.participant != b.participant && a.participant != c.participant && b.participant != c.participant
    requires a.bib != b.bib && a.bib != c.bib && b.bib != c.bib
    ensures OnePerRunner([a, b, c]) && DistinctBibs([a, b, c])
  {
  }

  lemma WhoAmongThree(a: Entry, b: Entry, c: Entry)
    ensures Elements(Map(Who, [a, b, c])) == {Who(a), Who(b), Who(c)}
  {
    assert Map(Who, [a, b, c]) == [Who(a), Who(b), Who(c)];
  }

  lemma DisagreesSomewhere(earlier: seq<Entry>, later: seq<Entry>, k: nat)
    requires k < |later| && !Agree(earlier, later[k])
    ensures !NothingChanged(earlier, later)
  {
    NothingChangedMeans(earlier, later);
  }

  /** Three runners, the third's bib spelling the first's row and then the second's bib. */
  lemma ShiftCollides(u: string, v: string, long: string, status: ResultStatus, timeMs: Option<int>, place: Option<int>)
    requires long == u + (Ending(status, timeMs, place) + v) && u != v
    ensures var earlier := [Line(1, u, status, timeMs, place), Absent(2, v), Line(3, long, Dnf, None, None)];
            var later := [Absent(3, long), Line(1, u, status, timeMs, place), Line(2, v, Dnf, None, None)];
            Collide(earlier, later)
  {
    var a, b, c := Line(1, u, status, timeMs, place), Absent(2, v), Line(3, long, Dnf, None, None);
    var x, y, z := Absent(3, long), Line(1, u, status, timeMs, place), Line(2, v, Dnf, None, None);
    ThreeRows(a, b, c);
    ThreeRows(x, y, z);
    ShiftWords(u, v, Ending(status, timeMs, place), Ending(Dns, None, None), Ending(Dnf, None, None));
    assert |long| > |u| && |long| > |v|;
    ThreeLines(a, b, c, x, y, z);
  }

  lemma ShiftWords(u: string, v: string, e: string, d: string, f: string)
    ensures (u + e) + ((v + d) + ((u + (e + v)) + f)) == ((u + (e + v)) + d) + ((u + e) + (v + f))
  {
  }

  /** Of lists in no particular order, with any endings at all, every bib that spells one is on some
      roster with two of one text: nothing about single bibs short of this tells all lists apart. */
  lemma RowEndingsCollide(bib: string) returns (earlier: seq<Entry>, later: seq<Entry>)
    requires !Plain(bib)
    ensures Collide(earlier, later) && exists e :: e in earlier && e.bib == bib
  {
    var u, v, status, timeMs, place :| bib == u + (Ending(status, timeMs, place) + v);
    if u == v {
      var other := if status.Dns? then Dnf else Dns;
      earlier := [Line(1, u, status, timeMs, place), Line(2, bib, other, None, None)];
      later := [Line(2, bib, status, timeMs, place), Line(1, u, other, None, None)];
      SwapCollides(earlier[0], earlier[1], later[0], later[1]);
      assert earlier[1] in earlier;
    } else {
      ShiftCollides(u, v, bib, status, timeMs, place);
      earlier := [Line(1, u, status, timeMs, place), Absent(2, v), Line(3, bib, Dnf, None, None)];
      later := [Absent(3, bib), Line(1, u, status, timeMs, place), Line(2, v, Dnf, None, None)];
      assert earlier[2] in earlier;
    }
  }

  /** A corrected bib is news to publishing and no change to the difference. */
  lemma BibCorrectionIsNoDifference(runner: Uuid, was: string, now: string)
    requires was != now
    ensures var earlier, later := [Absent(runner, was)], [Absent(runner, now)];
            NothingChanged(earlier, later) && DigestText(earlier) != DigestText(later)
  {
    var earlier, later := [Absent(runner, was)], [Absent(runner, now)];
    NothingChangedMeans(earlier, later);
    OneRow(earlier[0]);
    OneRow(later[0]);
    var ending := Ending(Dns, None, None);
    if was + ending == now + ending {
      TailsAgree(was, ending, now, ending);
    }
  }

  /** One runner entered in place of another under the same bib is a difference, and publishing
      calls the sheets identical. */
  lemma ReplacedRunnerIsNoNews(before: Uuid, after: Uuid, bib: string)
    requires before != after
    ensures var earlier, later := [Absent(before, bib)], [Absent(after, bib)];
            !NothingChanged(earlier, later) && DigestText(earlier) == DigestText(later)
  {
    var earlier, later := [Absent(before, bib)], [Absent(after, bib)];
    HeldIsListed(earlier, after);
    assert Map(Runner, earlier) == [before];
    assert later[0] in later && !Agree(earlier, later[0]);
    NothingChangedMeans(earlier, later);
    OneRow(earlier[0]);
    OneRow(later[0]);
  }

  // ----- Two races that show it -----

  /** A race from the gun at zero that one of two runners finishes, and the other never starts. */
  function TwoRunnerRace(short: string, long: string, winner: Uuid, ms: nat): Race
    requires ms * NANOS_PER_MS <= TIME_LIMIT
  {
    Race([Participant(1, short, ""), Participant(2, long, "")],
         [CourseCheckpoint(3, "", FinishLine, 0)],
         [TimingEvent(4, winner, 3, ms * NANOS_PER_MS, 1, FromCrossing(5))],
         [], FromGun, Some(0))
  }

  lemma OneCrossing(e: TimingEvent, post: Post, gun: Option<Time>)
    ensures CrossingsOf([e], post, gun) == if PostOf(e) == post then With(NO_CROSSINGS, e, gun) else NO_CROSSINGS
  {
    assert [e][..0] == [];
  }

  lemma OneStarted(e: TimingEvent, participant: Uuid, start: Option<Uuid>, gun: Option<Time>)
    ensures Started([e], participant, start, gun) <==> e.participant == participant && ProvesStart(e, start, gun)
  {
    assert [e][0] in [e];
  }

  lemma CourseIsLines(short: string, long: string, winner: Uuid, ms: nat)
    requires ms * NANOS_PER_MS <= TIME_LIMIT
    ensures CourseOf(TwoRunnerRace(short, long, winner, ms).checkpoints, FromGun) == Lines(None, 3)
  {
    var c := CourseCheckpoint(3, "", FinishLine, 0);
    assert [c][..0] == [];
    assert OfKind([c], FinishLine) == [c] && OfKind([c], StartLine) == [];
    assert Sort([c], CourseKey) == [c] by {
      SortedStays([c], CourseKey);
    }
  }

  /** What the two lines come to. */
  lemma TwoRunnerLine(short: string, long: string, winner: Uuid, ms: nat, p: Participant)
    requires ms * NANOS_PER_MS <= TIME_LIMIT
    ensures var e := LineOf(TwoRunnerRace(short, long, winner, ms), None, 3, p);
            && Who(e) == (p.id, p.bib) && e.place.None?
            && e.status == (if p.id == winner then Finished else Dns)
            && e.scoringTimeMs == (if p.id == winner then Some(ms) else None)
  {
    var race := TwoRunnerRace(short, long, winner, ms);
    var e := race.events[0];
    OneCrossing(e, (p.id, 3), Some(0));
    OneStarted(e, p.id, None, Some(0));
    assert WholeMs(ms * NANOS_PER_MS) == ms;
    WholeMsMonotone(ms * NANOS_PER_MS, 2 * TIME_LIMIT);
  }

  /** The sheet: the winner in first place, and then the other. */
  lemma TwoRunnerSheet(short: string, long: string, winner: Uuid, ms: nat) returns (first: Entry, second: Entry)
    requires ms * NANOS_PER_MS <= TIME_LIMIT && 1 <= winner <= 2
    ensures ScoreOf(TwoRunnerRace(short, long, winner, ms)) == Scores([first, second])
    ensures Who(first) == (winner, if winner == 1 then short else long)
    ensures Who(second) == (3 - winner, if winner == 1 then long else short)
    ensures first.status == Finished && first.scoringTimeMs == Some(ms) && first.place == Some(1)
    ensures second.status == Dns && second.scoringTimeMs == None && second.place == None
  {
    var race := TwoRunnerRace(short, long, winner, ms);
    var p, q := race.participants[0], race.participants[1];
    CourseIsLines(short, long, winner, ms);
    TwoRunnerLine(short, long, winner, ms, p);
    TwoRunnerLine(short, long, winner, ms, q);
    var x, y := LineOf(race, None, 3, p), LineOf(race, None, 3, q);
    assert Sheet(race, None, 3) == [x, y];
    first, second := PlacedPair(x, y, winner == 1);
  }

  lemma PlacedPair(x: Entry, y: Entry, inOrder: bool) returns (first: Entry, second: Entry)
    requires var w, l := if inOrder then x else y, if inOrder then y else x;
             Placeable(w) && !Placeable(l) && w.place.None? && l.place.None?
    ensures var w, l := if inOrder then x else y, if inOrder then y else x;
            first == w.(place := Some(1)) && second == l
    ensures Published([x, y]) == [first, second]
  {
    var w, l := if inOrder then x else y, if inOrder then y else x;
    first, second := w.(place := Some(1)), l;
    FasterUncons([x, y], w.scoringTimeMs.value);
    FasterUncons([y], w.scoringTimeMs.value);
    assert [x, y][1..] == [y] && [y][1..] == [];
    assert Faster([x, y], w.scoringTimeMs.value) == 0;
    assert Placed([x, y]) == if inOrder then [first, second] else [second, first];
    PlacedFirst(first, second);
  }

  lemma PlacedFirst(x: Entry, y: Entry)
    requires x.place.Some? && y.place.None?
    ensures Sort([x, y], PublicationKey) == Sort([y, x], PublicationKey) == [x, y]
  {
    assert PublicationKey(x)[0] == 0 && PublicationKey(y)[0] == 1;
    assert Sorted([x, y], PublicationKey);
    SortedStays([x, y], PublicationKey);
    assert [y, x][1..] == [x] && [x][1..] == [];
    SortedStays([x], PublicationKey);
  }

  /** Two races of one roster that different runners won, by the same time: where one bib spells the
      other's winning row, the published sheets have one text, and publishing the second is refused
      as unchanged while the difference lists both runners. */
  lemma SeparatorsInABibHideASwap(v5: string -> Uuid, short: string, ms: nat)
    returns (earlier: seq<Entry>, later: seq<Entry>)
    requires ms * NANOS_PER_MS <= TIME_LIMIT
    ensures var long := short + (Ending(Finished, Some(ms), Some(1)) + short);
            && ScoreOf(TwoRunnerRace(short, long, 1, ms)) == Scores(earlier)
            && ScoreOf(TwoRunnerRace(short, long, 2, ms)) == Scores(later)
    ensures Collide(earlier, later) && Digest(v5, earlier) == Digest(v5, later)
  {
    var long := short + (Ending(Finished, Some(ms), Some(1)) + short);
    var a, b := TwoRunnerSheet(short, long, 1, ms);
    var c, d := TwoRunnerSheet(short, long, 2, ms);
    SwapCollides(a, b, c, d);
    earlier, later := [a, b], [c, d];
  }
}
