/** What scoring promises about every race. */
module ResultLaws {
  import opened Ordering
  import opened Domain
  import opened Results
  import opened Placement
  import opened Scoring

  // ----- Order decides nothing -----

  ghost predicate RosterNumbers(participants: seq<Participant>)
  {
    forall i, j :: 0 <= i < j < |participants| ==> participants[i].id != participants[j].id
  }

  ghost predicate DeclarationNumbers(declarations: seq<Declaration>)
  {
    forall x, y :: x in declarations && y in declarations && x.seqNo == y.seqNo ==> x == y
  }

  lemma LatestOrderBlind(a: seq<Declaration>, b: seq<Declaration>, participant: Uuid)
    requires multiset(a) == multiset(b) && DeclarationNumbers(a)
    ensures Latest(a, participant) == Latest(b, participant)
  {
    SameMultiset(a, b);
    LatestIsNewest(a, participant);
    LatestIsNewest(b, participant);
    var x, y := Latest(a, participant), Latest(b, participant);
    if x.Some? && y.Some? {
      assert x.value in b && y.value in a;
      assert x.value.seqNo <= y.value.seqNo && y.value.seqNo <= x.value.seqNo;
    }
  }

  lemma LineOrderBlind(a: Race, b: Race, start: Option<Uuid>, finish: Uuid, p: Participant)
    requires b == a.(participants := b.participants, events := b.events, declarations := b.declarations)
    requires multiset(a.events) == multiset(b.events) && multiset(a.declarations) == multiset(b.declarations)
    requires EventNumbers(a.events) && DeclarationNumbers(a.declarations)
    ensures LineOf(a, start, finish, p) == LineOf(b, start, finish, p)
  {
    SameMultiset(a.events, b.events);
    if start.Some? {
      CrossingsOrderBlind(a.events, b.events, (p.id, start.value), a.gun);
    }
    CrossingsOrderBlind(a.events, b.events, (p.id, finish), a.gun);
    LatestOrderBlind(a.declarations, b.declarations, p.id);
  }

  lemma SheetPermutes(a: Race, b: Race, start: Option<Uuid>, finish: Uuid)
    requires b == a.(participants := b.participants, events := b.events, declarations := b.declarations)
    requires multiset(a.participants) == multiset(b.participants)
    requires multiset(a.events) == multiset(b.events) && multiset(a.declarations) == multiset(b.declarations)
    requires EventNumbers(a.events) && DeclarationNumbers(a.declarations)
    ensures multiset(Sheet(a, start, finish)) == multiset(Sheet(b, start, finish))
  {
    var line := (p: Participant) => LineOf(a, start, finish, p);
    forall p
      ensures LineOf(a, start, finish, p) == LineOf(b, start, finish, p)
    {
      LineOrderBlind(a, b, start, finish, p);
    }
    assert Map(line, a.participants) == Sheet(a, start, finish);
    assert Map(line, b.participants) == Sheet(b, start, finish);
    MapPermutes(line, a.participants, b.participants);
  }

  lemma SheetKeysDistinct(race: Race, start: Option<Uuid>, finish: Uuid)
    requires RosterNumbers(race.participants)
    ensures KeyInjective(Placed(Sheet(race, start, finish)), PublicationKey)
  {
    var placed := Placed(Sheet(race, start, finish));
    forall x, y | x in placed && y in placed && PublicationKey(x) == PublicationKey(y)
      ensures x == y
    {
      PublicationKeyParts(x, y);
      OneLineEach(race, start, finish, x, y);
    }
  }

  lemma PlacedFor(race: Race, start: Option<Uuid>, finish: Uuid, x: Entry) returns (i: nat)
    requires x in Placed(Sheet(race, start, finish))
    ensures i < |race.participants| && Placed(Sheet(race, start, finish))[i] == x
    ensures x.participant == race.participants[i].id
  {
    var lines := Sheet(race, start, finish);
    i :| 0 <= i < |lines| && Placed(lines)[i] == x;
    RankedKeeps(lines, lines[i]);
  }

  lemma OneLineEach(race: Race, start: Option<Uuid>, finish: Uuid, x: Entry, y: Entry)
    requires RosterNumbers(race.participants)
    requires x in Placed(Sheet(race, start, finish)) && y in Placed(Sheet(race, start, finish))
    requires x.participant == y.participant
    ensures x == y
  {
    var i := PlacedFor(race, start, finish, x);
    var j := PlacedFor(race, start, finish, y);
  }

  /** Permuting the roster, the timing events and the declarations leaves the published list
      equal entry for entry, or the refusal equal. */
  lemma ScoringIsOrderBlind(a: Race, b: Race)
    requires b == a.(participants := b.participants, events := b.events, declarations := b.declarations)
    requires multiset(a.participants) == multiset(b.participants)
    requires multiset(a.events) == multiset(b.events) && multiset(a.declarations) == multiset(b.declarations)
    requires RosterNumbers(a.participants) && EventNumbers(a.events) && DeclarationNumbers(a.declarations)
    ensures ScoreOf(a) == ScoreOf(b)
  {
    var course := CourseOf(a.checkpoints, a.mode);
    if course.Lines? {
      var x, y := Sheet(a, course.start, course.finish), Sheet(b, course.start, course.finish);
      SheetPermutes(a, b, course.start, course.finish);
      PlacedPermutes(x, y);
      SheetKeysDistinct(a, course.start, course.finish);
      SortOrderBlind(Placed(x), Placed(y), PublicationKey);
    }
  }

  // ----- Disqualifying and reinstating -----

  /** A declaration newer than everything recorded. */
  ghost predicate Newest(d: Declaration, declarations: seq<Declaration>)
  {
    forall x :: x in declarations ==> x.seqNo < d.seqNo
  }

  lemma NewestIsInForce(declarations: seq<Declaration>, d: Declaration, participant: Uuid)
    requires Newest(d, declarations)
    ensures Latest(declarations + [d], participant)
            == if d.participant == participant then Some(d) else Latest(declarations, participant)
  {
    assert (declarations + [d])[..|declarations|] == declarations;
    LatestIsNewest(declarations, participant);
  }

  /** A line with its status declared and everything measured kept. */
  function Declaring(e: Entry, d: Declaration): Entry
  {
    e.(status := d.status, statusSource := Declared, statusReason := Some(d.reason))
  }

  lemma DeclaredLine(race: Race, start: Option<Uuid>, finish: Uuid, p: Participant, d: Declaration)
    requires Newest(d, race.declarations)
    requires LineOf(race, start, finish, p).finishAt.Some?
    ensures LineOf(race.(declarations := race.declarations + [d]), start, finish, p)
            == if d.participant == p.id then Declaring(LineOf(race, start, finish, p), d)
               else LineOf(race, start, finish, p)
  {
    NewestIsInForce(race.declarations, d, p.id);
  }

  lemma OtherLine(race: Race, start: Option<Uuid>, finish: Uuid, p: Participant, d: Declaration)
    requires Newest(d, race.declarations) && d.participant != p.id
    ensures LineOf(race.(declarations := race.declarations + [d]), start, finish, p) == LineOf(race, start, finish, p)
  {
    NewestIsInForce(race.declarations, d, p.id);
  }

  lemma DeclaredSheet(race: Race, start: Option<Uuid>, finish: Uuid, k: nat, d: Declaration)
    requires RosterNumbers(race.participants) && k < |race.participants|
    requires d.participant == race.participants[k].id && Newest(d, race.declarations)
    requires Sheet(race, start, finish)[k].finishAt.Some?
    ensures Sheet(race.(declarations := race.declarations + [d]), start, finish)
            == Sheet(race, start, finish)[k := Declaring(Sheet(race, start, finish)[k], d)]
  {
    var after := race.(declarations := race.declarations + [d]);
    var lines := Sheet(race, start, finish);
    forall i | 0 <= i < |race.participants|
      ensures Sheet(after, start, finish)[i] == lines[k := Declaring(lines[k], d)][i]
    {
      if i == k {
        DeclaredLine(race, start, finish, race.participants[k], d);
      } else {
        assert race.participants[i].id != race.participants[k].id;
        OtherLine(race, start, finish, race.participants[i], d);
      }
    }
  }

  lemma FinishBehindAPlace(race: Race, start: Option<Uuid>, finish: Uuid, k: nat)
    requires k < |race.participants| && Placeable(Sheet(race, start, finish)[k])
    ensures Sheet(race, start, finish)[k].finishAt.Some?
  {
  }

  /** Disqualifying a placed runner keeps what was measured of them and takes their place away,
      moves everyone strictly slower up by exactly one, and changes nobody else. */
  lemma DisqualifyingMovesOthersUp(race: Race, start: Option<Uuid>, finish: Uuid, k: nat, d: Declaration, i: nat)
    requires RosterNumbers(race.participants) && k < |race.participants| && i < |race.participants|
    requires |race.participants| <= U32_MAX
    requires d.participant == race.participants[k].id && d.status == Dq && Newest(d, race.declarations)
    requires Placeable(Sheet(race, start, finish)[k])
    ensures var before, after := Placed(Sheet(race, start, finish)),
                                 Placed(Sheet(race.(declarations := race.declarations + [d]), start, finish));
            if i == k then
              after[i] == Declaring(Sheet(race, start, finish)[k], d) && after[i].place.None?
            else if Placeable(before[i]) && before[i].scoringTimeMs.value > before[k].scoringTimeMs.value then
              before[i].place.Some? && after[i] == before[i].(place := Some(before[i].place.value - 1))
            else after[i] == before[i]
  {
    var lines := Sheet(race, start, finish);
    FinishBehindAPlace(race, start, finish, k);
    DeclaredSheet(race, start, finish, k, d);
    LineIsUnplaced(race, start, finish, race.participants[k]);
    OneRunnerOut(lines, k, Declaring(lines[k], d), i);
  }

  lemma OneRunnerOut(lines: seq<Entry>, k: nat, out: Entry, i: nat)
    requires k < |lines| && i < |lines| <= U32_MAX
    requires Placeable(lines[k]) && !Placeable(out) && out.place.None?
    ensures var before, after := Placed(lines), Placed(lines[k := out]);
            if i == k then after[i] == out && after[i].place.None?
            else if Placeable(before[i]) && before[i].scoringTimeMs.value > before[k].scoringTimeMs.value then
              before[i].place.Some? && after[i] == before[i].(place := Some(before[i].place.value - 1))
            else after[i] == before[i]
  {
    if i != k {
      LosingOneRunner(lines, k, out, i);
    }
  }

  lemma LosingOneRunner(lines: seq<Entry>, k: nat, out: Entry, i: nat)
    requires k < |lines| && i < |lines| <= U32_MAX && i != k
    requires Placeable(lines[k]) && !Placeable(out)
    ensures var e, before, after := lines[i], Ranked(lines, lines[i]), Ranked(lines[k := out], lines[i]);
            if Placeable(e) && e.scoringTimeMs.value > lines[k].scoringTimeMs.value then
              before.place.Some? && after == before.(place := Some(before.place.value - 1))
            else after == before
  {
    if Placeable(lines[i]) {
      FasterUpdate(lines, k, out, lines[i].scoringTimeMs.value);
      FasterBelowAll(lines, lines[i]);
    }
  }

  /** Declaring the runner finished again, with a newer sequence, restores every place. */
  lemma ReinstatingRestoresPlaces(race: Race, start: Option<Uuid>, finish: Uuid, k: nat,
                                  dq: Declaration, back: Declaration, i: nat)
    requires RosterNumbers(race.participants) && k < |race.participants| && i < |race.participants|
    requires dq.participant == back.participant == race.participants[k].id
    requires dq.status == Dq && back.status == Finished
    requires Newest(dq, race.declarations) && Newest(back, race.declarations + [dq])
    requires Placeable(Sheet(race, start, finish)[k])
    ensures var again := race.(declarations := race.declarations + [dq] + [back]);
            Placed(Sheet(again, start, finish))[i].place == Placed(Sheet(race, start, finish))[i].place
  {
    var out := race.(declarations := race.declarations + [dq]);
    var lines := Sheet(race, start, finish);
    FinishBehindAPlace(race, start, finish, k);
    DeclaredSheet(race, start, finish, k, dq);
    DeclaredSheet(out, start, finish, k, back);
    var once := Declaring(lines[k], dq);
    assert Sheet(out, start, finish)[k] == once;
    assert lines[k := once][k := Declaring(once, back)] == lines[k := Declaring(once, back)];
    KeepingARunner(lines, k, Declaring(once, back), i);
  }

  lemma KeepingARunner(lines: seq<Entry>, k: nat, back: Entry, i: nat)
    requires k < |lines| && i < |lines| && Placeable(lines[k]) && Placeable(back)
    requires back.scoringTimeMs == lines[k].scoringTimeMs && back.place == lines[k].place
    ensures Ranked(lines[k := back], lines[k := back][i]).place == Ranked(lines, lines[i]).place
  {
    if Placeable(lines[i]) {
      FasterUpdate(lines, k, back, lines[i].scoringTimeMs.value);
    }
  }

  // ----- Times make sense -----

  lemma ElapsedIsExact(from: Time, to: Time)
    ensures ElapsedMs(from, to) == WholeMs(to - from)
  {
    WholeMsMonotone(to - from, 2 * TIME_LIMIT);
    WholeMsMonotone(-2 * TIME_LIMIT, to - from);
  }

  /** No start is before the gun, so with a gun a chip time never exceeds the gun time. A time
      that is published for placement is never negative. */
  lemma TimesAreSane(race: Race, start: Option<Uuid>, finish: Uuid, p: Participant)
    ensures var e := LineOf(race, start, finish, p);
            && (e.scoringTimeMs.Some? ==> e.scoringTimeMs.value >= 0 && e.finishAt.Some?)
            && (race.gun.Some? && e.startAt.Some? ==> e.startAt.value >= race.gun.value)
            && (race.gun.Some? && e.finishAt.Some? ==> e.finishAt.value >= race.gun.value && e.gunTimeMs.Some?)
            && (race.gun.Some? && e.chipTimeMs.Some? ==>
                  e.gunTimeMs.Some? && e.chipTimeMs.value <= e.gunTimeMs.value && 0 <= e.gunTimeMs.value)
  {
    var e := LineOf(race, start, finish, p);
    CrossingsMean(race.events, (p.id, finish), race.gun);
    if start.Some? {
      CrossingsMean(race.events, (p.id, start.value), race.gun);
    }
    if race.gun.Some? && e.chipTimeMs.Some? {
      var s: int, f: int, g: int := e.startAt.value, e.finishAt.value, race.gun.value;
      ElapsedIsExact(s, f);
      ElapsedIsExact(g, f);
      WholeMsMonotone(f - s, f - g);
    }
  }

  /** What a published line can show: a time is not negative, a place is a finisher's with a time,
      and nobody is behind another at no time at all. */
  predicate Scorable(status: ResultStatus, timeMs: Option<int>, place: Option<int>)
  {
    && (place.Some? <==> status.Finished? && timeMs.Some?)
    && (timeMs.Some? ==> timeMs.value >= 0)
    && (place.Some? ==> 1 <= place.value <= U32_MAX && (place.value > 1 ==> timeMs.value > 0))
  }

  lemma {:induction false} NobodyBeatsZero(entries: seq<Entry>)
    requires forall e :: e in entries && Placeable(e) ==> e.scoringTimeMs.value >= 0
    ensures Faster(entries, 0) == 0
  {
    if entries != [] {
      NobodyBeatsZero(entries[..|entries| - 1]);
      assert entries[|entries| - 1] in entries;
    }
  }

  lemma PublishedIsScorable(race: Race, list: seq<Entry>, e: Entry)
    requires ScoreOf(race) == Scores(list) && e in list
    ensures Scorable(e.status, e.scoringTimeMs, e.place)
  {
    var course := CourseOf(race.checkpoints, race.mode);
    var lines := Sheet(race, course.start, course.finish);
    SortPermutes(Placed(lines), PublicationKey);
    var i :| 0 <= i < |lines| && Placed(lines)[i] == e;
    forall x | x in lines
      ensures x.place.None? && (x.scoringTimeMs.Some? ==> x.scoringTimeMs.value >= 0)
    {
      var k :| 0 <= k < |lines| && lines[k] == x;
      LineIsUnplaced(race, course.start, course.finish, race.participants[k]);
    }
    RankedIsScorable(lines, lines[i]);
  }

  lemma LineIsUnplaced(race: Race, start: Option<Uuid>, finish: Uuid, p: Participant)
    ensures var x := LineOf(race, start, finish, p);
            x.place.None? && (x.scoringTimeMs.Some? ==> x.scoringTimeMs.value >= 0)
  {
    TimesAreSane(race, start, finish, p);
  }

  lemma RankedIsScorable(lines: seq<Entry>, x: Entry)
    requires x in lines
    requires forall y :: y in lines ==> y.place.None? && (y.scoringTimeMs.Some? ==> y.scoringTimeMs.value >= 0)
    ensures var e := Ranked(lines, x); Scorable(e.status, e.scoringTimeMs, e.place)
  {
    NobodyBeatsZero(lines);
  }

  /** Ranking puts a place in, and leaves the rest of the line alone. */
  lemma RankedKeeps(lines: seq<Entry>, line: Entry)
    ensures Ranked(lines, line) == line.(place := Ranked(lines, line).place)
  {
  }

  /** What scoring publishes: a place on exactly the placeable, those first and in time order. */
  lemma ScoredInOrder(race: Race, list: seq<Entry>)
    requires ScoreOf(race) == Scores(list)
    ensures |list| == |race.participants|
    ensures forall e :: e in list ==> (e.place.Some? <==> Placeable(e))
    ensures |race.participants| <= U32_MAX ==> forall i, j :: 0 <= i < j < |list| ==> InOrder(list[i], list[j])
  {
    var course := CourseOf(race.checkpoints, race.mode);
    var lines := Sheet(race, course.start, course.finish);
    forall e | e in lines
      ensures e.place.None?
    {
      var k :| 0 <= k < |lines| && lines[k] == e;
      LineIsUnplaced(race, course.start, course.finish, race.participants[k]);
    }
    PublishedInOrder(lines);
    SameLength(list, Placed(lines));
  }

  /** Whatever is published is some participant's line with a place put in. */
  lemma PublishedLine(race: Race, list: seq<Entry>, e: Entry) returns (p: Participant)
    requires ScoreOf(race) == Scores(list) && e in list
    ensures CourseOf(race.checkpoints, race.mode).Lines? && p in race.participants
    ensures var course := CourseOf(race.checkpoints, race.mode);
            e == LineOf(race, course.start, course.finish, p).(place := e.place)
  {
    var course := CourseOf(race.checkpoints, race.mode);
    var placed := Placed(Sheet(race, course.start, course.finish));
    SortPermutes(placed, PublicationKey);
    var i :| 0 <= i < |placed| && placed[i] == e;
    p := race.participants[i];
    RankedKeeps(Sheet(race, course.start, course.finish), LineOf(race, course.start, course.finish, p));
  }

  /** With nothing declared, a runner is finished exactly when some crossing of the finish is at
      or after the gun; otherwise they did not finish if anything shows they started, and did not
      start if nothing does. */
  lemma UndeclaredStatus(race: Race, start: Option<Uuid>, finish: Uuid, p: Participant)
    requires forall d :: d in race.declarations ==> d.participant != p.id
    ensures var e := LineOf(race, start, finish, p);
            && e.statusSource == FromCrossings
            && e.statusReason == None
            && (e.status == Finished <==>
                  exists x :: x in race.events && SeenInTheRace(race, p, x) && x.checkpoint == finish)
            && (e.status == Dnf <==>
                  && (!exists x :: x in race.events && SeenInTheRace(race, p, x) && x.checkpoint == finish)
                  && exists x :: x in race.events && SeenToStart(race, start, p, x))
            && e.status != Dq
  {
    var post := (p.id, finish);
    CrossingsMean(race.events, post, race.gun);
    LatestIsNewest(race.declarations, p.id);
    forall x | x in race.events
      ensures x in Counting(race.events, post, race.gun) <==> SeenInTheRace(race, p, x) && x.checkpoint == finish
    {
    }
    if x :| x in Counting(race.events, post, race.gun) {
      assert x in race.events && SeenInTheRace(race, p, x) && x.checkpoint == finish;
    }
    StartedMeansSeen(race, start, p);
  }

  /** Anywhere, at or after the gun. */
  predicate SeenInTheRace(race: Race, p: Participant, x: TimingEvent)
  {
    x.participant == p.id && (race.gun.None? || x.at >= race.gun.value)
  }

  /** Or at the start line, at any time. */
  predicate SeenToStart(race: Race, start: Option<Uuid>, p: Participant, x: TimingEvent)
  {
    SeenInTheRace(race, p, x) || (x.participant == p.id && start == Some(x.checkpoint))
  }

  lemma StartedMeansSeen(race: Race, start: Option<Uuid>, p: Participant)
    ensures Started(race.events, p.id, start, race.gun)
            <==> exists x :: x in race.events && SeenToStart(race, start, p, x)
  {
    if x :| x in race.events && SeenToStart(race, start, p, x) {
      assert ProvesStart(x, start, race.gun);
    }
    if x :| x in race.events && x.participant == p.id && ProvesStart(x, start, race.gun) {
      assert SeenToStart(race, start, p, x);
    }
  }

  /** A declaration in force decides the status, and is quoted. */
  lemma DeclaredStatus(race: Race, start: Option<Uuid>, finish: Uuid, p: Participant, d: Declaration)
    requires InForce(d, race.declarations, p.id) && DeclarationNumbers(race.declarations)
    ensures var e := LineOf(race, start, finish, p);
            e.status == d.status && e.statusSource == Declared && e.statusReason == Some(d.reason)
  {
    LatestIsNewest(race.declarations, p.id);
  }
}
