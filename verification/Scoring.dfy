/** Scoring a race: from timing events, a roster and declarations to published entries. */
module Scoring {
  import opened Ordering
  import opened Domain
  import opened Results
  import opened Placement

  datatype CheckpointKind = StartLine | Split | FinishLine | LapCounter

  datatype CourseCheckpoint = CourseCheckpoint(id: Uuid, name: string, kind: CheckpointKind, sequence: U16)

  datatype ScoringError =
    | NoFinishCheckpoint
    | MultipleFinishCheckpoints(count: nat, names: string)
    | MultipleStartCheckpoints(count: nat, names: string)
    | ChipTimeWithoutStartCheckpoint

  datatype Scored = Scores(entries: seq<Entry>) | Refused(error: ScoringError)

  datatype Race = Race(
    participants: seq<Participant>,
    checkpoints: seq<CourseCheckpoint>,
    events: seq<TimingEvent>,
    declarations: seq<Declaration>,
    mode: StartMode,
    gun: Option<Time>)

  // ----- The course -----

  function OfKind(checkpoints: seq<CourseCheckpoint>, kind: CheckpointKind): seq<CourseCheckpoint>
  {
    if checkpoints == [] then []
    else
      var last := checkpoints[|checkpoints| - 1];
      OfKind(checkpoints[..|checkpoints| - 1], kind) + if last.kind == kind then [last] else []
  }

  function CourseKey(c: CourseCheckpoint): Key { [c.sequence] }

  function Names(checkpoints: seq<CourseCheckpoint>): string
  {
    if checkpoints == [] then ""
    else if |checkpoints| == 1 then checkpoints[0].name
    else Names(checkpoints[..|checkpoints| - 1]) + ", " + checkpoints[|checkpoints| - 1].name
  }

  datatype Sole = Nothing | Only(id: Uuid) | Several(count: nat, names: string)

  function SoleCheckpoint(checkpoints: seq<CourseCheckpoint>, kind: CheckpointKind): Sole
  {
    var matching := Sort(OfKind(checkpoints, kind), CourseKey);
    if matching == [] then Nothing
    else if |matching| == 1 then Only(matching[0].id)
    else Several(|matching|, Names(matching))
  }

  /** The start and finish lines, or why the course cannot be scored. */
  datatype Course = Lines(start: Option<Uuid>, finish: Uuid) | Unscorable(error: ScoringError)

  function CourseOf(checkpoints: seq<CourseCheckpoint>, mode: StartMode): Course
  {
    var finish, start := SoleCheckpoint(checkpoints, FinishLine), SoleCheckpoint(checkpoints, StartLine);
    if finish.Several? then Unscorable(MultipleFinishCheckpoints(finish.count, finish.names))
    else if finish.Nothing? then Unscorable(NoFinishCheckpoint)
    else if start.Several? then Unscorable(MultipleStartCheckpoints(start.count, start.names))
    else if mode.FromChip? && start.Nothing? then Unscorable(ChipTimeWithoutStartCheckpoint)
    else Lines(if start.Only? then Some(start.id) else None, finish.id)
  }

  // ----- Who started, and what was declared -----

  /** At the start line at any time, or anywhere at or after the gun. */
  predicate ProvesStart(e: TimingEvent, start: Option<Uuid>, gun: Option<Time>)
  {
    !BeforeGun(e, gun) || start == Some(e.checkpoint)
  }

  predicate Started(events: seq<TimingEvent>, participant: Uuid, start: Option<Uuid>, gun: Option<Time>)
  {
    exists e :: e in events && e.participant == participant && ProvesStart(e, start, gun)
  }

  /** The declaration in force: the one with the highest sequence. */
  function Latest(declarations: seq<Declaration>, participant: Uuid): Option<Declaration>
  {
    if declarations == [] then None
    else
      var last := declarations[|declarations| - 1];
      var held := Latest(declarations[..|declarations| - 1], participant);
      if last.participant == participant && (held.None? || last.seqNo > held.value.seqNo) then Some(last) else held
  }

  ghost predicate InForce(held: Declaration, declarations: seq<Declaration>, participant: Uuid)
  {
    && held in declarations && held.participant == participant
    && forall d :: d in declarations && d.participant == participant ==> d.seqNo <= held.seqNo
  }

  lemma {:induction false} LatestIsNewest(declarations: seq<Declaration>, participant: Uuid)
    ensures var held := Latest(declarations, participant);
            && (held.None? <==> forall d :: d in declarations ==> d.participant != participant)
            && (held.Some? ==> InForce(held.value, declarations, participant))
  {
    if declarations != [] {
      var front, last := declarations[..|declarations| - 1], declarations[|declarations| - 1];
      LatestIsNewest(front, participant);
      assert forall d :: d in declarations <==> d in front || d == last;
    }
  }

  // ----- The score -----

  function LineOf(race: Race, start: Option<Uuid>, finish: Uuid, p: Participant): Entry
  {
    var atStart := if start.Some? then CrossingsOf(race.events, (p.id, start.value), race.gun) else NO_CROSSINGS;
    BuildEntry(p, atStart, CrossingsOf(race.events, (p.id, finish), race.gun),
               Started(race.events, p.id, start, race.gun), Latest(race.declarations, p.id), race.mode, race.gun)
  }

  function Sheet(race: Race, start: Option<Uuid>, finish: Uuid): (lines: seq<Entry>)
    ensures |lines| == |race.participants|
    ensures forall i :: 0 <= i < |lines| ==> lines[i] == LineOf(race, start, finish, race.participants[i])
  {
    seq(|race.participants|, i requires 0 <= i < |race.participants| =>
      LineOf(race, start, finish, race.participants[i]))
  }

  function ScoreOf(race: Race): Scored
  {
    var course := CourseOf(race.checkpoints, race.mode);
    if course.Unscorable? then Refused(course.error)
    else Scores(Published(Sheet(race, course.start, course.finish)))
  }

  // ----- The loops -----

  method GatherCrossings(events: seq<TimingEvent>, gun: Option<Time>) returns (crossings: map<Post, CrossingsCell>)
    ensures forall post :: post in crossings ==>
              fresh(crossings[post]) && crossings[post].View() == CrossingsOf(events, post, gun)
    ensures forall post :: post !in crossings ==> CrossingsOf(events, post, gun) == NO_CROSSINGS
  {
    crossings := map[];
    for i := 0 to |events|
      invariant forall post :: post in crossings ==> fresh(crossings[post])
      invariant forall p, q :: p in crossings && q in crossings && p != q ==> crossings[p] != crossings[q]
      invariant forall post :: post in crossings ==> crossings[post].View() == CrossingsOf(events[..i], post, gun)
      invariant forall post :: post !in crossings ==> CrossingsOf(events[..i], post, gun) == NO_CROSSINGS
    {
      var event := events[i];
      assert events[..i + 1][..i] == events[..i];
      var post := PostOf(event);
      if post !in crossings {
        var cell := new CrossingsCell();
        crossings := crossings[post := cell];
      }
      crossings[post].Add(event, gun);
    }
    assert events[..|events|] == events;
  }

  method GatherStarted(events: seq<TimingEvent>, start: Option<Uuid>, gun: Option<Time>) returns (started: set<Uuid>)
    ensures forall p :: p in started <==> Started(events, p, start, gun)
  {
    started := {};
    for i := 0 to |events|
      invariant forall p :: p in started <==> Started(events[..i], p, start, gun)
    {
      var event := events[i];
      assert events[..i + 1] == events[..i] + [event];
      StartedSnoc(events[..i], event, start, gun);
      var duringTheRace := gun.None? || event.at >= gun.value;
      var atTheStartLine := start == Some(event.checkpoint);
      if duringTheRace || atTheStartLine {
        started := started + {event.participant};
      }
    }
    assert events[..|events|] == events;
  }

  lemma StartedSnoc(events: seq<TimingEvent>, e: TimingEvent, start: Option<Uuid>, gun: Option<Time>)
    ensures forall p :: Started(events + [e], p, start, gun)
              <==> Started(events, p, start, gun) || (e.participant == p && ProvesStart(e, start, gun))
  {
    assert forall x :: x in events + [e] <==> x in events || x == e;
  }

  method LatestDeclarations(declarations: seq<Declaration>) returns (latest: map<Uuid, Declaration>)
    ensures forall p: Uuid :: Latest(declarations, p) == if p in latest then Some(latest[p]) else None
  {
    latest := map[];
    for i := 0 to |declarations|
      invariant forall p: Uuid :: Latest(declarations[..i], p) == if p in latest then Some(latest[p]) else None
    {
      var declaration := declarations[i];
      assert declarations[..i + 1][..i] == declarations[..i];
      if declaration.participant !in latest || declaration.seqNo > latest[declaration.participant].seqNo {
        latest := latest[declaration.participant := declaration];
      }
    }
    assert declarations[..|declarations|] == declarations;
  }

  method BuildSheet(race: Race, start: Option<Uuid>, finish: Uuid) returns (lines: seq<Entry>)
    ensures lines == Sheet(race, start, finish)
  {
    var crossings := GatherCrossings(race.events, race.gun);
    var started := GatherStarted(race.events, start, race.gun);
    var declared := LatestDeclarations(race.declarations);
    lines := [];
    for i := 0 to |race.participants|
      invariant |lines| == i
      invariant forall j :: 0 <= j < i ==> lines[j] == LineOf(race, start, finish, race.participants[j])
    {
      var p := race.participants[i];
      var atStart := NO_CROSSINGS;
      if start.Some? && (p.id, start.value) in crossings {
        atStart := crossings[(p.id, start.value)].View();
      }
      var atFinish := NO_CROSSINGS;
      if (p.id, finish) in crossings {
        atFinish := crossings[(p.id, finish)].View();
      }
      var declaration := if p.id in declared then Some(declared[p.id]) else None;
      lines := lines + [BuildEntry(p, atStart, atFinish, p.id in started, declaration, race.mode, race.gun)];
    }
  }

  method Publish(lines: seq<Entry>) returns (list: seq<Entry>)
    ensures list == Published(lines)
  {
    var entries := new Entry[|lines|](i requires 0 <= i < |lines| => lines[i]);
    assert entries[..] == lines;
    AssignPlaces(entries);
    SortForPublication(entries);
    list := entries[..];
  }

  method Score(race: Race) returns (r: Scored)
    ensures r == ScoreOf(race)
  {
    var course := CourseOf(race.checkpoints, race.mode);
    if course.Unscorable? {
      return Refused(course.error);
    }
    var lines := BuildSheet(race, course.start, course.finish);
    var list := Publish(lines);
    return Scores(list);
  }
}
