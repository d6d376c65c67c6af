/** What a line measures, and from which crossings. */
module MeasureLaws {
  import opened Ordering
  import opened Domain
  import opened Results
  import opened Placement
  import opened Scoring
  import opened ResultLaws

  // ----- Times -----

  /** Gun time runs from the gun to the finish and chip time from the start to the finish, each there
      exactly when both of its ends are. Placing goes by gun time in a gun race, and in a chip race by
      chip time or else by gun time; never by a negative one. */
  lemma TimesAreMeasured(race: Race, start: Option<Uuid>, finish: Uuid, p: Participant)
    ensures var e := LineOf(race, start, finish, p);
            && (e.gunTimeMs == if race.gun.Some? && e.finishAt.Some?
                               then Some(WholeMs(e.finishAt.value - race.gun.value)) else None)
            && (e.chipTimeMs == if e.startAt.Some? && e.finishAt.Some?
                                then Some(WholeMs(e.finishAt.value - e.startAt.value)) else None)
            && (race.mode.FromGun? ==> e.scoringTimeMs == NotNegative(e.gunTimeMs))
            && (race.mode.FromChip? && e.chipTimeMs.Some? ==> e.scoringTimeMs == NotNegative(e.chipTimeMs))
            && (race.mode.FromChip? && e.chipTimeMs.None? ==> e.scoringTimeMs == NotNegative(e.gunTimeMs))
  {
    var e := LineOf(race, start, finish, p);
    if race.gun.Some? && e.finishAt.Some? {
      ElapsedIsExact(race.gun.value, e.finishAt.value);
    }
    if e.startAt.Some? && e.finishAt.Some? {
      ElapsedIsExact(e.startAt.value, e.finishAt.value);
    }
  }

  function NotNegative(ms: Option<int>): Option<int>
  {
    if ms.Some? && ms.value < 0 then None else ms
  }

  // ----- Which crossings -----

  predicate AtPost(race: Race, p: Participant, checkpoint: Uuid, x: TimingEvent)
  {
    x in race.events && x.participant == p.id && x.checkpoint == checkpoint
  }

  /** At or after the gun, if there is one. */
  predicate InTheRace(race: Race, x: TimingEvent)
  {
    race.gun.None? || x.at >= race.gun.value
  }

  /** The earliest of the runner's crossings of a checkpoint at or after the gun; at one instant, the
      one with the lowest identifier. */
  ghost predicate IsFirst(race: Race, p: Participant, checkpoint: Uuid, x: TimingEvent)
  {
    && AtPost(race, p, checkpoint, x) && InTheRace(race, x)
    && forall y :: AtPost(race, p, checkpoint, y) && InTheRace(race, y) ==>
         x.at < y.at || (x.at == y.at && x.id <= y.id)
  }

  /** The latest of their crossings before the gun. */
  ghost predicate IsLastWarmUp(race: Race, p: Participant, checkpoint: Uuid, x: TimingEvent)
  {
    && AtPost(race, p, checkpoint, x) && !InTheRace(race, x)
    && forall y :: AtPost(race, p, checkpoint, y) && !InTheRace(race, y) ==>
         y.at < x.at || (y.at == x.at && y.id <= x.id)
  }

  ghost predicate NoneInTheRace(race: Race, p: Participant, checkpoint: Uuid)
  {
    forall x :: AtPost(race, p, checkpoint, x) ==> !InTheRace(race, x)
  }

  lemma CountedIsFirst(race: Race, p: Participant, checkpoint: Uuid)
    ensures var c := CrossingsOf(race.events, (p.id, checkpoint), race.gun);
            && (c.counted.Some? ==> IsFirst(race, p, checkpoint, c.counted.value))
            && (c.counted.None? ==> NoneInTheRace(race, p, checkpoint))
  {
    var post := (p.id, checkpoint);
    var c, s := CrossingsOf(race.events, post, race.gun), Counting(race.events, post, race.gun);
    CrossingsMean(race.events, post, race.gun);
    forall y
      ensures AtPost(race, p, checkpoint, y) && InTheRace(race, y) <==> y in s
    {
    }
  }

  lemma BeforeGunIsLast(race: Race, p: Participant, checkpoint: Uuid)
    ensures var c := CrossingsOf(race.events, (p.id, checkpoint), race.gun);
            && (c.beforeGun.Some? ==> IsLastWarmUp(race, p, checkpoint, c.beforeGun.value) && race.gun.Some?)
            && (c.beforeGun.None? ==> forall x :: AtPost(race, p, checkpoint, x) ==> InTheRace(race, x))
  {
    var post := (p.id, checkpoint);
    var c, s := CrossingsOf(race.events, post, race.gun), WarmUps(race.events, post, race.gun);
    CrossingsMean(race.events, post, race.gun);
    forall y
      ensures AtPost(race, p, checkpoint, y) && !InTheRace(race, y) <==> y in s
    {
    }
  }

  /** The finish is the first crossing of the finish line in the race, and there is none without one. */
  lemma FinishIsTheFirst(race: Race, start: Option<Uuid>, finish: Uuid, p: Participant)
    ensures var e := LineOf(race, start, finish, p);
            && (e.finishAt.None? <==> NoneInTheRace(race, p, finish))
            && (e.finishAt.Some? ==> exists x :: IsFirst(race, p, finish, x) && x.at == e.finishAt.value
                                                 && e.timingEvents != []
                                                 && e.timingEvents[|e.timingEvents| - 1] == x.id)
  {
    CountedIsFirst(race, p, finish);
    var c := CrossingsOf(race.events, (p.id, finish), race.gun);
    if c.counted.Some? {
      assert IsFirst(race, p, finish, c.counted.value);
    }
  }

  /** The start is the first crossing of the start line in the race, or else the gun for a runner whose
      last warm-up there is the evidence; and the events a line rests on are those two, in order. */
  lemma StartIsTheFirst(race: Race, start: Uuid, finish: Uuid, p: Participant)
    ensures var e := LineOf(race, Some(start), finish, p);
            && (forall x :: IsFirst(race, p, start, x) ==>
                  e.startAt == Some(x.at) && e.timingEvents != [] && e.timingEvents[0] == x.id)
            && (NoneInTheRace(race, p, start) ==>
                  && (forall x :: IsLastWarmUp(race, p, start, x) ==>
                        e.startAt == race.gun && e.timingEvents != [] && e.timingEvents[0] == x.id)
                  && ((forall x :: !AtPost(race, p, start, x)) ==> e.startAt == None))
            && |e.timingEvents| == (if e.startAt.Some? then 1 else 0) + (if e.finishAt.Some? then 1 else 0)
  {
    var e, c := LineOf(race, Some(start), finish, p), CrossingsOf(race.events, (p.id, start), race.gun);
    CountedIsFirst(race, p, start);
    BeforeGunIsLast(race, p, start);
    forall x | IsFirst(race, p, start, x)
      ensures e.startAt == Some(x.at) && e.timingEvents != [] && e.timingEvents[0] == x.id
    {
      SameFirst(race, p, start, x, c);
    }
    if NoneInTheRace(race, p, start) {
      forall x | IsLastWarmUp(race, p, start, x)
        ensures e.startAt == race.gun && e.timingEvents != [] && e.timingEvents[0] == x.id
      {
        SameWarmUp(race, p, start, x, c);
      }
    }
  }

  lemma SameFirst(race: Race, p: Participant, checkpoint: Uuid, x: TimingEvent, c: Crossings)
    requires c == CrossingsOf(race.events, (p.id, checkpoint), race.gun) && IsFirst(race, p, checkpoint, x)
    ensures c.counted.Some? && c.counted.value.at == x.at && c.counted.value.id == x.id
  {
    CountedIsFirst(race, p, checkpoint);
    assert AtPost(race, p, checkpoint, x) && InTheRace(race, x);
  }

  lemma SameWarmUp(race: Race, p: Participant, checkpoint: Uuid, x: TimingEvent, c: Crossings)
    requires c == CrossingsOf(race.events, (p.id, checkpoint), race.gun) && IsLastWarmUp(race, p, checkpoint, x)
    requires NoneInTheRace(race, p, checkpoint)
    ensures c.counted.None? && c.beforeGun.Some? && race.gun.Some? && c.beforeGun.value.id == x.id
  {
    CountedIsFirst(race, p, checkpoint);
    BeforeGunIsLast(race, p, checkpoint);
    assert AtPost(race, p, checkpoint, x) && !InTheRace(race, x);
  }

  /** A line is its participant's: their identifier, bib and name. Without a start line it has no start. */
  lemma LineIsTheirs(race: Race, start: Option<Uuid>, finish: Uuid, p: Participant)
    ensures var e := LineOf(race, start, finish, p); e.participant == p.id && e.bib == p.bib && e.name == p.name
    ensures start == None ==> LineOf(race, start, finish, p).startAt == None
  {
  }

  // ----- A gun race does not look at the start line -----

  /** The same evidence but for crossings of the start line. */
  ghost predicate SameButAtTheStart(a: Race, b: Race, start: Uuid)
  {
    && b == a.(events := b.events)
    && (forall x: TimingEvent :: x.checkpoint != start ==> (x in a.events <==> x in b.events))
    && EventNumbers(a.events)
  }

  lemma SameCrossings(a: Race, b: Race, start: Uuid, post: Post)
    requires SameButAtTheStart(a, b, start) && post.1 != start
    ensures CrossingsOf(a.events, post, a.gun).counted == CrossingsOf(b.events, post, b.gun).counted
  {
    CrossingsMean(a.events, post, a.gun);
    CrossingsMean(b.events, post, b.gun);
    forall x
      ensures x in Counting(a.events, post, a.gun) <==> x in Counting(b.events, post, b.gun)
    {
    }
    EarliestIsUnique(a.events, Counting(a.events, post, a.gun),
                     CrossingsOf(a.events, post, a.gun).counted, CrossingsOf(b.events, post, b.gun).counted);
  }

  lemma SamePlacing(a: Race, b: Race, start: Uuid, finish: Uuid, p: Participant)
    requires SameButAtTheStart(a, b, start) && a.mode.FromGun? && start != finish
    ensures var e, f := LineOf(a, Some(start), finish, p), LineOf(b, Some(start), finish, p);
            e.finishAt == f.finishAt && e.scoringTimeMs == f.scoringTimeMs && (Placeable(e) <==> Placeable(f))
  {
    SameCrossings(a, b, start, (p.id, finish));
  }

  lemma {:induction false} SameFaster(x: seq<Entry>, y: seq<Entry>, timeMs: int)
    requires |x| == |y|
    requires forall i :: 0 <= i < |x| ==>
               (Placeable(x[i]) <==> Placeable(y[i])) && x[i].scoringTimeMs == y[i].scoringTimeMs
    ensures Faster(x, timeMs) == Faster(y, timeMs)
  {
    if x != [] {
      SameFaster(x[..|x| - 1], y[..|y| - 1], timeMs);
    }
  }

  /** In a gun race, crossings of the start line change nobody's placing time and nobody's place. */
  lemma GunRacesIgnoreTheStartLine(a: Race, b: Race, start: Uuid, finish: Uuid, i: nat)
    requires SameButAtTheStart(a, b, start) && a.mode.FromGun? && start != finish && i < |a.participants|
    ensures var x, y := Placed(Sheet(a, Some(start), finish)), Placed(Sheet(b, Some(start), finish));
            x[i].scoringTimeMs == y[i].scoringTimeMs && x[i].place == y[i].place
  {
    var x, y := Sheet(a, Some(start), finish), Sheet(b, Some(start), finish);
    forall j | 0 <= j < |x|
      ensures (Placeable(x[j]) <==> Placeable(y[j])) && x[j].scoringTimeMs == y[j].scoringTimeMs
      ensures x[j].place == y[j].place == None
    {
      SamePlacing(a, b, start, finish, a.participants[j]);
      LineIsUnplaced(a, Some(start), finish, a.participants[j]);
      LineIsUnplaced(b, Some(start), finish, a.participants[j]);
    }
    if Placeable(x[i]) {
      SameFaster(x, y, x[i].scoringTimeMs.value);
    }
  }
}
