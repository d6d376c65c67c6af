/** One participant's line: which crossings count, and what they come to. */
module Results {
  import opened Ordering
  import opened Domain

  datatype Participant = Participant(id: Uuid, bib: string, name: string)

  datatype ResultStatus = Finished | Dns | Dnf | Dq

  datatype StatusSource = FromCrossings | Declared

  datatype StartMode = FromGun | FromChip

  datatype Flag =
    | NoStartReadUnderChipTime
    | NoGunTime
    | FinishBeforeStart
    | DeclaredFinishedWithoutFinishRead
    | StartReadBeforeGun
    | FinishReadBeforeGun
    | ManualStart
    | ManualFinish
    | ManualStartOverChip
    | ManualFinishOverChip

  datatype Declaration = Declaration(seqNo: U64, participant: Uuid, status: ResultStatus, reason: string)

  datatype Entry = Entry(
    participant: Uuid,
    bib: string,
    name: string,
    status: ResultStatus,
    statusSource: StatusSource,
    statusReason: Option<string>,
    startAt: Option<Time>,
    finishAt: Option<Time>,
    gunTimeMs: Option<int>,
    chipTimeMs: Option<int>,
    scoringTimeMs: Option<int>,
    place: Option<int>,
    flags: seq<Flag>,
    timingEvents: seq<Uuid>)

  // ----- Crossings of one checkpoint -----

  type Post = (Uuid, Uuid)

  function PostOf(e: TimingEvent): Post
  {
    (e.participant, e.checkpoint)
  }

  predicate IsManual(e: TimingEvent)
  {
    e.origin.FromManual?
  }

  /** Time, then identifier. */
  predicate Earlier(a: TimingEvent, b: TimingEvent)
  {
    a.at < b.at || (a.at == b.at && a.id < b.id)
  }

  predicate BeforeGun(e: TimingEvent, gun: Option<Time>)
  {
    gun.Some? && e.at < gun.value
  }

  /** The earliest crossing at or after the gun, the latest before it, and the earliest by a chip
      at or after it. */
  datatype Crossings = Crossings(
    counted: Option<TimingEvent>,
    beforeGun: Option<TimingEvent>,
    countedChip: Option<TimingEvent>)

  const NO_CROSSINGS := Crossings(None, None, None)

  function EarlierOf(held: Option<TimingEvent>, e: TimingEvent): Option<TimingEvent>
  {
    if held.None? || Earlier(e, held.value) then Some(e) else held
  }

  function LaterOf(held: Option<TimingEvent>, e: TimingEvent): Option<TimingEvent>
  {
    if held.None? || Earlier(held.value, e) then Some(e) else held
  }

  function With(c: Crossings, e: TimingEvent, gun: Option<Time>): Crossings
  {
    if BeforeGun(e, gun) then c.(beforeGun := LaterOf(c.beforeGun, e))
    else Crossings(EarlierOf(c.counted, e), c.beforeGun,
                   if IsManual(e) then c.countedChip else EarlierOf(c.countedChip, e))
  }

  class CrossingsCell {
    var counted: Option<TimingEvent>
    var beforeGun: Option<TimingEvent>
    var countedChip: Option<TimingEvent>

    constructor ()
      ensures View() == NO_CROSSINGS
    {
      counted, beforeGun, countedChip := None, None, None;
    }

    function View(): Crossings
      reads this
    {
      Crossings(counted, beforeGun, countedChip)
    }

    method Add(event: TimingEvent, gun: Option<Time>)
      modifies this
      ensures View() == With(old(View()), event, gun)
    {
      if gun.Some? && event.at < gun.value {
        if beforeGun.None? || Earlier(beforeGun.value, event) {
          beforeGun := Some(event);
        }
      } else {
        if counted.None? || Earlier(event, counted.value) {
          counted := Some(event);
        }
        if !IsManual(event) && (countedChip.None? || Earlier(event, countedChip.value)) {
          countedChip := Some(event);
        }
      }
    }
  }

  function CrossingsOf(events: seq<TimingEvent>, post: Post, gun: Option<Time>): Crossings
  {
    if events == [] then NO_CROSSINGS
    else
      var last := events[|events| - 1];
      var before := CrossingsOf(events[..|events| - 1], post, gun);
      if PostOf(last) == post then With(before, last, gun) else before
  }

  // ----- What the fold means -----

  ghost function Counting(events: seq<TimingEvent>, post: Post, gun: Option<Time>): set<TimingEvent>
  {
    set e | e in events && PostOf(e) == post && !BeforeGun(e, gun)
  }

  ghost function WarmUps(events: seq<TimingEvent>, post: Post, gun: Option<Time>): set<TimingEvent>
  {
    set e | e in events && PostOf(e) == post && BeforeGun(e, gun)
  }

  ghost function CountingChips(events: seq<TimingEvent>, post: Post, gun: Option<Time>): set<TimingEvent>
  {
    set e | e in events && PostOf(e) == post && !BeforeGun(e, gun) && e.origin.FromCrossing?
  }

  ghost predicate IsEarliest(s: set<TimingEvent>, r: Option<TimingEvent>)
  {
    if r.None? then s == {} else r.value in s && forall e :: e in s ==> !Earlier(e, r.value)
  }

  ghost predicate IsLatest(s: set<TimingEvent>, r: Option<TimingEvent>)
  {
    if r.None? then s == {} else r.value in s && forall e :: e in s ==> !Earlier(r.value, e)
  }

  lemma EarlierOfAdds(s: set<TimingEvent>, held: Option<TimingEvent>, e: TimingEvent)
    requires IsEarliest(s, held)
    ensures IsEarliest(s + {e}, EarlierOf(held, e))
  {
  }

  lemma LaterOfAdds(s: set<TimingEvent>, held: Option<TimingEvent>, e: TimingEvent)
    requires IsLatest(s, held)
    ensures IsLatest(s + {e}, LaterOf(held, e))
  {
  }

  /** The fold keeps the earliest and latest of what it has seen, whatever order it sees it in. */
  lemma {:induction false} CrossingsMean(events: seq<TimingEvent>, post: Post, gun: Option<Time>)
    ensures var c := CrossingsOf(events, post, gun);
            && IsEarliest(Counting(events, post, gun), c.counted)
            && IsLatest(WarmUps(events, post, gun), c.beforeGun)
            && IsEarliest(CountingChips(events, post, gun), c.countedChip)
  {
    if events != [] {
      var front, e := events[..|events| - 1], events[|events| - 1];
      CrossingsMean(front, post, gun);
      var c := CrossingsOf(front, post, gun);
      EarlierOfAdds(Counting(front, post, gun), c.counted, e);
      LaterOfAdds(WarmUps(front, post, gun), c.beforeGun, e);
      EarlierOfAdds(CountingChips(front, post, gun), c.countedChip, e);
      SetsSnoc(front, e, post, gun);
      assert events == front + [e];
    }
  }

  lemma SetsSnoc(front: seq<TimingEvent>, e: TimingEvent, post: Post, gun: Option<Time>)
    ensures Counting(front + [e], post, gun)
            == Counting(front, post, gun) + if PostOf(e) == post && !BeforeGun(e, gun) then {e} else {}
    ensures WarmUps(front + [e], post, gun)
            == WarmUps(front, post, gun) + if PostOf(e) == post && BeforeGun(e, gun) then {e} else {}
    ensures CountingChips(front + [e], post, gun)
            == CountingChips(front, post, gun)
               + if PostOf(e) == post && !BeforeGun(e, gun) && !IsManual(e) then {e} else {}
  {
    assert forall x :: x in front + [e] <==> x in front || x == e;
  }

  ghost predicate EventNumbers(events: seq<TimingEvent>)
  {
    forall x, y :: x in events && y in events && x.id == y.id ==> x == y
  }

  lemma CrossingsOrderBlind(a: seq<TimingEvent>, b: seq<TimingEvent>, post: Post, gun: Option<Time>)
    requires multiset(a) == multiset(b) && EventNumbers(a)
    ensures CrossingsOf(a, post, gun) == CrossingsOf(b, post, gun)
  {
    SameMultiset(a, b);
    CrossingsMean(a, post, gun);
    CrossingsMean(b, post, gun);
    assert Counting(a, post, gun) == Counting(b, post, gun);
    assert WarmUps(a, post, gun) == WarmUps(b, post, gun);
    assert CountingChips(a, post, gun) == CountingChips(b, post, gun);
    var c, d := CrossingsOf(a, post, gun), CrossingsOf(b, post, gun);
    EarliestIsUnique(a, Counting(a, post, gun), c.counted, d.counted);
    LatestIsUnique(a, WarmUps(a, post, gun), c.beforeGun, d.beforeGun);
    EarliestIsUnique(a, CountingChips(a, post, gun), c.countedChip, d.countedChip);
  }

  lemma EarliestIsUnique(events: seq<TimingEvent>, s: set<TimingEvent>, r: Option<TimingEvent>, q: Option<TimingEvent>)
    requires EventNumbers(events) && (forall e :: e in s ==> e in events)
    requires IsEarliest(s, r) && IsEarliest(s, q)
    ensures r == q
  {
    if r.Some? && q.Some? {
      assert !Earlier(r.value, q.value) && !Earlier(q.value, r.value);
      assert r.value in events && q.value in events;
    }
  }

  lemma LatestIsUnique(events: seq<TimingEvent>, s: set<TimingEvent>, r: Option<TimingEvent>, q: Option<TimingEvent>)
    requires EventNumbers(events) && (forall e :: e in s ==> e in events)
    requires IsLatest(s, r) && IsLatest(s, q)
    ensures r == q
  {
    if r.Some? && q.Some? {
      assert !Earlier(r.value, q.value) && !Earlier(q.value, r.value);
      assert r.value in events && q.value in events;
    }
  }

  // ----- One line -----

  function ElapsedMs(from: Time, to: Time): int
  {
    ToI64(WholeMs(to - from))
  }

  function ManualFlags(c: Crossings, used: Option<TimingEvent>, manual: Flag, overChip: Flag): seq<Flag>
  {
    if used.None? || !IsManual(used.value) then []
    else if c.counted.Some? && c.counted.value.id == used.value.id && c.countedChip.Some? then [manual, overChip]
    else [manual]
  }

  function FlagIf(raised: bool, flag: Flag): seq<Flag>
  {
    if raised then [flag] else []
  }

  /** The event a start rests on: the counted one, or else a warm-up read with a gun in force. */
  function StartEvent(atStart: Crossings, gun: Option<Time>): Option<TimingEvent>
  {
    if atStart.counted.Some? then atStart.counted
    else if gun.Some? then atStart.beforeGun
    else None
  }

  /** A runner seen at the start line only before the gun started at the gun. */
  function StartAt(atStart: Crossings, gun: Option<Time>): Option<Time>
  {
    if atStart.counted.Some? then Some(atStart.counted.value.at)
    else if atStart.beforeGun.Some? then gun
    else None
  }

  function Elapsed(from: Option<Time>, to: Option<Time>): Option<int>
  {
    if from.Some? && to.Some? then Some(ElapsedMs(from.value, to.value)) else None
  }

  /** The time placement would use, before a negative one is refused. */
  function MeasuredMs(mode: StartMode, gunTimeMs: Option<int>, chipTimeMs: Option<int>): Option<int>
  {
    if mode.FromChip? && chipTimeMs.Some? then chipTimeMs else gunTimeMs
  }

  function DerivedStatus(finished: bool, started: bool): ResultStatus
  {
    if finished then Finished else if started then Dnf else Dns
  }

  function EventIds(start: Option<TimingEvent>, finish: Option<TimingEvent>): seq<Uuid>
  {
    (if start.Some? then [start.value.id] else []) + if finish.Some? then [finish.value.id] else []
  }

  function StartFlags(atStart: Crossings, gun: Option<Time>): seq<Flag>
  {
    FlagIf(atStart.counted.None? && StartAt(atStart, gun).Some?, StartReadBeforeGun)
    + ManualFlags(atStart, StartEvent(atStart, gun), ManualStart, ManualStartOverChip)
  }

  function FinishFlags(atFinish: Crossings): seq<Flag>
  {
    ManualFlags(atFinish, atFinish.counted, ManualFinish, ManualFinishOverChip)
    + FlagIf(atFinish.counted.None? && atFinish.beforeGun.Some?, FinishReadBeforeGun)
  }

  function TimeFlags(finished: bool, mode: StartMode, gunTimeMs: Option<int>, chipTimeMs: Option<int>,
                     impossible: bool): seq<Flag>
  {
    var noStart := finished && mode.FromChip? && chipTimeMs.None?;
    FlagIf(noStart, NoStartReadUnderChipTime)
    + FlagIf(finished && gunTimeMs.None? && (mode.FromGun? || noStart), NoGunTime)
    + FlagIf(impossible, FinishBeforeStart)
  }

  function BuildEntry(p: Participant, atStart: Crossings, atFinish: Crossings, started: bool,
                      declaration: Option<Declaration>, mode: StartMode, gun: Option<Time>): Entry
  {
    var startEvent := StartEvent(atStart, gun);
    var startAt := StartAt(atStart, gun);
    var finishEvent := atFinish.counted;
    var finishAt := if finishEvent.Some? then Some(finishEvent.value.at) else None;
    var gunTimeMs := Elapsed(gun, finishAt);
    var chipTimeMs := Elapsed(startAt, finishAt);
    var measured := MeasuredMs(mode, gunTimeMs, chipTimeMs);
    var impossible := measured.Some? && measured.value < 0;
    var status := if declaration.Some? then declaration.value.status else DerivedStatus(finishAt.Some?, started);
    var flags :=
      StartFlags(atStart, gun) + FinishFlags(atFinish)
      + TimeFlags(finishAt.Some?, mode, gunTimeMs, chipTimeMs, impossible)
      + FlagIf(declaration.Some? && status == Finished && finishAt.None?, DeclaredFinishedWithoutFinishRead);
    Entry(p.id, p.bib, p.name, status,
          if declaration.Some? then Declared else FromCrossings,
          if declaration.Some? then Some(declaration.value.reason) else None,
          startAt, finishAt, gunTimeMs, chipTimeMs,
          if impossible then None else measured,
          None, flags, EventIds(startEvent, finishEvent))
  }
}
