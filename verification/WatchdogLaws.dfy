/** What each event and each tick does to what is believed and to the rows, in instants and with no
    mention of verdicts; and what that comes to over a run. */
module WatchdogLaws {
  import opened Ordering
  import opened Domain
  import opened Watchdog

  // ----- One tick -----

  /** The heartbeat check is on, the reader was heard on this connection, and that long ago. */
  predicate QuietTooLong(s: State, look: Look)
  {
    && look.heartbeatMs.Some? && look.heartbeatMs.value > 0 && s.lastHeard.Some?
    && look.now - s.lastHeard.value >= look.heartbeatMs.value * NANOS_PER_MS
  }

  /** A race runs and the silence check is on. */
  predicate Racing(look: Look)
  {
    look.running == Some(true) && look.silenceMs.Some? && look.silenceMs.value > 0
  }

  predicate SilentTooLong(s: State, look: Look)
    requires look.silenceMs.Some? && s.lastMessage.Some?
  {
    look.now - s.lastMessage.value >= look.silenceMs.value * NANOS_PER_MS
  }

  /** Nothing is for a tick to decide: the transport has spoken, no reader is watched, or the threshold
      could not be read. */
  predicate StandsDown(s: State, look: Look)
  {
    s.transportDown || !s.watching || s.lastMessage.None? || look.heartbeatMs.None?
  }

  /** `after` is `before` with a suspected gap opened as of `since`, where none was open. */
  ghost predicate OpensSince(before: Edges, after: Edges, written: bool, since: int, look: Look)
  {
    if !written || GapOpen(before) then after == before
    else exists at :: after == before + [Opened(Suspected, at)] && Dated(at, since, look)
  }

  /** When a stretch began, by the wall clock, to the millisecond it is measured in; a stretch too long
      for `i64` milliseconds is dated to now. */
  predicate Dated(at: int, since: int, look: Look)
  {
    if look.now - since >= (I64_MAX + 1) * NANOS_PER_MS then at == look.wall
    else look.wall - (look.now - since) <= at < look.wall - (look.now - since) + NANOS_PER_MS
  }

  predicate ClosesNow(before: Edges, after: Edges, written: bool, look: Look)
  {
    after == if written && GapOpen(before) then before + [Closed(look.wall)] else before
  }

  lemma LongEnough(since: int, now: int, ms: nat)
    requires ms > 0
    ensures ElapsedMs(since, now) >= ms <==> now - since >= ms * NANOS_PER_MS
  {
  }

  lemma BeganIsDated(since: int, look: Look)
    requires look.now >= since
    ensures Dated(Began(look.wall, ElapsedMs(since, look.now)), since, look)
  {
    var d := look.now - since;
    assert d / NANOS_PER_MS * NANOS_PER_MS <= d < d / NANOS_PER_MS * NANOS_PER_MS + NANOS_PER_MS;
  }

  /** Where it stands down a tick does nothing at all. */
  lemma StandingDownDoesNothing(s: State, look: Look)
    requires StandsDown(s, look)
    ensures Next(s, Tick(look)) == s
  {
  }

  /** The heartbeat check's whole effect. */
  ghost predicate Beaten(s: State, mid: State, look: Look)
  {
    && mid == s.(heartbeatGap := mid.heartbeatGap, edges := mid.edges)
    && (mid.heartbeatGap <==> QuietTooLong(s, look))
    && (if QuietTooLong(s, look) then
          OpensSince(s.edges, mid.edges, look.heartbeatWritten, s.lastHeard.value, look)
        else if s.heartbeatGap then ClosesNow(s.edges, mid.edges, look.heartbeatWritten, look)
        else mid.edges == s.edges)
  }

  /** And then the silence check's: none while the reader is quiet altogether, and none outside a race. */
  ghost predicate Hushed(mid: State, after: State, look: Look)
    requires mid.lastMessage.Some?
  {
    && after == mid.(edges := after.edges)
    && (if mid.heartbeatGap || !Racing(look) then after.edges == mid.edges
        else if SilentTooLong(mid, look) then
          OpensSince(mid.edges, after.edges, look.silenceWritten, mid.lastMessage.value, look)
        else ClosesNow(mid.edges, after.edges, look.silenceWritten, look))
  }

  lemma BeatOf(s: State, look: Look)
    requires look.heartbeatMs.Some?
    ensures Beaten(s, Heartbeat(s, s, look), look)
    ensures HeartbeatSays(s, look).HeartbeatOpen? <==> QuietTooLong(s, look)
    ensures HeartbeatSays(s, look).HeartbeatIdle? ==> !s.heartbeatGap
  {
    if s.lastHeard.Some? && look.heartbeatMs.value > 0 {
      LongEnough(s.lastHeard.value, look.now, look.heartbeatMs.value);
    }
    if QuietTooLong(s, look) {
      BeganIsDated(s.lastHeard.value, look);
      assert Heartbeat(s, s, look).edges == if look.heartbeatWritten && !GapOpen(s.edges)
                then s.edges + [Opened(Suspected, Began(look.wall, QuietMs(s, look)))] else s.edges;
    }
  }

  lemma HushOf(guards: State, mid: State, look: Look)
    requires guards.lastMessage == mid.lastMessage && mid.lastMessage.Some? && !mid.heartbeatGap
    ensures Hushed(mid, Silence(guards, mid, look), look)
  {
    if Racing(look) {
      LongEnough(mid.lastMessage.value, look.now, look.silenceMs.value);
      if SilentTooLong(mid, look) {
        BeganIsDated(mid.lastMessage.value, look);
        assert Silence(guards, mid, look).edges == if look.silenceWritten && !GapOpen(mid.edges)
                  then mid.edges + [Opened(Suspected, Began(look.wall, SilentMs(guards, look)))] else mid.edges;
      }
    }
  }

  /** Otherwise a tick is the one and then the other, to the row, the instant and the belief. */
  lemma TickDoesBoth(s: State, look: Look) returns (mid: State)
    requires !StandsDown(s, look)
    ensures Beaten(s, mid, look) && Hushed(mid, Next(s, Tick(look)), look)
  {
    mid := Heartbeat(s, s, look);
    BeatOf(s, look);
    if !mid.heartbeatGap {
      HushOf(s, mid, look);
    }
  }

  /** With no race running, the silence check off or either unread, a tick writes only what the
      heartbeat check does, and nothing at all where that is off and no heartbeat gap stands. */
  lemma NoRaceNoSilence(s: State, look: Look)
    requires !StandsDown(s, look) && !Racing(look)
    ensures Beaten(s, Next(s, Tick(look)), look)
    ensures look.heartbeatMs == Some(0) && !s.heartbeatGap ==> Next(s, Tick(look)) == s
  {
    var mid := TickDoesBoth(s, look);
  }

  // ----- One event -----

  /** A connection's whole effect: the transport is up or down as it says, the heartbeat waits to hear
      the reader again, and only a connection restarts the silence. A loss opens a confirmed gap and a
      connection closes whatever is open, both as of now. */
  lemma ConnectionsWrite(s: State, lost: bool, now: int, wall: int, written: bool)
    ensures var after := Next(s, if lost then Disconnected(now, wall, written) else Connected(now, wall, written));
            && after.transportDown == lost && after.lastHeard == None && !after.heartbeatGap
            && after.watching == s.watching && after.lastMessage == (if lost then s.lastMessage else Some(now))
            && after.edges == (if !s.watching || !written || (lost <==> GapOpen(s.edges)) then s.edges
                               else if lost then s.edges + [Opened(Confirmed, wall)] else s.edges + [Closed(wall)])
  {
  }

  /** A sign of life, a read included, arms the heartbeat from its own instant; before one is heard on a
      connection the heartbeat is not armed. */
  lemma HearingArmsTheHeartbeat(s: State, at: int, reading: bool, look: Look)
    requires s.watching && s.lastMessage.Some? && !s.transportDown && look.heartbeatMs.Some?
    ensures var heard := Next(s, if reading then ReadArrived(at) else Alive(at));
            Next(heard, Tick(look)).heartbeatGap
            <==> look.heartbeatMs.value > 0 && look.now - at >= look.heartbeatMs.value * NANOS_PER_MS
  {
    var mid := TickDoesBoth(Next(s, if reading then ReadArrived(at) else Alive(at)), look);
  }

  lemma ConnectingDisarmsTheHeartbeat(s: State, now: int, wall: int, written: bool, look: Look)
    requires s.watching && look.heartbeatMs.Some?
    ensures !Next(Next(s, Connected(now, wall, written)), Tick(look)).heartbeatGap
  {
    var mid := TickDoesBoth(Next(s, Connected(now, wall, written)), look);
  }

  /** Silence is measured from the last read or connection, and from no other sign of life: a tick in a
      race, the heartbeat off and the row written, leaves a gap open exactly when that was too long ago. */
  lemma SilenceRunsFromTheLastRead(s: State, at: int, wall: int, look: Look)
    requires s.watching && s.lastMessage.Some? && !s.transportDown
    requires Racing(look) && look.heartbeatMs == Some(0) && look.silenceWritten
    ensures GapOpen(Next(Next(s, ReadArrived(at)), Tick(look)).edges)
            <==> look.now - at >= look.silenceMs.value * NANOS_PER_MS
    ensures GapOpen(Next(Next(s, Connected(at, wall, true)), Tick(look)).edges)
            <==> look.now - at >= look.silenceMs.value * NANOS_PER_MS
    ensures GapOpen(Next(Next(s, Alive(at)), Tick(look)).edges)
            <==> look.now - s.lastMessage.value >= look.silenceMs.value * NANOS_PER_MS
  {
    var a := TickDoesBoth(Next(s, ReadArrived(at)), look);
    var b := TickDoesBoth(Next(s, Connected(at, wall, true)), look);
    var c := TickDoesBoth(Next(s, Alive(at)), look);
  }

  // ----- Runs -----

  /** Nothing but reads, signs of life, and ticks with the heartbeat off that see no race. */
  predicate Idling(step: Step)
  {
    match step
    case ReadArrived(_) => true
    case Alive(_) => true
    case Quiet => true
    case Tick(look) => look.heartbeatMs == Some(0) && !Racing(look)
    case _ => false
  }

  /** While no race runs and the heartbeat is off, no number of ticks adds a row. */
  lemma {:induction false} NoRaceNoRows(s: State, steps: seq<Step>)
    requires !s.heartbeatGap && forall i :: 0 <= i < |steps| ==> Idling(steps[i])
    ensures Run(s, steps).edges == s.edges && !Run(s, steps).heartbeatGap
  {
    if steps != [] {
      var front, last := steps[..|steps| - 1], steps[|steps| - 1];
      NoRaceNoRows(s, front);
      assert Idling(last);
      if last.Tick? && !StandsDown(Run(s, front), last.look) {
        NoRaceNoSilence(Run(s, front), last.look);
      }
    }
  }
}
