/** Noticing that a reader has stopped: what the transport reports, what silence suggests, and how
    the two are kept from arguing. Instants are nanoseconds of the monotonic clock. */
module Watchdog {
  import opened Ordering
  import opened Domain

  datatype Detection = Confirmed | Suspected

  /** One row of the gap table, for the reader being watched. */
  datatype GapEdge = Opened(detection: Detection, at: int) | Closed(closedAt: int)

  type Edges = seq<GapEdge>

  predicate GapOpen(edges: Edges)
  {
    edges != [] && edges[|edges| - 1].Opened?
  }

  /** `open_reader_gap`: the gap already open, or a new one. */
  function OpenGap(edges: Edges, detection: Detection, at: int): Edges
  {
    if GapOpen(edges) then edges else edges + [Opened(detection, at)]
  }

  /** `close_reader_gap`: closes whatever is open, and writes nothing if nothing is. */
  function CloseGap(edges: Edges, at: int): Edges
  {
    if GapOpen(edges) then edges + [Closed(at)] else edges
  }

  // ----- Verdicts -----

  datatype SilenceVerdict = SilenceIdle | SilenceOpen | SilenceClose

  function AssessSilence(thresholdMs: nat, running: bool, silentForMs: nat): SilenceVerdict
  {
    if thresholdMs == 0 || !running then SilenceIdle
    else if silentForMs >= thresholdMs then SilenceOpen
    else SilenceClose
  }

  datatype HeartbeatVerdict = HeartbeatIdle | HeartbeatOpen | HeartbeatClose

  function AssessHeartbeat(thresholdMs: nat, heard: bool, quietForMs: nat, open: bool): HeartbeatVerdict
  {
    if thresholdMs == 0 || !heard then (if open then HeartbeatClose else HeartbeatIdle)
    else if quietForMs >= thresholdMs then HeartbeatOpen
    else if open then HeartbeatClose
    else HeartbeatIdle
  }

  /** While a heartbeat gap stands the heartbeat check always has a verdict, so the source's last
      guard against one is never reached. */
  lemma StandingGapIsJudged(thresholdMs: nat, heard: bool, quietForMs: nat)
    ensures AssessHeartbeat(thresholdMs, heard, quietForMs, true) != HeartbeatIdle
  {
  }

  // ----- State -----

  /** What the process believes of its reader, and the rows it has written. */
  datatype State = State(
    watching: bool,
    lastMessage: Option<int>,
    transportDown: bool,
    lastHeard: Option<int>,
    heartbeatGap: bool,
    edges: Edges)

  /** A tick's clocks, the thresholds and race state as read (`None` where reading failed), and
      whether each write succeeds. */
  datatype Look = Look(
    now: int,
    wall: int,
    heartbeatMs: Option<nat>,
    silenceMs: Option<nat>,
    running: Option<bool>,
    heartbeatWritten: bool,
    silenceWritten: bool)

  /** Milliseconds since an instant; none if it is ahead. */
  function ElapsedMs(since: int, now: int): nat
  {
    if now < since then 0 else (now - since) / NANOS_PER_MS
  }

  /** The wall-clock instant a stretch of so many milliseconds began. */
  function Began(wall: int, forMs: nat): int
  {
    wall - (if forMs <= I64_MAX then forMs else 0) * NANOS_PER_MS
  }

  datatype Step =
    | ReadArrived(now: int)
    | Alive(now: int)
    | Quiet
    | Connected(now: int, wall: int, written: bool)
    | Disconnected(now: int, wall: int, written: bool)
    | Tick(look: Look)

  function AfterConnection(s: State, lost: bool, now: int, wall: int, written: bool): State
  {
    var edges :=
      if !s.watching || !written then s.edges
      else if lost then OpenGap(s.edges, Confirmed, wall)
      else CloseGap(s.edges, wall);
    State(s.watching, if lost then s.lastMessage else Some(now), lost, None, false, edges)
  }

  function QuietMs(guards: State, look: Look): nat
  {
    if guards.lastHeard.Some? then ElapsedMs(guards.lastHeard.value, look.now) else 0
  }

  function SilentMs(guards: State, look: Look): nat
  {
    if guards.lastMessage.Some? then ElapsedMs(guards.lastMessage.value, look.now) else 0
  }

  function HeartbeatSays(guards: State, look: Look): HeartbeatVerdict
    requires look.heartbeatMs.Some?
  {
    AssessHeartbeat(look.heartbeatMs.value, guards.lastHeard.Some?, QuietMs(guards, look), guards.heartbeatGap)
  }

  /** The heartbeat check's share of a tick. */
  function Heartbeat(guards: State, s: State, look: Look): State
    requires look.heartbeatMs.Some?
  {
    match HeartbeatSays(guards, look)
    case HeartbeatIdle => s
    case HeartbeatOpen =>
      s.(heartbeatGap := true,
         edges := if look.heartbeatWritten then OpenGap(s.edges, Suspected, Began(look.wall, QuietMs(guards, look)))
                  else s.edges)
    case HeartbeatClose =>
      s.(heartbeatGap := false, edges := if look.heartbeatWritten then CloseGap(s.edges, look.wall) else s.edges)
  }

  /** The read-silence check's share. */
  function Silence(guards: State, s: State, look: Look): State
  {
    if look.silenceMs.None? || look.running.None? || !look.silenceWritten then s
    else
      match AssessSilence(look.silenceMs.value, look.running.value, SilentMs(guards, look))
      case SilenceIdle => s
      case SilenceOpen => s.(edges := OpenGap(s.edges, Suspected, Began(look.wall, SilentMs(guards, look))))
      case SilenceClose => s.(edges := CloseGap(s.edges, look.wall))
  }

  /** A tick acts on the guards it read under one lock and the state it finds under another. */
  function Act(guards: State, s: State, look: Look): State
  {
    if guards.transportDown || !guards.watching || guards.lastMessage.None? || look.heartbeatMs.None? then s
    else
      var beat := Heartbeat(guards, s, look);
      if HeartbeatSays(guards, look).HeartbeatOpen?
         || (HeartbeatSays(guards, look).HeartbeatIdle? && guards.heartbeatGap)
      then beat
      else Silence(guards, beat, look)
  }

  function Next(s: State, step: Step): State
  {
    match step
    case ReadArrived(now) => s.(lastMessage := Some(now), lastHeard := Some(now))
    case Alive(now) => s.(lastHeard := Some(now))
    case Quiet => s
    case Connected(now, wall, written) => AfterConnection(s, false, now, wall, written)
    case Disconnected(now, wall, written) => AfterConnection(s, true, now, wall, written)
    case Tick(look) => Act(s, s, look)
  }

  // ----- The service -----

  class Service {
    var watching: bool
    var lastMessage: Option<int>
    var transportDown: bool
    var lastHeard: Option<int>
    var heartbeatGap: bool
    var edges: Edges

    function View(): State
      reads this
    {
      State(watching, lastMessage, transportDown, lastHeard, heartbeatGap, edges)
    }

    /** A service composed with a reader at `now`, over whatever gaps earlier runs left. */
    constructor Composed(now: int, earlier: Edges)
      ensures View() == Started(now, earlier)
    {
      watching, lastMessage, transportDown := true, Some(now), false;
      lastHeard, heartbeatGap, edges := None, false, earlier;
    }

    method OnRead(now: int)
      modifies this
      ensures View() == Next(old(View()), ReadArrived(now))
    {
      lastMessage := Some(now);
      lastHeard := Some(now);
    }

    method OnAlive(now: int)
      modifies this
      ensures View() == Next(old(View()), Alive(now))
    {
      lastHeard := Some(now);
    }

    method OpenReaderGap(detection: Detection, at: int, written: bool)
      modifies this`edges
      ensures edges == if written then OpenGap(old(edges), detection, at) else old(edges)
    {
      if written && !GapOpen(edges) {
        edges := edges + [Opened(detection, at)];
      }
    }

    method CloseReaderGap(at: int, written: bool)
      modifies this`edges
      ensures edges == if written then CloseGap(old(edges), at) else old(edges)
    {
      if written && GapOpen(edges) {
        edges := edges + [Closed(at)];
      }
    }

    method RecordConnection(lost: bool, now: int, wall: int, written: bool)
      modifies this
      ensures View() == Next(old(View()), if lost then Disconnected(now, wall, written)
                                          else Connected(now, wall, written))
    {
      transportDown := lost;
      lastHeard := None;
      heartbeatGap := false;
      if !lost {
        lastMessage := Some(now);
      }
      if !watching {
        return;
      }
      if lost {
        OpenReaderGap(Confirmed, wall, written);
      } else {
        CloseReaderGap(wall, written);
      }
    }

    method CheckForSilence(look: Look)
      modifies this
      ensures View() == Next(old(View()), Tick(look))
    {
      if transportDown {
        return;
      }
      if !watching || lastMessage.None? {
        return;
      }
      if look.heartbeatMs.None? {
        return;
      }
      var quietForMs := if lastHeard.Some? then ElapsedMs(lastHeard.value, look.now) else 0;
      var heartbeat := AssessHeartbeat(look.heartbeatMs.value, lastHeard.Some?, quietForMs, heartbeatGap);
      if heartbeat != HeartbeatIdle {
        var opening := heartbeat == HeartbeatOpen;
        if opening {
          OpenReaderGap(Suspected, Began(look.wall, quietForMs), look.heartbeatWritten);
        } else {
          CloseReaderGap(look.wall, look.heartbeatWritten);
        }
        heartbeatGap := opening;
        if opening {
          return;
        }
      } else if heartbeatGap {
        return;
      }
      if look.silenceMs.None? || look.running.None? {
        return;
      }
      var silentForMs := ElapsedMs(lastMessage.value, look.now);
      match AssessSilence(look.silenceMs.value, look.running.value, silentForMs) {
        case SilenceIdle =>
        case SilenceOpen => OpenReaderGap(Suspected, Began(look.wall, silentForMs), look.silenceWritten);
        case SilenceClose => CloseReaderGap(look.wall, look.silenceWritten);
      }
    }
  }

  // ----- Edges alternate, whatever interleaves -----

  /** Opened and closed in turn, starting with an opening. */
  predicate Alternating(edges: Edges)
  {
    forall i :: 0 <= i < |edges| ==> (edges[i].Opened? <==> i % 2 == 0)
  }

  /** What happens at once: the work done under one lock. A tick and a connection are each several
      of these, and other threads' work can come between them. */
  datatype Half =
    | HeartbeatRow(guards: State, look: Look)
    | HeartbeatBelief(guards: State, look: Look)
    | SilenceRow(guards: State, look: Look)
    | ConnectionBelief(lost: bool, at: int)
    | ConnectionRow(lost: bool, wall: int, written: bool)
    | Heard(at: int, reading: bool)

  function NextHalf(s: State, half: Half): State
  {
    match half
    case HeartbeatRow(guards, look) =>
      if look.heartbeatMs.None? then s else s.(edges := Heartbeat(guards, s, look).edges)
    case HeartbeatBelief(guards, look) =>
      if look.heartbeatMs.None? then s else s.(heartbeatGap := Heartbeat(guards, s, look).heartbeatGap)
    case SilenceRow(guards, look) => Silence(guards, s, look)
    case ConnectionBelief(lost, at) =>
      State(s.watching, if lost then s.lastMessage else Some(at), lost, None, false, s.edges)
    case ConnectionRow(lost, wall, written) =>
      if !s.watching || !written then s
      else s.(edges := if lost then OpenGap(s.edges, Confirmed, wall) else CloseGap(s.edges, wall))
    case Heard(at, reading) => s.(lastHeard := Some(at), lastMessage := if reading then Some(at) else s.lastMessage)
  }

  function RunHalves(s: State, halves: seq<Half>): State
  {
    if halves == [] then s else NextHalf(RunHalves(s, halves[..|halves| - 1]), halves[|halves| - 1])
  }

  /** The halves of a tick that read these guards. */
  function TickHalves(guards: State, look: Look): seq<Half>
  {
    if guards.transportDown || !guards.watching || guards.lastMessage.None? || look.heartbeatMs.None? then []
    else
      match HeartbeatSays(guards, look)
      case HeartbeatOpen => [HeartbeatRow(guards, look), HeartbeatBelief(guards, look)]
      case HeartbeatClose => [HeartbeatRow(guards, look), HeartbeatBelief(guards, look), SilenceRow(guards, look)]
      case HeartbeatIdle => if guards.heartbeatGap then [] else [SilenceRow(guards, look)]
  }

  function HalvesOf(s: State, step: Step): seq<Half>
  {
    match step
    case ReadArrived(now) => [Heard(now, true)]
    case Alive(now) => [Heard(now, false)]
    case Quiet => []
    case Connected(now, wall, written) => [ConnectionBelief(false, now), ConnectionRow(false, wall, written)]
    case Disconnected(now, wall, written) => [ConnectionBelief(true, now), ConnectionRow(true, wall, written)]
    case Tick(look) => TickHalves(s, look)
  }

  lemma RunTwo(s: State, a: Half, b: Half)
    ensures RunHalves(s, [a]) == NextHalf(s, a)
    ensures RunHalves(s, [a, b]) == NextHalf(NextHalf(s, a), b)
  {
    assert [a, b][..1] == [a] && [a][..0] == [];
  }

  lemma RunThree(s: State, a: Half, b: Half, c: Half)
    ensures RunHalves(s, [a, b, c]) == NextHalf(NextHalf(NextHalf(s, a), b), c)
  {
    assert [a, b, c][..2] == [a, b];
    RunTwo(s, a, b);
  }

  /** Done without a break, a tick's halves are the tick, whatever guards it read. */
  lemma TickIsItsHalves(guards: State, s: State, look: Look)
    ensures RunHalves(s, TickHalves(guards, look)) == Act(guards, s, look)
  {
    var row, belief, silence := HeartbeatRow(guards, look), HeartbeatBelief(guards, look), SilenceRow(guards, look);
    RunTwo(s, row, belief);
    RunThree(s, row, belief, silence);
    RunTwo(s, silence, silence);
  }

  /** And so are any step's. */
  lemma StepIsItsHalves(s: State, step: Step)
    ensures RunHalves(s, HalvesOf(s, step)) == Next(s, step)
  {
    match step
    case ReadArrived(now) => RunTwo(s, Heard(now, true), Heard(now, true));
    case Alive(now) => RunTwo(s, Heard(now, false), Heard(now, false));
    case Quiet =>
    case Connected(now, wall, written) => RunTwo(s, ConnectionBelief(false, now), ConnectionRow(false, wall, written));
    case Disconnected(now, wall, written) => RunTwo(s, ConnectionBelief(true, now), ConnectionRow(true, wall, written));
    case Tick(look) => TickIsItsHalves(s, s, look);
  }

  /** However the halves of any steps interleave, and however stale the guards ticks act on, opened
      and closed rows alternate and none is taken back. */
  lemma {:induction false} EdgesAlternate(s: State, halves: seq<Half>)
    requires Alternating(s.edges)
    ensures Alternating(RunHalves(s, halves).edges) && s.edges <= RunHalves(s, halves).edges
  {
    if halves != [] {
      var front := halves[..|halves| - 1];
      EdgesAlternate(s, front);
      HalfAlternates(RunHalves(s, front), halves[|halves| - 1]);
    }
  }

  lemma HalfAlternates(s: State, half: Half)
    requires Alternating(s.edges)
    ensures Alternating(NextHalf(s, half).edges) && s.edges <= NextHalf(s, half).edges
  {
    match half
    case HeartbeatRow(guards, look) =>
      AlternationStep(s.edges, Suspected, Began(look.wall, QuietMs(guards, look)));
      AlternationStep(s.edges, Suspected, look.wall);
    case SilenceRow(guards, look) =>
      AlternationStep(s.edges, Suspected, Began(look.wall, SilentMs(guards, look)));
      AlternationStep(s.edges, Suspected, look.wall);
    case ConnectionRow(_, wall, _) => AlternationStep(s.edges, Confirmed, wall);
    case _ =>
  }

  lemma AlternationStep(edges: Edges, detection: Detection, at: int)
    requires Alternating(edges)
    ensures Alternating(OpenGap(edges, detection, at)) && Alternating(CloseGap(edges, at))
    ensures edges <= OpenGap(edges, detection, at) && edges <= CloseGap(edges, at)
  {
    if GapOpen(edges) {
      assert (|edges| - 1) % 2 == 0;
    } else if edges != [] {
      assert (|edges| - 1) % 2 == 1;
    }
  }

  // ----- The two detectors do not argue -----

  predicate Written(step: Step)
  {
    match step
    case Connected(_, _, written) => written
    case Disconnected(_, _, written) => written
    case Tick(look) => look.heartbeatWritten && look.silenceWritten
    case _ => true
  }

  /** What the process believes: a heartbeat gap stands only while the transport is up and the reader
      was heard on this connection. */
  ghost predicate Believed(s: State)
  {
    s.watching && s.lastMessage.Some? && (s.heartbeatGap ==> !s.transportDown && s.lastHeard.Some?)
  }

  /** And the rows bear it out: a lost transport has a gap open, and so has a heartbeat that stopped. */
  ghost predicate Guarded(s: State)
  {
    Believed(s) && (s.transportDown || s.heartbeatGap ==> GapOpen(s.edges))
  }

  /** The step writes the opening row it is due, if no gap is open yet. */
  predicate Recorded(s: State, step: Step)
  {
    match step
    case Disconnected(_, _, written) => written || GapOpen(s.edges)
    case Tick(look) =>
      s.transportDown || look.heartbeatMs.None? || !HeartbeatSays(s, look).HeartbeatOpen?
      || look.heartbeatWritten || GapOpen(s.edges)
    case _ => true
  }

  /** The beliefs survive every step, and the rows exactly those that write the opening they owe;
      a closing that fails to be written does them no harm. */
  lemma GuardsHold(s: State, step: Step)
    ensures Believed(s) ==> Believed(Next(s, step))
    ensures Guarded(s) ==> (Guarded(Next(s, step)) <==> Recorded(s, step))
  {
  }

  function Run(s: State, steps: seq<Step>): State
  {
    if steps == [] then s else Next(Run(s, steps[..|steps| - 1]), steps[|steps| - 1])
  }

  /** A service just composed with a reader, over whatever gaps earlier runs left. */
  function Started(now: int, earlier: Edges): State
  {
    State(true, Some(now), false, None, false, earlier)
  }

  lemma {:induction false} BeliefsHold(now: int, earlier: Edges, steps: seq<Step>)
    ensures Believed(Run(Started(now, earlier), steps))
  {
    if steps != [] {
      BeliefsHold(now, earlier, steps[..|steps| - 1]);
    }
  }

  ghost predicate GuardedTo(now: int, earlier: Edges, steps: seq<Step>, n: nat)
    requires n <= |steps|
  {
    forall i :: 0 <= i <= n ==> Guarded(Run(Started(now, earlier), steps[..i]))
  }

  ghost predicate RecordedTo(now: int, earlier: Edges, steps: seq<Step>, n: nat)
    requires n <= |steps|
  {
    forall i :: 0 <= i < n ==> Recorded(Run(Started(now, earlier), steps[..i]), steps[i])
  }

  /** The guards hold in every state of a run of atomic events and ticks exactly when every step of
      it writes the opening row it owes. */
  lemma {:induction false} GuardsHoldThroughout(now: int, earlier: Edges, steps: seq<Step>, n: nat)
    requires n <= |steps|
    ensures GuardedTo(now, earlier, steps, n) <==> RecordedTo(now, earlier, steps, n)
  {
    if n > 0 {
      GuardsHoldThroughout(now, earlier, steps, n - 1);
      var before := Run(Started(now, earlier), steps[..n - 1]);
      assert steps[..n][..n - 1] == steps[..n - 1];
      assert Run(Started(now, earlier), steps[..n]) == Next(before, steps[n - 1]);
      GuardsHold(before, steps[n - 1]);
    }
  }

  /** A gap the transport reported is ended by the transport alone: nothing else touches it, and a
      connection ends it if its row is written. */
  lemma OnlyConnectedEndsAnOutage(s: State, step: Step)
    requires Guarded(s) && s.transportDown
    ensures Next(s, step).transportDown <==> !step.Connected?
    ensures !step.Connected? ==> Next(s, step).edges == s.edges
    ensures step.Connected? ==> (GapOpen(Next(s, step).edges) <==> !step.written)
  {
  }

  /** What a tick decides, with a race running, thresholds read, and the transport up: which way it
      moves the gap, and that a row it fails to write leaves the gap as it was. With both rows written
      and no heartbeat gap left standing, a gap is open exactly when silence has reached its threshold. */
  lemma TickDecides(s: State, look: Look)
    requires Believed(s) && !s.transportDown
    requires look.heartbeatMs.Some? && look.silenceMs.Some? && look.silenceMs.value > 0 && look.running == Some(true)
    ensures var after := Next(s, Tick(look));
            var left := GapOpen(s.edges) && !(s.heartbeatGap && look.heartbeatWritten);
            && (after.heartbeatGap <==> look.heartbeatMs.value > 0 && s.lastHeard.Some?
                                        && QuietMs(s, look) >= look.heartbeatMs.value)
            && (after.heartbeatGap ==> (GapOpen(after.edges) <==> GapOpen(s.edges) || look.heartbeatWritten))
            && (!after.heartbeatGap ==>
                  (GapOpen(after.edges) <==>
                     if SilentMs(s, look) >= look.silenceMs.value then left || look.silenceWritten
                     else left && !look.silenceWritten))
            && (!after.heartbeatGap && look.silenceWritten ==>
                  (GapOpen(after.edges) <==> SilentMs(s, look) >= look.silenceMs.value))
  {
  }

  // ----- What the two locks cost -----

  /** A tick that read its guards before the port died can act after, and close the confirmed gap
      the loss had just opened. */
  lemma StaleTickEndsAnOutage()
    ensures var before := State(true, Some(0), false, None, false, []);
            var lost := Next(before, Disconnected(1, 1, true));
            var look := Look(2, 2, Some(0), Some(120_000), Some(true), true, true);
            && Guarded(lost) && lost.transportDown && GapOpen(lost.edges)
            && !GapOpen(Act(before, lost, look).edges)
  {
    var before := State(true, Some(0), false, None, false, []);
    assert Next(before, Disconnected(1, 1, true)).edges == [Opened(Confirmed, 1)];
  }

  /** Whether a tick's guards lead it to close a gap without opening one. */
  predicate Closes(guards: State, look: Look)
  {
    && !guards.transportDown && guards.watching && guards.lastMessage.Some? && look.heartbeatMs.Some?
    && !HeartbeatSays(guards, look).HeartbeatOpen?
    && var silence := if look.silenceMs.Some? && look.running.Some?
                      then AssessSilence(look.silenceMs.value, look.running.value, SilentMs(guards, look))
                      else SilenceIdle;
       silence.SilenceClose? || (HeartbeatSays(guards, look).HeartbeatClose? && !silence.SilenceOpen?)
  }

  /** Acting late on a lost transport breaks the guard exactly when the stale guards say close. */
  lemma StaleTickBreaksExactly(guards: State, s: State, look: Look)
    requires Guarded(s) && s.transportDown && Written(Tick(look))
    ensures GapOpen(Act(guards, s, look).edges) <==> !Closes(guards, look)
  {
  }

  // ----- A silence is noticed in time -----

  /** Nothing but ticks, and news that is not a read: the race running, the heartbeat off. */
  ghost predicate Silent(step: Step, thresholdMs: nat)
  {
    match step
    case Alive(_) => true
    case Quiet => true
    case Tick(look) => look.heartbeatMs == Some(0) && look.silenceMs == Some(thresholdMs)
                       && look.running == Some(true) && look.heartbeatWritten && look.silenceWritten
    case _ => false
  }

  /** When the watchdog last looked, or the silence began. */
  function LastLook(t0: int, steps: seq<Step>): int
  {
    if steps == [] then t0
    else if steps[|steps| - 1].Tick? then steps[|steps| - 1].look.now
    else LastLook(t0, steps[..|steps| - 1])
  }

  /** Ticks come in time order, at most `d` apart, and the wall clock keeps to the monotonic one. */
  ghost predicate Steady(t0: int, steps: seq<Step>, d: nat, offset: int)
  {
    forall i :: 0 <= i < |steps| && steps[i].Tick? ==>
      && LastLook(t0, steps[..i]) <= steps[i].look.now <= LastLook(t0, steps[..i]) + d
      && steps[i].look.wall == steps[i].look.now + offset
  }

  /** A reader that is up and reading, with no gap open, last read at `t0`. */
  ghost predicate Reading(s: State, t0: int)
  {
    s.watching && s.lastMessage == Some(t0) && !s.transportDown && !s.heartbeatGap && !GapOpen(s.edges)
  }

  /** The one new row says when the silence began, to the millisecond it is measured in. */
  ghost predicate NoticedAs(edges: Edges, before: Edges, t0: int, offset: int)
  {
    exists at :: edges == before + [Opened(Suspected, at)] && t0 + offset <= at < t0 + offset + NANOS_PER_MS
  }

  /** Until the threshold is reached no gap is opened; from the first tick after it, one is. */
  lemma {:induction false} SilenceSoFar(s: State, t0: int, steps: seq<Step>, thresholdMs: nat, d: nat, offset: int)
    requires Reading(s, t0) && 0 < thresholdMs <= I64_MAX
    requires forall i :: 0 <= i < |steps| ==> Silent(steps[i], thresholdMs)
    requires Steady(t0, steps, d, offset)
    requires LastLook(t0, steps) - t0 <= I64_MAX * NANOS_PER_MS
    ensures t0 <= LastLook(t0, steps)
    ensures var after := Run(s, steps);
            && after == s.(lastHeard := after.lastHeard, edges := after.edges)
            && (if LastLook(t0, steps) < t0 + thresholdMs * NANOS_PER_MS then after.edges == s.edges
                else NoticedAs(after.edges, s.edges, t0, offset))
  {
    if steps != [] {
      var front, last := steps[..|steps| - 1], steps[|steps| - 1];
      FrontIsSteady(t0, steps, d, offset);
      SilenceSoFar(s, t0, front, thresholdMs, d, offset);
      assert Silent(last, thresholdMs);
      if last.Tick? {
        assert steps[..|steps| - 1] == front;
        SilentTick(s, Run(s, front), t0, LastLook(t0, front), last.look, thresholdMs, offset);
      }
    }
  }

  lemma FrontIsSteady(t0: int, steps: seq<Step>, d: nat, offset: int)
    requires steps != [] && Steady(t0, steps, d, offset)
    ensures Steady(t0, steps[..|steps| - 1], d, offset)
    ensures LastLook(t0, steps[..|steps| - 1]) <= LastLook(t0, steps)
  {
    var front := steps[..|steps| - 1];
    forall i | 0 <= i < |front| && front[i].Tick?
      ensures LastLook(t0, front[..i]) <= front[i].look.now <= LastLook(t0, front[..i]) + d
              && front[i].look.wall == front[i].look.now + offset
    {
      assert front[..i] == steps[..i];
    }
    if steps[|steps| - 1].Tick? {
      assert steps[..|steps| - 1] == front;
    }
  }

  lemma SilentTick(s: State, now: State, t0: int, previous: int, look: Look, thresholdMs: nat, offset: int)
    requires Reading(s, t0) && 0 < thresholdMs <= I64_MAX && Silent(Tick(look), thresholdMs)
    requires now == s.(lastHeard := now.lastHeard, edges := now.edges)
    requires t0 <= previous <= look.now && look.now - t0 <= I64_MAX * NANOS_PER_MS && look.wall == look.now + offset
    requires if previous < t0 + thresholdMs * NANOS_PER_MS then now.edges == s.edges
             else NoticedAs(now.edges, s.edges, t0, offset)
    ensures var after := Next(now, Tick(look));
            && after == s.(lastHeard := after.lastHeard, edges := after.edges)
            && (if look.now < t0 + thresholdMs * NANOS_PER_MS then after.edges == s.edges
                else NoticedAs(after.edges, s.edges, t0, offset))
  {
    var silent := SilentMs(now, look);
    assert silent == (look.now - t0) / NANOS_PER_MS <= I64_MAX;
    assert silent >= thresholdMs <==> look.now >= t0 + thresholdMs * NANOS_PER_MS;
    var at := Began(look.wall, silent);
    assert t0 + offset <= at < t0 + offset + NANOS_PER_MS;
    if silent >= thresholdMs && now.edges == s.edges {
      assert Next(now, Tick(look)).edges == s.edges + [Opened(Suspected, at)];
    }
  }

  /** However many times the reader says it is alive, or reports faults, a silence that began at
      `t0` has its gap open no later than the threshold and one tick after it, and never sooner
      than the threshold. */
  lemma SilenceIsNoticedInTime(s: State, t0: int, steps: seq<Step>, thresholdMs: nat, d: nat, offset: int)
    returns (i: nat)
    requires Reading(s, t0) && 0 < thresholdMs <= I64_MAX
    requires forall j :: 0 <= j < |steps| ==> Silent(steps[j], thresholdMs)
    requires Steady(t0, steps, d, offset)
    requires t0 + thresholdMs * NANOS_PER_MS <= LastLook(t0, steps) <= t0 + I64_MAX * NANOS_PER_MS
    ensures i < |steps| && steps[i].Tick?
    ensures t0 + thresholdMs * NANOS_PER_MS <= steps[i].look.now < t0 + thresholdMs * NANOS_PER_MS + d
    ensures Run(s, steps[..i]).edges == s.edges
    ensures NoticedAs(Run(s, steps[..i + 1]).edges, s.edges, t0, offset)
  {
    i := FirstLateTick(t0, steps, thresholdMs);
    PrefixIsSteady(t0, steps, d, offset, i);
    PrefixIsSteady(t0, steps, d, offset, i + 1);
    assert steps[..i + 1][..i] == steps[..i];
    SilenceSoFar(s, t0, steps[..i], thresholdMs, d, offset);
    SilenceSoFar(s, t0, steps[..i + 1], thresholdMs, d, offset);
  }

  lemma {:induction false} FirstLateTick(t0: int, steps: seq<Step>, thresholdMs: nat) returns (i: nat)
    requires 0 < thresholdMs && LastLook(t0, steps) >= t0 + thresholdMs * NANOS_PER_MS
    ensures i < |steps| && steps[i].Tick? && steps[i].look.now >= t0 + thresholdMs * NANOS_PER_MS
    ensures LastLook(t0, steps[..i]) < t0 + thresholdMs * NANOS_PER_MS
  {
    var n := |steps| - 1;
    if LastLook(t0, steps[..n]) >= t0 + thresholdMs * NANOS_PER_MS {
      i := FirstLateTick(t0, steps[..n], thresholdMs);
      assert steps[..n][..i] == steps[..i];
    } else {
      i := n;
    }
  }

  lemma {:induction false} PrefixIsSteady(t0: int, steps: seq<Step>, d: nat, offset: int, n: nat)
    requires Steady(t0, steps, d, offset) && n <= |steps|
    ensures Steady(t0, steps[..n], d, offset) && LastLook(t0, steps[..n]) <= LastLook(t0, steps)
  {
    if n < |steps| {
      FrontIsSteady(t0, steps, d, offset);
      var front := steps[..|steps| - 1];
      PrefixIsSteady(t0, front, d, offset, n);
      assert front[..n] == steps[..n];
    } else {
      assert steps[..n] == steps;
    }
  }
}
