/** Merging chip crossings with manual entries, and numbering laps from the gun. */
module Laps {
  import opened Ordering
  import opened Domain
  import opened Naming

  /** One piece of evidence that a participant was somewhere, whichever kind it is. */
  datatype Source = Source(at: Time, participant: Uuid, checkpoint: Uuid, race: bool, origin: Origin)

  function OriginId(o: Origin): Uuid
  {
    match o
    case FromCrossing(id) => id
    case FromManual(id) => id
  }

  /** By time, then crossings ahead of entries, then by identifier. */
  function SourceKey(s: Source): Key
  {
    [s.at, if s.origin.FromCrossing? then 0 else 1, OriginId(s.origin)]
  }

  /** A participant at a checkpoint: what laps are counted per. */
  type Post = (Uuid, Uuid)

  function PostOf(s: Source): Post
  {
    (s.participant, s.checkpoint)
  }

  predicate Counts(s: Source, post: Post)
  {
    s.race && PostOf(s) == post
  }

  /** Race-side evidence for a participant at a checkpoint among the first `n`. */
  function RaceCount(sources: seq<Source>, n: nat, post: Post): nat
    requires n <= |sources|
  {
    if n == 0 then 0 else RaceCount(sources, n - 1, post) + if Counts(sources[n - 1], post) then 1 else 0
  }

  /** `u16` counting that stops at its ceiling. */
  function ToLap(count: nat): U16
  {
    if count <= U16_MAX then count else U16_MAX
  }

  function LapAt(sources: seq<Source>, i: nat): U16
    requires i < |sources|
  {
    if !sources[i].race then 0 else ToLap(RaceCount(sources, i + 1, PostOf(sources[i])))
  }

  function EventOf(v5: string -> Uuid, s: Source, lap: U16): TimingEvent
  {
    TimingEvent(v5(TimingEventName(s.participant, s.checkpoint, lap, OriginId(s.origin))),
                s.participant, s.checkpoint, s.at, lap, s.origin)
  }

  function Events(v5: string -> Uuid, sources: seq<Source>, n: nat): (events: seq<TimingEvent>)
    requires n <= |sources|
    ensures |events| == n
    ensures forall i :: 0 <= i < n ==> events[i] == EventOf(v5, sources[i], LapAt(sources, i))
  {
    seq(n, i requires 0 <= i < n => EventOf(v5, sources[i], LapAt(sources, i)))
  }

  function CounterAt(counters: map<Post, U16>, post: Post): U16
  {
    if post in counters then counters[post] else 0
  }

  ghost predicate CountersRight(counters: map<Post, U16>, sources: seq<Source>, n: nat)
    requires n <= |sources|
  {
    forall post :: CounterAt(counters, post) == ToLap(RaceCount(sources, n, post))
  }

  method NumberLaps(v5: string -> Uuid, sources: seq<Source>) returns (events: seq<TimingEvent>)
    ensures events == Events(v5, sources, |sources|)
  {
    events := [];
    var lapCounters: map<Post, U16> := map[];
    for i := 0 to |sources|
      invariant events == Events(v5, sources, i)
      invariant CountersRight(lapCounters, sources, i)
    {
      CountersNext(lapCounters, sources, i);
      var s := sources[i];
      var lap: U16 := 0;
      if s.race {
        var counter := CounterAt(lapCounters, PostOf(s));
        lap := if counter < U16_MAX then counter + 1 else U16_MAX;
        lapCounters := lapCounters[PostOf(s) := lap];
      }
      events := events + [EventOf(v5, s, lap)];
    }
  }

  /** The counters once the source numbered `n` is through. */
  function Counted(counters: map<Post, U16>, s: Source): map<Post, U16>
  {
    if !s.race then counters
    else
      var counter := CounterAt(counters, PostOf(s));
      counters[PostOf(s) := if counter < U16_MAX then counter + 1 else U16_MAX]
  }

  lemma CountersNext(counters: map<Post, U16>, sources: seq<Source>, n: nat)
    requires n < |sources| && CountersRight(counters, sources, n)
    ensures CountersRight(Counted(counters, sources[n]), sources, n + 1)
    ensures sources[n].race ==> CounterAt(Counted(counters, sources[n]), PostOf(sources[n])) == LapAt(sources, n)
  {
    var next, s := Counted(counters, sources[n]), sources[n];
    forall post
      ensures CounterAt(next, post) == ToLap(RaceCount(sources, n + 1, post))
    {
      assert CounterAt(counters, post) == ToLap(RaceCount(sources, n, post));
      assert Counts(s, post) <==> s.race && post == PostOf(s);
    }
  }

  // ----- What the numbers mean -----

  lemma {:induction false} RaceCountSteps(sources: seq<Source>, i: nat, j: nat, post: Post)
    requires i <= j <= |sources|
    ensures RaceCount(sources, i, post) <= RaceCount(sources, j, post)
    ensures NoneCounts(sources, i, j, post) ==> RaceCount(sources, i, post) == RaceCount(sources, j, post)
  {
    if i < j {
      RaceCountSteps(sources, i, j - 1, post);
    }
  }

  ghost function Counting(sources: seq<Source>, n: nat, post: Post): set<nat>
    requires n <= |sources|
  {
    set i: nat | i < n && Counts(sources[i], post)
  }

  /** The running count is the number of race-side sources so far. */
  lemma {:induction false} RaceCountCounts(sources: seq<Source>, n: nat, post: Post)
    requires n <= |sources|
    ensures RaceCount(sources, n, post) == |Counting(sources, n, post)|
  {
    if n == 0 {
      assert Counting(sources, 0, post) == {};
    } else {
      RaceCountCounts(sources, n - 1, post);
      assert Counting(sources, n, post)
          == Counting(sources, n - 1, post) + if Counts(sources[n - 1], post) then {n - 1} else {};
    }
  }

  ghost predicate NoneCounts(sources: seq<Source>, i: nat, j: nat, post: Post)
    requires j <= |sources|
  {
    forall k :: i <= k < j ==> !Counts(sources[k], post)
  }

  /** A participant's race-side events at a checkpoint carry 1, 2, 3, ... in order, up to the
      ceiling, chips and entries counted together. Everything else carries 0. */
  lemma LapsAreConsecutive(sources: seq<Source>, j: nat)
    requires j < |sources|
    ensures !sources[j].race ==> LapAt(sources, j) == 0
    ensures sources[j].race && NoneCounts(sources, 0, j, PostOf(sources[j])) ==> LapAt(sources, j) == 1
    ensures forall i :: 0 <= i < j && Precedes(sources, i, j) ==>
              LapAt(sources, j) == if LapAt(sources, i) < U16_MAX then LapAt(sources, i) + 1 else U16_MAX
  {
    RaceCountSteps(sources, 0, j, PostOf(sources[j]));
    forall i | 0 <= i < j && Precedes(sources, i, j)
      ensures LapAt(sources, j) == if LapAt(sources, i) < U16_MAX then LapAt(sources, i) + 1 else U16_MAX
    {
      RaceCountSteps(sources, i + 1, j, PostOf(sources[j]));
    }
  }

  /** Two race-side events of a participant at a checkpoint, one after the other. */
  ghost predicate Precedes(sources: seq<Source>, i: nat, j: nat)
    requires i < j < |sources|
  {
    var post := PostOf(sources[j]);
    sources[j].race && Counts(sources[i], post) && NoneCounts(sources, i + 1, j, post)
  }

  /** A participant's laps at a checkpoint go down only where the race side is left. */
  lemma LapsNeverDrop(sources: seq<Source>, i: nat, j: nat)
    requires i < j < |sources| && PostOf(sources[i]) == PostOf(sources[j])
    ensures LapAt(sources, i) <= LapAt(sources, j) <==> (sources[i].race ==> sources[j].race)
  {
    RaceCountSteps(sources, i + 1, j + 1, PostOf(sources[j]));
  }
}
