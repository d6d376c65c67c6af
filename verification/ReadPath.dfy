/** Draining a reader into the journal: a read is counted when it is durable, retried for as long
    as it takes, and set aside only when the journal can never hold it. */
module ReadPath {
  import opened Ordering
  import opened Domain

  /** Whether the journal can represent a read depends on the read alone. */
  datatype RawRead = RawRead(id: Uuid, storable: bool)

  const RETRY_FIRST_MS := 100
  const RETRY_MAX_MS := 5_000

  datatype Stored = Journaled | SetAside | StillTrying

  function Doubled(delay: nat): nat
  {
    if 2 * delay < RETRY_MAX_MS then 2 * delay else RETRY_MAX_MS
  }

  /** The wait after the failure numbered `k`, from zero. */
  function Backoff(k: nat): nat
  {
    if k == 0 then RETRY_FIRST_MS else Doubled(Backoff(k - 1))
  }

  function Pow2(k: nat): nat
  {
    if k == 0 then 1 else 2 * Pow2(k - 1)
  }

  /** Doubling from a tenth of a second, and never above five seconds. */
  lemma {:induction false} BackoffDoubles(k: nat)
    ensures Backoff(k) == if k <= 5 then RETRY_FIRST_MS * Pow2(k) else RETRY_MAX_MS
    ensures RETRY_FIRST_MS <= Backoff(k) <= RETRY_MAX_MS
    ensures k <= 5 ==> Pow2(k) <= 32
  {
    if k > 0 {
      BackoffDoubles(k - 1);
      if k == 6 {
        assert Pow2(5) == 32;
      }
    }
  }

  function StorableOf(incoming: seq<RawRead>): seq<RawRead>
  {
    if incoming == [] then []
    else
      var last := incoming[|incoming| - 1];
      StorableOf(incoming[..|incoming| - 1]) + if last.storable then [last] else []
  }

  function UnstorableOf(incoming: seq<RawRead>): seq<RawRead>
  {
    if incoming == [] then []
    else
      var last := incoming[|incoming| - 1];
      UnstorableOf(incoming[..|incoming| - 1]) + if last.storable then [] else [last]
  }

  lemma {:induction false} EveryReadGoesSomewhere(incoming: seq<RawRead>)
    ensures |StorableOf(incoming)| + |UnstorableOf(incoming)| == |incoming|
    ensures multiset(StorableOf(incoming)) + multiset(UnstorableOf(incoming)) == multiset(incoming)
  {
    if incoming != [] {
      var front, last := incoming[..|incoming| - 1], incoming[|incoming| - 1];
      EveryReadGoesSomewhere(front);
      assert multiset(incoming) == multiset(front) + multiset{last} by {
        assert incoming == front + [last];
      }
      if last.storable {
        assert StorableOf(incoming) == StorableOf(front) + [last] && UnstorableOf(incoming) == UnstorableOf(front);
      } else {
        assert UnstorableOf(incoming) == UnstorableOf(front) + [last] && StorableOf(incoming) == StorableOf(front);
      }
    }
  }

  function Successes(attempts: seq<bool>): nat
  {
    if attempts == [] then 0 else (if attempts[0] then 1 else 0) + Successes(attempts[1..])
  }

  /** What `/health` could see at one moment. */
  datatype Seen = Seen(received: nat, persisted: nat, setAside: nat, rows: nat, faulty: bool)

  /** One read at most is between being received and being counted, a count never runs ahead of
      the journal, and a fault is shown only while a read is in hand. */
  ghost predicate Conserved(s: Seen)
  {
    && s.persisted + s.setAside <= s.received <= s.persisted + s.setAside + 1
    && s.persisted <= s.rows <= s.persisted + 1
    && s.rows + s.setAside <= s.received
    && (s.faulty ==> s.received == s.persisted + s.setAside + 1)
  }

  const NOTHING_SEEN := Seen(0, 0, 0, 0, false)

  /** One change and no more: a read received, a row added, a read counted, or the fault written. */
  predicate OneChange(a: Seen, b: Seen)
  {
    || b == a.(received := a.received + 1)
    || b == a.(rows := a.rows + 1)
    || b == a.(persisted := a.persisted + 1)
    || b == a.(setAside := a.setAside + 1)
    || b == a.(faulty := b.faulty)
  }

  ghost predicate ByOneChange(history: seq<Seen>)
  {
    forall i :: 0 < i < |history| ==> OneChange(history[i - 1], history[i])
  }

  ghost predicate AllConserved(history: seq<Seen>)
  {
    forall i :: 0 <= i < |history| ==> Conserved(history[i])
  }

  /** Every moment from the start to now, one change apart, and the books balanced at each. */
  ghost predicate Tells(history: seq<Seen>, now: Seen)
  {
    && history != [] && history[0] == NOTHING_SEEN && history[|history| - 1] == now
    && ByOneChange(history) && AllConserved(history)
  }

  lemma TellsOn(history: seq<Seen>, was: Seen, now: Seen)
    requires Tells(history, was) && OneChange(was, now) && Conserved(now)
    ensures Tells(history + [now], now)
  {
    var next := history + [now];
    forall i | 0 < i < |next|
      ensures OneChange(next[i - 1], next[i])
    {
      if i < |history| {
        assert OneChange(history[i - 1], history[i]);
      }
    }
  }

  class Reader {
    var received: nat
    var persisted: nat
    var setAside: nat
    var fault: Option<Uuid>
    /** The journal's rows from this run, and the reads it refused for good. */
    var rows: seq<RawRead>
    var refused: seq<RawRead>
    /** What could be seen after each change, and how long each wait was. */
    ghost var history: seq<Seen>
    ghost var waits: seq<nat>

    constructor ()
      ensures Settled() && received == 0 && rows == [] && refused == [] && waits == []
    {
      received, persisted, setAside, fault := 0, 0, 0, None;
      rows, refused, history, waits := [], [], [NOTHING_SEEN], [];
    }

    ghost function Now(): Seen
      reads this
    {
      Seen(received, persisted, setAside, |rows|, fault.Some?)
    }

    /** Between reads. */
    ghost predicate Settled()
      reads this
    {
      && persisted == |rows| && setAside == |refused| && fault.None?
      && received == persisted + setAside && Tells(history, Now())
    }

    /** With one read in hand. */
    ghost predicate Holding()
      reads this
    {
      && persisted == |rows| && setAside == |refused|
      && received == persisted + setAside + 1 && Tells(history, Now())
    }

    /** Adds the present moment to the history, which told the one before. */
    ghost method Note(was: Seen)
      requires Tells(history, was) && OneChange(was, Now()) && Conserved(Now())
      modifies this`history
      ensures history == old(history) + [Now()] && Tells(history, Now())
    {
      TellsOn(history, was, Now());
      history := history + [Now()];
    }

    /** Appends `read`, retrying. `attempts` is what the journal will answer, in turn; when it runs
        out the read is still being retried. */
    method Store(read: RawRead, attempts: seq<bool>) returns (stored: Stored, used: nat)
      requires Holding() && fault.None?
      modifies this`rows, this`refused, this`fault, this`history, this`waits
      ensures used <= |attempts| && Tells(history, Now()) && old(history) <= history
      ensures stored == SetAside <==> !read.storable
      ensures stored == SetAside ==> used == 0 && rows == old(rows) && refused == old(refused) + [read] && fault.None?
      ensures stored == Journaled ==>
                && used > 0 && attempts[used - 1] && (forall i :: 0 <= i < used - 1 ==> !attempts[i])
                && rows == old(rows) + [read] && refused == old(refused) && fault.None?
      ensures stored == StillTrying ==>
                && used == |attempts| && (forall i :: 0 <= i < used ==> !attempts[i])
                && rows == old(rows) && refused == old(refused) && fault == (if used > 0 then Some(read.id) else None)
      ensures waits == old(waits) + seq(if stored == Journaled then used - 1 else used, k requires k >= 0 => Backoff(k))
    {
      var delay := RETRY_FIRST_MS;
      var failures := 0;
      used := 0;
      while true
        invariant used <= |attempts| && used == failures && delay == Backoff(failures)
        invariant read.storable || failures == 0
        invariant Holding() && rows == old(rows) && refused == old(refused) && old(history) <= history
        invariant forall i :: 0 <= i < used ==> !attempts[i]
        invariant fault == if failures > 0 then Some(read.id) else None
        invariant waits == old(waits) + seq(failures, k requires k >= 0 => Backoff(k))
        decreases |attempts| - used
      {
        if !read.storable {
          refused := refused + [read];
          return SetAside, used;
        }
        if used == |attempts| {
          return StillTrying, used;
        }
        var written := attempts[used];
        used := used + 1;
        if written {
          rows := rows + [read];
          Note(Seen(received, persisted, setAside, |rows| - 1, fault.Some?));
          if failures > 0 {
            fault := None;
            Note(Now().(faulty := true));
          }
          return Journaled, used;
        }
        failures := failures + 1;
        ghost var was := Now();
        fault := Some(read.id);
        Note(was);
        waits := waits + [delay];
        delay := Doubled(delay);
      }
    }

    /** One read off the channel: counted as received, stored, then counted as what became of it. */
    method TakeRead(read: RawRead, attempts: seq<bool>) returns (stored: Stored, used: nat)
      requires Settled()
      modifies this
      ensures received == old(received) + 1 && used <= |attempts| && old(history) <= history
      ensures stored != StillTrying ==> Settled()
      ensures stored == StillTrying ==> Holding() && used == |attempts| && read.storable
      ensures rows == old(rows) + (if stored == Journaled then [read] else [])
      ensures refused == old(refused) + (if stored == SetAside then [read] else [])
      ensures stored == SetAside <==> !read.storable
      ensures Successes(attempts) == Successes(attempts[used..]) + if stored == Journaled then 1 else 0
    {
      ghost var was := Now();
      received := received + 1;
      Note(was);
      stored, used := Store(read, attempts);
      SuccessesAfter(attempts, used);
      was := Now();
      match stored {
        case Journaled => persisted := persisted + 1;
        case SetAside => setAside := setAside + 1;
        case StillTrying => return;
      }
      Note(was);
    }

    /** Drains the reader. `attempts` is what the journal will answer to every append, in turn: a
        shorter one is an earlier moment of the same run. */
    method ReadIntoJournal(incoming: seq<RawRead>, attempts: seq<bool>) returns (done: nat, inFlight: bool)
      requires Settled() && received == 0
      modifies this
      ensures done <= |incoming| && received == done + (if inFlight then 1 else 0)
      ensures received == persisted + setAside + (if inFlight then 1 else 0)
      ensures rows == StorableOf(incoming[..done]) && refused == UnstorableOf(incoming[..done])
      ensures persisted == |rows| && setAside == |refused|
      ensures if inFlight then done < |incoming| && incoming[done].storable
              else done == |incoming| && fault.None?
      ensures Successes(attempts) >= |StorableOf(incoming)| ==> !inFlight
      ensures Tells(history, Now()) && old(history) <= history
    {
      var rest := attempts;
      done := 0;
      while done < |incoming|
        invariant done <= |incoming| && Settled() && received == done && old(history) <= history
        invariant Drained(incoming, done, rows, refused)
        invariant |rows| + Successes(rest) == Successes(attempts)
      {
        DrainNext(incoming, done, rows, refused);
        var stored, used := TakeRead(incoming[done], rest);
        rest := rest[used..];
        if stored == StillTrying {
          return done, true;
        }
        done := done + 1;
      }
      assert incoming[..done] == incoming;
      return done, false;
    }
  }

  /** The first `done` reads are in the journal or refused, in the order they came. */
  ghost predicate Drained(incoming: seq<RawRead>, done: nat, rows: seq<RawRead>, refused: seq<RawRead>)
    requires done <= |incoming|
  {
    rows == StorableOf(incoming[..done]) && refused == UnstorableOf(incoming[..done])
  }

  lemma DrainNext(incoming: seq<RawRead>, done: nat, rows: seq<RawRead>, refused: seq<RawRead>)
    requires done < |incoming| && Drained(incoming, done, rows, refused)
    ensures incoming[done].storable ==>
              Drained(incoming, done + 1, rows + [incoming[done]], refused) && |rows| < |StorableOf(incoming)|
    ensures !incoming[done].storable ==> Drained(incoming, done + 1, rows, refused + [incoming[done]])
  {
    assert incoming[..done + 1][..done] == incoming[..done];
    if incoming[done].storable {
      StorableGrows(incoming, done);
    }
  }

  lemma {:induction false} StorableGrows(incoming: seq<RawRead>, done: nat)
    requires done < |incoming| && incoming[done].storable
    ensures |StorableOf(incoming[..done])| < |StorableOf(incoming)|
  {
    var n := |incoming| - 1;
    if done < n {
      StorableGrows(incoming[..n], done);
      assert incoming[..n][..done] == incoming[..done];
    }
  }

  lemma {:induction false} SuccessesAfter(attempts: seq<bool>, used: nat)
    requires used <= |attempts| && forall i :: 0 <= i < used - 1 ==> !attempts[i]
    ensures Successes(attempts) == Successes(attempts[used..]) + if used > 0 && attempts[used - 1] then 1 else 0
  {
    if used == 0 {
      assert attempts[used..] == attempts;
    } else if used > 1 {
      SuccessesAfter(attempts[1..], used - 1);
      assert attempts[1..][used - 1..] == attempts[used..];
    }
  }
}
