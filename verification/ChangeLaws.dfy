/** What a difference tells: the way from the earlier sheet to the later one, and back. */
module ChangeLaws {
  import opened Ordering
  import opened Domain
  import opened Results
  import opened Revisions
  import opened RevisionLaws

  /** What a difference speaks of in a line. */
  datatype Shown = Shown(status: string, place: Option<int>, time: Option<string>)

  function ShownOf(e: Entry): Shown
  {
    Shown(StatusText(e.status), e.place, TimeText(e.scoringTimeMs))
  }

  /** The line under a bib. */
  function ShownUnder(entries: seq<Entry>, bib: string): Option<Shown>
  {
    if entries == [] then None
    else if entries[0].bib == bib then Some(ShownOf(entries[0]))
    else ShownUnder(entries[1..], bib)
  }

  // ----- Writing a change over a line -----

  /** Nothing said both ways means nothing changed; otherwise `said` is what it became. */
  function Told<T(==)>(was: Option<T>, other: Option<T>, said: Option<T>): Option<T>
  {
    if other.None? && said.None? then was else said
  }

  /** A line once the change is made. */
  function Forward(was: Option<Shown>, c: Change): Option<Shown>
  {
    match c.kind
    case Removal => None
    case Addition => if c.statusTo.Some? then Some(Shown(c.statusTo.value, c.placeTo, c.timeTo)) else None
    case _ =>
      if was.None? then None
      else Some(Shown(if c.statusTo.Some? then c.statusTo.value else was.value.status,
                      Told(was.value.place, c.placeFrom, c.placeTo), Told(was.value.time, c.timeFrom, c.timeTo)))
  }

  /** A line before the change was made. */
  function Back(now: Option<Shown>, c: Change): Option<Shown>
  {
    match c.kind
    case Addition => None
    case Removal => if c.statusFrom.Some? then Some(Shown(c.statusFrom.value, c.placeFrom, c.timeFrom)) else None
    case _ =>
      if now.None? then None
      else Some(Shown(if c.statusFrom.Some? then c.statusFrom.value else now.value.status,
                      Told(now.value.place, c.placeTo, c.placeFrom), Told(now.value.time, c.timeTo, c.timeFrom)))
  }

  function ShownIn(held: Option<Entry>): Option<Shown>
  {
    if held.Some? then Some(ShownOf(held.value)) else None
  }

  function Before(p: Pair): Option<Entry>
  {
    if p.Gained? then None else Some(p.before)
  }

  function After(p: Pair): Option<Entry>
  {
    if p.Gone? then None else Some(p.after)
  }

  lemma ChangeCarries(p: Pair)
    requires Changed(p)
    ensures Forward(ShownIn(Before(p)), ChangeOf(p)) == ShownIn(After(p))
    ensures Back(ShownIn(After(p)), ChangeOf(p)) == ShownIn(Before(p))
  {
  }

  lemma UnchangedShowsTheSame(p: Pair)
    requires !Changed(p)
    ensures ShownIn(Before(p)) == ShownIn(After(p))
  {
  }

  function BibOf(p: Pair): string
  {
    if p.Gone? then p.before.bib else p.after.bib
  }

  /** A change is filed under the later line's bib, name and reason; a removal under the earlier bib
      and name, and with no reason; and it is called what it is. */
  lemma ChangeIsFiled(p: Pair)
    requires Changed(p)
    ensures var c, e := ChangeOf(p), if p.Gone? then p.before else p.after;
            && c.bib == e.bib && c.name == e.name && c.reason == (if p.Gone? then None else e.statusReason)
            && (c.kind == Addition <==> p.Gained?) && (c.kind == Removal <==> p.Gone?)
            && (c.kind == StatusChange <==> p.Kept? && p.before.status != p.after.status)
  {
  }

  // ----- Writing them all -----

  /** What the changes listed for a bib make of its line. */
  function Replayed(was: Option<Shown>, changes: seq<Change>, bib: string): Option<Shown>
  {
    if changes == [] then was
    else
      var last, before := changes[|changes| - 1], Replayed(was, changes[..|changes| - 1], bib);
      if last.bib == bib then Forward(before, last) else before
  }

  /** What undoing them makes of it. */
  function Undone(now: Option<Shown>, changes: seq<Change>, bib: string): Option<Shown>
  {
    if changes == [] then now
    else
      var last, after := changes[|changes| - 1], Undone(now, changes[..|changes| - 1], bib);
      if last.bib == bib then Back(after, last) else after
  }

  lemma ReplayedSnoc(was: Option<Shown>, changes: seq<Change>, c: Change, bib: string)
    ensures Replayed(was, changes + [c], bib)
            == if c.bib == bib then Forward(Replayed(was, changes, bib), c) else Replayed(was, changes, bib)
    ensures Undone(was, changes + [c], bib)
            == if c.bib == bib then Back(Undone(was, changes, bib), c) else Undone(was, changes, bib)
  {
    assert (changes + [c])[..|changes|] == changes;
  }

  ghost predicate NoneUnder(pairs: seq<Pair>, bib: string)
  {
    forall i :: 0 <= i < |pairs| ==> BibOf(pairs[i]) != bib
  }

  lemma {:induction false} NothingToReplay(pairs: seq<Pair>, shown: Option<Shown>, bib: string)
    requires NoneUnder(pairs, bib)
    ensures Replayed(shown, ChangesOf(pairs), bib) == shown && Undone(shown, ChangesOf(pairs), bib) == shown
  {
    if pairs != [] {
      var front, last := pairs[..|pairs| - 1], pairs[|pairs| - 1];
      NothingToReplay(front, shown, bib);
      assert pairs == front + [last];
      LastReplayed(front, last, shown, shown, bib);
    }
  }

  ghost predicate OneUnder(pairs: seq<Pair>, k: nat)
    requires k < |pairs|
  {
    forall i :: 0 <= i < |pairs| && BibOf(pairs[i]) == BibOf(pairs[k]) ==> i == k
  }

  lemma {:induction false} OneToReplay(pairs: seq<Pair>, k: nat)
    requires k < |pairs| && OneUnder(pairs, k)
    ensures Replayed(ShownIn(Before(pairs[k])), ChangesOf(pairs), BibOf(pairs[k])) == ShownIn(After(pairs[k]))
    ensures Undone(ShownIn(After(pairs[k])), ChangesOf(pairs), BibOf(pairs[k])) == ShownIn(Before(pairs[k]))
  {
    var front, last := pairs[..|pairs| - 1], pairs[|pairs| - 1];
    var p, bib := pairs[k], BibOf(pairs[k]);
    if k == |front| {
      NothingToReplay(front, ShownIn(Before(p)), bib);
      NothingToReplay(front, ShownIn(After(p)), bib);
    } else {
      assert BibOf(last) != bib;
      OneToReplay(front, k);
    }
    assert pairs == front + [last];
    LastReplayed(front, last, ShownIn(Before(p)), ShownIn(After(p)), bib);
    if k == |front| {
      if Changed(last) {
        ChangeCarries(last);
      } else {
        UnchangedShowsTheSame(last);
      }
    }
  }

  lemma LastReplayed(front: seq<Pair>, last: Pair, was: Option<Shown>, now: Option<Shown>, bib: string)
    ensures Replayed(was, ChangesOf(front + [last]), bib)
            == if Changed(last) && BibOf(last) == bib then Forward(Replayed(was, ChangesOf(front), bib), ChangeOf(last))
               else Replayed(was, ChangesOf(front), bib)
    ensures Undone(now, ChangesOf(front + [last]), bib)
            == if Changed(last) && BibOf(last) == bib then Back(Undone(now, ChangesOf(front), bib), ChangeOf(last))
               else Undone(now, ChangesOf(front), bib)
  {
    PairsSnoc(front, last);
    if Changed(last) {
      ChangeIsFiled(last);
      ReplayedSnoc(was, ChangesOf(front), ChangeOf(last), bib);
      ReplayedSnoc(now, ChangesOf(front), ChangeOf(last), bib);
    } else {
      assert ChangesOf(front) + [] == ChangesOf(front);
    }
  }

  // ----- The sheets themselves -----

  /** Bibs stay with their runners. */
  ghost predicate SamePeople(earlier: seq<Entry>, later: seq<Entry>)
  {
    forall e, f :: e in earlier && f in later ==> (e.participant == f.participant <==> e.bib == f.bib)
  }

  ghost predicate OwnBibs(entries: seq<Entry>)
  {
    forall e, f :: e in entries && f in entries ==> (e.participant == f.participant <==> e.bib == f.bib)
  }

  lemma BibsAreOwn(entries: seq<Entry>)
    requires OnePerRunner(entries) && DistinctBibs(entries)
    ensures OwnBibs(entries)
  {
    forall e, f | e in entries && f in entries
      ensures e.participant == f.participant <==> e.bib == f.bib
    {
      var i :| 0 <= i < |entries| && entries[i] == e;
      var j :| 0 <= j < |entries| && entries[j] == f;
      if i != j {
        assert Map(Runner, entries)[i] != Map(Runner, entries)[j];
        assert Map(Bib, entries)[i] != Map(Bib, entries)[j];
      }
    }
  }

  lemma {:induction false} UnderIsTheirs(entries: seq<Entry>, u: Uuid, bib: string)
    requires forall e :: e in entries ==> (e.participant == u <==> e.bib == bib)
    ensures ShownUnder(entries, bib) == ShownIn(EntryOf(entries, u))
  {
    if entries != [] {
      assert entries[0] in entries;
      UnderIsTheirs(entries[1..], u, bib);
    }
  }

  /** The line a pair speaks by. */
  function Speaker(p: Pair): Entry
  {
    if p.Gone? then p.before else p.after
  }

  lemma SpeakerIsListed(earlier: seq<Entry>, later: seq<Entry>, p: Pair)
    requires p in Pairs(earlier, later)
    ensures if p.Gone? then Speaker(p) in earlier else Speaker(p) in later
  {
    LaterPairsAt(earlier, later);
    GonePairsAre(earlier, later, p);
  }

  lemma OnePairUnderABib(earlier: seq<Entry>, later: seq<Entry>, k: nat)
    requires OnePerRunner(earlier) && OnePerRunner(later) && k < |Pairs(earlier, later)|
    requires OwnBibs(earlier) && OwnBibs(later) && SamePeople(earlier, later)
    ensures OneUnder(Pairs(earlier, later), k)
  {
    var pairs := Pairs(earlier, later);
    PairsOnce(earlier, later);
    forall i | 0 <= i < |pairs| && BibOf(pairs[i]) == BibOf(pairs[k])
      ensures i == k
    {
      SpeakerIsListed(earlier, later, pairs[i]);
      SpeakerIsListed(earlier, later, pairs[k]);
      assert Speaker(pairs[i]).participant == Speaker(pairs[k]).participant;
      assert Map(Whose, pairs)[i] == Map(Whose, pairs)[k];
    }
  }

  lemma PairShowsBoth(earlier: seq<Entry>, later: seq<Entry>, p: Pair)
    requires OnePerRunner(earlier) && OnePerRunner(later) && p in Pairs(earlier, later)
    requires OwnBibs(earlier) && OwnBibs(later) && SamePeople(earlier, later)
    ensures ShownUnder(earlier, BibOf(p)) == ShownIn(Before(p)) && ShownUnder(later, BibOf(p)) == ShownIn(After(p))
  {
    PairsAreHonest(earlier, later, p);
    SpeakerIsListed(earlier, later, p);
    UnderIsTheirs(earlier, Whose(p), BibOf(p));
    UnderIsTheirs(later, Whose(p), BibOf(p));
  }

  lemma {:induction false} NobodyUnder(entries: seq<Entry>, bib: string)
    ensures ShownUnder(entries, bib).None? <==> forall e :: e in entries ==> e.bib != bib
  {
    if entries != [] {
      NobodyUnder(entries[1..], bib);
      assert forall e :: e in entries <==> e == entries[0] || e in entries[1..];
    }
  }

  lemma EveryLineIsPaired(earlier: seq<Entry>, later: seq<Entry>, e: Entry)
    requires OnePerRunner(earlier) && OnePerRunner(later)
    requires SamePeople(earlier, later) && OwnBibs(earlier) && OwnBibs(later)
    requires e in earlier || e in later
    ensures exists k :: 0 <= k < |Pairs(earlier, later)| && BibOf(Pairs(earlier, later)[k]) == e.bib
  {
    var pairs := Pairs(earlier, later);
    HeldIsListed(earlier, e.participant);
    HeldIsListed(later, e.participant);
    EntryOfFinds(earlier, e.participant);
    EntryOfFinds(later, e.participant);
    PairsCover(earlier, later, e.participant);
    var k :| 0 <= k < |pairs| && Map(Whose, pairs)[k] == e.participant;
    SpeakerIsListed(earlier, later, pairs[k]);
    assert Speaker(pairs[k]).participant == e.participant;
  }

  /** Writing what the changes say each line became over the earlier sheet gives the later one, under
      every bib; and writing what they say it was over the later sheet gives the earlier. */
  lemma ChangesLeadThereAndBack(earlier: seq<Entry>, later: seq<Entry>, bib: string)
    requires OnePerRunner(earlier) && OnePerRunner(later) && DistinctBibs(earlier) && DistinctBibs(later)
    requires SamePeople(earlier, later)
    ensures var changes := ChangesOf(Pairs(earlier, later));
            && Replayed(ShownUnder(earlier, bib), changes, bib) == ShownUnder(later, bib)
            && Undone(ShownUnder(later, bib), changes, bib) == ShownUnder(earlier, bib)
  {
    var pairs := Pairs(earlier, later);
    BibsAreOwn(earlier);
    BibsAreOwn(later);
    if k :| 0 <= k < |pairs| && BibOf(pairs[k]) == bib {
      OnePairUnderABib(earlier, later, k);
      PairShowsBoth(earlier, later, pairs[k]);
      OneToReplay(pairs, k);
    } else {
      NobodyUnder(earlier, bib);
      NobodyUnder(later, bib);
      forall e | e in earlier || e in later
        ensures e.bib != bib
      {
        EveryLineIsPaired(earlier, later, e);
      }
      NothingToReplay(pairs, None, bib);
    }
  }
}
