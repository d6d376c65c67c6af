/** What the fingerprint, the difference and the store of revisions promise about each other. */
module RevisionLaws {
  import opened Ordering
  import opened Domain
  import opened Results
  import opened Placement
  import opened Revisions

  function Runner(e: Entry): Uuid { e.participant }

  function Bib(e: Entry): string { e.bib }

  ghost predicate OnePerRunner(entries: seq<Entry>)
  {
    NoDuplicates(Map(Runner, entries))
  }

  ghost predicate DistinctBibs(entries: seq<Entry>)
  {
    NoDuplicates(Map(Bib, entries))
  }

  ghost predicate NothingChanged(earlier: seq<Entry>, later: seq<Entry>)
  {
    ChangesOf(Pairs(earlier, later)) == []
  }

  // ----- Looking a participant up -----

  lemma {:induction false} EntryOfFinds(entries: seq<Entry>, participant: Uuid)
    ensures var held := EntryOf(entries, participant);
            if held.Some? then held.value in entries && held.value.participant == participant
            else forall e :: e in entries ==> e.participant != participant
  {
    if entries != [] && entries[0].participant != participant {
      EntryOfFinds(entries[1..], participant);
      assert entries == [entries[0]] + entries[1..];
    }
  }

  lemma EntryOfIsTheLine(entries: seq<Entry>, k: nat)
    requires OnePerRunner(entries) && k < |entries|
    ensures EntryOf(entries, entries[k].participant) == Some(entries[k])
  {
    EntryOfFinds(entries, entries[k].participant);
    var held := EntryOf(entries, entries[k].participant).value;
    var j :| 0 <= j < |entries| && entries[j] == held;
    SameRunnerSameLine(entries, j, k);
  }

  lemma SameRunnerSameLine(entries: seq<Entry>, j: nat, k: nat)
    requires OnePerRunner(entries) && j < |entries| && k < |entries|
    requires entries[j].participant == entries[k].participant
    ensures j == k
  {
    assert Map(Runner, entries)[j] == Map(Runner, entries)[k];
  }

  lemma HeldIsListed(entries: seq<Entry>, u: Uuid)
    ensures EntryOf(entries, u).Some? <==> u in Map(Runner, entries)
  {
    EntryOfFinds(entries, u);
    if EntryOf(entries, u).Some? {
      var j :| 0 <= j < |entries| && entries[j] == EntryOf(entries, u).value;
      assert Map(Runner, entries)[j] == u;
    }
    if u in Map(Runner, entries) {
      var j :| 0 <= j < |entries| && Map(Runner, entries)[j] == u;
      assert entries[j] in entries && entries[j].participant == u;
    }
  }

  // ----- The difference speaks of everyone once -----

  function Whose(p: Pair): Uuid
  {
    if p.Gone? then p.before.participant else p.after.participant
  }

  /** A pair holds exactly what each revision says of one participant. */
  ghost predicate Honest(p: Pair, earlier: seq<Entry>, later: seq<Entry>)
  {
    && EntryOf(earlier, Whose(p)) == (if p.Gained? then None else Some(p.before))
    && EntryOf(later, Whose(p)) == (if p.Gone? then None else Some(p.after))
  }

  lemma {:induction false} LaterPairsAt(earlier: seq<Entry>, later: seq<Entry>)
    ensures |LaterPairs(earlier, later)| == |later|
    ensures forall i :: 0 <= i < |later| ==> LaterPairs(earlier, later)[i] == PairOf(earlier, later[i])
  {
    if later != [] {
      LaterPairsAt(earlier, later[..|later| - 1]);
    }
  }

  lemma LaterWhose(earlier: seq<Entry>, later: seq<Entry>)
    ensures Map(Whose, LaterPairs(earlier, later)) == Map(Runner, later)
  {
    LaterPairsAt(earlier, later);
  }

  lemma {:induction false} GonePairsAre(earlier: seq<Entry>, later: seq<Entry>, p: Pair)
    ensures p in GonePairs(earlier, later) <==>
              p.Gone? && p.before in earlier && EntryOf(later, p.before.participant).None?
  {
    if earlier != [] {
      GonePairsAre(earlier[..|earlier| - 1], later, p);
    }
  }

  lemma {:induction false} GoneOnce(earlier: seq<Entry>, later: seq<Entry>)
    requires OnePerRunner(earlier)
    ensures NoDuplicates(Map(Whose, GonePairs(earlier, later)))
  {
    if earlier != [] {
      var n := |earlier| - 1;
      var front := GonePairs(earlier[..n], later);
      assert Map(Runner, earlier[..n]) == Map(Runner, earlier)[..n];
      GoneOnce(earlier[..n], later);
      forall p | p in front
        ensures Whose(p) != earlier[n].participant
      {
        GonePairsAre(earlier[..n], later, p);
        var k :| 0 <= k < n && earlier[k] == p.before;
        assert Map(Runner, earlier)[k] != Map(Runner, earlier)[n];
      }
      if EntryOf(later, earlier[n].participant).None? {
        MapConcat(Whose, front, [Gone(earlier[n])]);
        NoDuplicatesConcat(Map(Whose, front), Map(Whose, [Gone(earlier[n])]));
        assert GonePairs(earlier, later) == front + [Gone(earlier[n])];
      } else {
        assert GonePairs(earlier, later) == front;
      }
    }
  }

  lemma PairsAreHonest(earlier: seq<Entry>, later: seq<Entry>, p: Pair)
    requires OnePerRunner(earlier) && OnePerRunner(later) && p in Pairs(earlier, later)
    ensures Honest(p, earlier, later)
  {
    LaterPairsAt(earlier, later);
    GonePairsAre(earlier, later, p);
    EntryOfFinds(earlier, Whose(p));
    if p in GonePairs(earlier, later) {
      var k :| 0 <= k < |earlier| && earlier[k] == p.before;
      EntryOfIsTheLine(earlier, k);
    } else {
      var k :| 0 <= k < |later| && LaterPairs(earlier, later)[k] == p;
      EntryOfIsTheLine(later, k);
    }
  }

  lemma PairsOnce(earlier: seq<Entry>, later: seq<Entry>)
    requires OnePerRunner(earlier) && OnePerRunner(later)
    ensures NoDuplicates(Map(Whose, Pairs(earlier, later)))
  {
    var met, gone := LaterPairs(earlier, later), GonePairs(earlier, later);
    LaterWhose(earlier, later);
    GoneOnce(earlier, later);
    MapConcat(Whose, met, gone);
    forall u | u in Map(Whose, gone)
      ensures u !in Map(Runner, later)
    {
      var k :| 0 <= k < |gone| && Map(Whose, gone)[k] == u;
      GonePairsAre(earlier, later, gone[k]);
      EntryOfFinds(later, u);
    }
    NoDuplicatesConcat(Map(Whose, met), Map(Whose, gone));
  }

  lemma PairsCover(earlier: seq<Entry>, later: seq<Entry>, u: Uuid)
    ensures u in Map(Whose, Pairs(earlier, later)) <==> u in Map(Runner, earlier) || u in Map(Runner, later)
  {
    var met, gone := LaterPairs(earlier, later), GonePairs(earlier, later);
    LaterWhose(earlier, later);
    MapConcat(Whose, met, gone);
    if u in Map(Whose, gone) {
      var k :| 0 <= k < |gone| && Map(Whose, gone)[k] == u;
      GonePairsAre(earlier, later, gone[k]);
      var j :| 0 <= j < |earlier| && earlier[j] == gone[k].before;
      assert Map(Runner, earlier)[j] == u;
    }
    if u in Map(Runner, earlier) && u !in Map(Runner, later) {
      var k :| 0 <= k < |earlier| && Map(Runner, earlier)[k] == u;
      HeldIsListed(later, u);
      GonePairsAre(earlier, later, Gone(earlier[k]));
      var j :| 0 <= j < |gone| && gone[j] == Gone(earlier[k]);
      assert Map(Whose, gone)[j] == u;
    }
  }

  lemma {:induction false} ChangedOrNot(pairs: seq<Pair>)
    ensures |ChangesOf(pairs)| + UnchangedOf(pairs) == |pairs|
  {
    if pairs != [] {
      ChangedOrNot(pairs[..|pairs| - 1]);
    }
  }

  /** Each participant of either revision is counted exactly once, as changed or as unchanged. */
  lemma DiffCountsEveryoneOnce(earlier: seq<Entry>, later: seq<Entry>)
    requires OnePerRunner(earlier) && OnePerRunner(later)
    ensures |ChangesOf(Pairs(earlier, later))| + UnchangedOf(Pairs(earlier, later))
            == |Elements(Map(Runner, earlier)) + Elements(Map(Runner, later))|
    ensures NoDuplicates(Map(Whose, Pairs(earlier, later)))
    ensures Elements(Map(Whose, Pairs(earlier, later))) == Elements(Map(Runner, earlier)) + Elements(Map(Runner, later))
  {
    var pairs := Pairs(earlier, later);
    PairsOnce(earlier, later);
    forall u: Uuid
      ensures u in Map(Whose, pairs) <==> u in Map(Runner, earlier) || u in Map(Runner, later)
    {
      PairsCover(earlier, later, u);
    }
    assert Elements(Map(Whose, pairs)) == Elements(Map(Runner, earlier)) + Elements(Map(Runner, later));
    NoDuplicatesCard(Map(Whose, pairs));
    ChangedOrNot(pairs);
  }

  /** What a change shows as from and to differs exactly where the two lines differ. */
  lemma AlteredShowsTheDifference(before: Entry, after: Entry)
    ensures var c := ChangeOf(Kept(before, after));
            && (c.statusFrom == c.statusTo <==> before.status == after.status)
            && (c.kind == StatusChange <==> before.status != after.status)
            && (c.placeFrom == c.placeTo <==> before.place == after.place)
            && (c.timeFrom == c.timeTo <==> before.scoringTimeMs == after.scoringTimeMs)
            && (Changed(Kept(before, after)) <==>
                  c.statusFrom != c.statusTo || c.placeFrom != c.placeTo || c.timeFrom != c.timeTo)
  {
    StatusTextInjective(before.status, after.status);
    if before.scoringTimeMs.Some? && after.scoringTimeMs.Some?
       && Export.FormatDuration(before.scoringTimeMs.value) == Export.FormatDuration(after.scoringTimeMs.value) {
      Export.FormatIsInjective(before.scoringTimeMs.value, after.scoringTimeMs.value);
    }
  }

  // ----- The fingerprint and the difference agree -----

  lemma {:induction false} NoChanges(pairs: seq<Pair>)
    ensures ChangesOf(pairs) == [] <==> forall p :: p in pairs ==> !Changed(p)
  {
    if pairs != [] {
      var front, last := pairs[..|pairs| - 1], pairs[|pairs| - 1];
      NoChanges(front);
      assert forall p :: p in pairs <==> p in front || p == last;
    }
  }

  ghost predicate Agree(earlier: seq<Entry>, e: Entry)
  {
    var held := EntryOf(earlier, e.participant);
    held.Some? && SameResult(held.value, e)
  }

  lemma NothingChangedMeans(earlier: seq<Entry>, later: seq<Entry>)
    ensures NothingChanged(earlier, later)
            <==> (forall e :: e in later ==> Agree(earlier, e))
                 && forall e :: e in earlier ==> EntryOf(later, e.participant).Some?
  {
    var met, gone := LaterPairs(earlier, later), GonePairs(earlier, later);
    NoChanges(met + gone);
    LaterPairsAt(earlier, later);
    assert (forall p :: p in met ==> !Changed(p)) <==> forall e :: e in later ==> Agree(earlier, e) by {
      forall i | 0 <= i < |later|
        ensures !Changed(met[i]) <==> Agree(earlier, later[i])
      {
      }
      assert (forall p :: p in met ==> !Changed(p)) <==> forall i :: 0 <= i < |met| ==> !Changed(met[i]);
      assert (forall e :: e in later ==> Agree(earlier, e))
          <==> forall i :: 0 <= i < |later| ==> Agree(earlier, later[i]);
    }
    assert (forall p :: p in gone ==> !Changed(p))
        <==> forall e :: e in earlier ==> EntryOf(later, e.participant).Some? by {
      forall e | e in earlier && EntryOf(later, e.participant).None?
        ensures Gone(e) in gone && Changed(Gone(e))
      {
        GonePairsAre(earlier, later, Gone(e));
      }
      forall p | p in gone
        ensures p.Gone? && p.before in earlier && EntryOf(later, p.before.participant).None?
      {
        GonePairsAre(earlier, later, p);
      }
    }
  }

  function Who(e: Entry): (Uuid, string) { (e.participant, e.bib) }

  /** The same people under the same bibs. */
  ghost predicate OneRoster(a: seq<Entry>, b: seq<Entry>)
  {
    Elements(Map(Who, a)) == Elements(Map(Who, b))
  }

  lemma Counterpart(a: seq<Entry>, b: seq<Entry>, e: Entry) returns (k: nat)
    requires OneRoster(a, b) && e in b
    ensures k < |a| && a[k].participant == e.participant && a[k].bib == e.bib
  {
    var i :| 0 <= i < |b| && b[i] == e;
    assert Map(Who, b)[i] == Who(e);
    assert Who(e) in Elements(Map(Who, b));
    k :| 0 <= k < |a| && Map(Who, a)[k] == Who(e);
  }

  lemma SameRowsSameRunners(earlier: seq<Entry>, later: seq<Entry>, i: nat)
    requires SameRows(earlier, later) && OneRoster(earlier, later) && DistinctBibs(earlier) && i < |later|
    ensures earlier[i].participant == later[i].participant
  {
    var k := Counterpart(earlier, later, later[i]);
    assert SameRow(earlier[i], later[i]);
    assert Map(Bib, earlier)[k] == Map(Bib, earlier)[i];
  }

  lemma SameRowsNothingChanged(earlier: seq<Entry>, later: seq<Entry>)
    requires SameRows(earlier, later) && OneRoster(earlier, later) && DistinctBibs(earlier)
    requires OnePerRunner(earlier) && OnePerRunner(later)
    ensures NothingChanged(earlier, later)
  {
    NothingChangedMeans(earlier, later);
    forall e | e in later
      ensures Agree(earlier, e)
    {
      var i :| 0 <= i < |later| && later[i] == e;
      SameRowsSameRunners(earlier, later, i);
      EntryOfIsTheLine(earlier, i);
      assert SameRow(earlier[i], later[i]);
    }
    forall e | e in earlier
      ensures EntryOf(later, e.participant).Some?
    {
      var i :| 0 <= i < |earlier| && earlier[i] == e;
      SameRowsSameRunners(earlier, later, i);
      EntryOfIsTheLine(later, i);
    }
  }

  /** A line with everything the fingerprint does not cover blanked out. */
  function Bare(e: Entry): Entry
  {
    Entry(e.participant, e.bib, "", e.status, FromCrossings, None, None, None, None, None,
          e.scoringTimeMs, e.place, [], [])
  }

  lemma BareKept(a: seq<Entry>, b: seq<Entry>, x: Entry)
    requires OneRoster(a, b) && OnePerRunner(a) && OnePerRunner(b) && NothingChanged(a, b)
    ensures x in Map(Bare, a) <==> x in Map(Bare, b)
  {
    NothingChangedMeans(a, b);
    if x in Map(Bare, b) {
      var j :| 0 <= j < |b| && Map(Bare, b)[j] == x;
      var k := Counterpart(a, b, b[j]);
      EntryOfIsTheLine(a, k);
      assert Agree(a, b[j]);
      assert Map(Bare, a)[k] == x;
    }
    if x in Map(Bare, a) {
      var k :| 0 <= k < |a| && Map(Bare, a)[k] == x;
      var j := Counterpart(b, a, a[k]);
      EntryOfIsTheLine(a, k);
      assert Agree(a, b[j]);
      assert Map(Bare, b)[j] == x;
    }
  }

  lemma BareOnce(entries: seq<Entry>)
    requires OnePerRunner(entries)
    ensures NoDuplicates(Map(Bare, entries))
    ensures KeyInjective(Map(Bare, entries), PublicationKey)
  {
    var bare := Map(Bare, entries);
    forall i, j | 0 <= i < j < |entries|
      ensures bare[i] != bare[j]
    {
      assert Map(Runner, entries)[i] != Map(Runner, entries)[j];
    }
    forall x, y | x in bare && y in bare && PublicationKey(x) == PublicationKey(y)
      ensures x == y
    {
      PublicationKeyParts(x, y);
      var i :| 0 <= i < |entries| && bare[i] == x;
      var j :| 0 <= j < |entries| && bare[j] == y;
      assert Map(Runner, entries)[i] == Map(Runner, entries)[j];
    }
  }

  lemma BareSorted(entries: seq<Entry>)
    requires Sorted(entries, PublicationKey)
    ensures Sorted(Map(Bare, entries), PublicationKey)
  {
    forall i, j | 0 <= i < j < |entries|
      ensures Leq(PublicationKey(Bare(entries[i])), PublicationKey(Bare(entries[j])))
    {
      assert PublicationKey(Bare(entries[i])) == PublicationKey(entries[i]);
      assert PublicationKey(Bare(entries[j])) == PublicationKey(entries[j]);
    }
  }

  lemma NothingChangedSameRows(earlier: seq<Entry>, later: seq<Entry>)
    requires NothingChanged(earlier, later) && OneRoster(earlier, later)
    requires OnePerRunner(earlier) && OnePerRunner(later)
    requires Sorted(earlier, PublicationKey) && Sorted(later, PublicationKey)
    ensures SameRows(earlier, later)
  {
    var a, b := Map(Bare, earlier), Map(Bare, later);
    BareOnce(earlier);
    BareOnce(later);
    forall x
      ensures x in a <==> x in b
    {
      BareKept(earlier, later, x);
    }
    NoDuplicatesPermute(a, b);
    BareSorted(earlier);
    BareSorted(later);
    SortedUnique(a, b, PublicationKey);
    forall i | 0 <= i < |earlier|
      ensures SameRow(earlier[i], later[i])
    {
      assert a[i] == b[i];
    }
  }

  /** For two published revisions of one roster, the fingerprints are of one text exactly when the
      difference lists no change. */
  lemma FingerprintAgreesWithDiff(earlier: seq<Entry>, later: seq<Entry>)
    requires OneRoster(earlier, later) && OnePerRunner(earlier) && OnePerRunner(later)
    requires DistinctBibs(earlier)
    requires Sorted(earlier, PublicationKey) && Sorted(later, PublicationKey)
    ensures NothingChanged(earlier, later) <==> DigestText(earlier) == DigestText(later) && Apart(earlier, later)
  {
    DigestReadsBack(earlier, later);
    if SameRows(earlier, later) {
      SameRowsNothingChanged(earlier, later);
    }
    if NothingChanged(earlier, later) {
      NothingChangedSameRows(earlier, later);
    }
  }
}
