/** Published revisions: the fingerprint that says nothing changed, and the list of what did. */
module Revisions {
  import opened Ordering
  import opened Domain
  import opened Text
  import opened Results
  import Export

  function StatusText(s: ResultStatus): string
  {
    match s
    case Finished => "finished"
    case Dns => "dns"
    case Dnf => "dnf"
    case Dq => "dq"
  }

  function OrDash(n: Option<int>): string
  {
    if n.Some? then Decimal(n.value) else "-"
  }

  // ----- The fingerprint -----

  const US := [UNIT_SEPARATOR]
  const RS := [RECORD_SEPARATOR]

  /** What follows a bib in a row. */
  function Ending(status: ResultStatus, timeMs: Option<int>, place: Option<int>): string
  {
    US + (StatusText(status) + (US + (OrDash(timeMs) + (US + (OrDash(place) + RS)))))
  }

  function EndingOf(e: Entry): string
  {
    Ending(e.status, e.scoringTimeMs, e.place)
  }

  function Row(e: Entry): string
  {
    e.bib + EndingOf(e)
  }

  /** The name a revision's digest is hashed from. */
  function DigestText(entries: seq<Entry>): string
  {
    Concat(Map(Row, entries))
  }

  method DigestName(entries: seq<Entry>) returns (name: string)
    ensures name == DigestText(entries)
  {
    name := "";
    for i := 0 to |entries|
      invariant name == DigestText(entries[..i])
    {
      var entry := entries[i];
      assert entries[..i + 1] == entries[..i] + [entry];
      DigestEnd(entries[..i], entry);
      RowBuiltUp(name, entry.bib, StatusText(entry.status), OrDash(entry.scoringTimeMs), OrDash(entry.place));
      name := name + entry.bib;
      name := name + US;
      name := name + StatusText(entry.status);
      name := name + US;
      name := name + OrDash(entry.scoringTimeMs);
      name := name + US;
      name := name + OrDash(entry.place);
      name := name + RS;
    }
    assert entries[..|entries|] == entries;
  }

  /** Two rows, spelled out: bib, status, milliseconds, place, with a dash for what is missing. */
  lemma RowsSpelled(e: Entry)
    requires e.bib == "7"
    ensures e.status == Finished && e.scoringTimeMs == Some(5) && e.place == Some(2) ==>
              Row(e) == "7" + US + "finished" + US + "5" + US + "2" + RS
    ensures e.status == Dns && e.scoringTimeMs == None && e.place == None ==>
              Row(e) == "7" + US + "dns" + US + "-" + US + "-" + RS
  {
    assert Decimal(5) == "5" && Decimal(2) == "2";
  }

  lemma RowBuiltUp(name: string, a: string, b: string, c: string, d: string)
    ensures name + a + US + b + US + c + US + d + RS == name + (a + (US + (b + (US + (c + (US + (d + RS)))))))
  {
  }

  /** Free of the two separators. */
  predicate Clean(s: string)
  {
    UNIT_SEPARATOR !in s && RECORD_SEPARATOR !in s
  }

  /** What the fingerprint covers of a line. */
  predicate SameRow(a: Entry, b: Entry)
  {
    a.bib == b.bib && SameResult(a, b)
  }

  predicate SameResult(a: Entry, b: Entry)
  {
    a.status == b.status && a.scoringTimeMs == b.scoringTimeMs && a.place == b.place
  }

  lemma OrDashIsClean(n: Option<int>)
    ensures Clean(OrDash(n))
  {
  }

  lemma OrDashInjective(m: Option<int>, n: Option<int>)
    requires OrDash(m) == OrDash(n)
    ensures m == n
  {
    if m.Some? && n.Some? {
      DecimalInjective(m.value, n.value);
    } else if m.Some? {
      NumberIsNoDash(m.value);
    } else if n.Some? {
      NumberIsNoDash(n.value);
    }
  }

  lemma NumberIsNoDash(n: int)
    ensures Decimal(n) != "-"
  {
    if n >= 0 {
      assert IsDigit(Digits(n)[0]);
    }
  }

  lemma StatusTextInjective(a: ResultStatus, b: ResultStatus)
    ensures Clean(StatusText(a))
    ensures StatusText(a) == StatusText(b) ==> a == b
  {
    assert StatusText(a)[1] == (match a case Finished => 'i' case Dns => 'n' case Dnf => 'n' case Dq => 'q');
    assert a.Dns? ==> StatusText(a)[2] == 's';
    assert b.Dns? ==> StatusText(b)[2] == 's';
    assert a.Dnf? ==> StatusText(a)[2] == 'f';
    assert b.Dnf? ==> StatusText(b)[2] == 'f';
  }

  /** A text that spells no row's ending, which one without either separator never does. */
  ghost predicate Plain(s: string)
  {
    forall u, v, status, timeMs, place :: s != u + (Ending(status, timeMs, place) + v)
  }

  lemma OneSeparatorIsPlain(s: string)
    requires UNIT_SEPARATOR !in s || RECORD_SEPARATOR !in s
    ensures Plain(s)
  {
    forall u, v, status, timeMs, place
      ensures s != u + (Ending(status, timeMs, place) + v)
    {
      var e := Ending(status, timeMs, place);
      var whole := u + (e + v);
      assert whole[|u|] == e[0] == UNIT_SEPARATOR;
      assert whole[|u| + |e| - 1] == e[|e| - 1] == RECORD_SEPARATOR;
    }
  }

  /** After a separator inside an ending comes a number or a dash, never a status. */
  lemma AfterSeparator(status: ResultStatus, timeMs: Option<int>, place: Option<int>, k: nat)
    requires 0 < k < |Ending(status, timeMs, place)| && Ending(status, timeMs, place)[k] == UNIT_SEPARATOR
    ensures k + 1 < |Ending(status, timeMs, place)|
    ensures Ending(status, timeMs, place)[k + 1] < 'a'
  {
    var s, m, p := StatusText(status), OrDash(timeMs), OrDash(place);
    StatusTextInjective(status, status);
    OrDashIsClean(timeMs);
    OrDashIsClean(place);
    SeparatorsAt(s, m, p, k);
    OrDashStarts(timeMs);
    OrDashStarts(place);
  }

  lemma OrDashStarts(n: Option<int>)
    ensures OrDash(n) != "" && OrDash(n)[0] < 'a'
  {
    if n.Some? && n.value >= 0 {
      assert IsDigit(Digits(n.value)[0]);
    }
  }

  lemma SeparatorsAt(s: string, m: string, p: string, k: nat)
    requires Clean(s) && Clean(m) && Clean(p) && m != "" && p != ""
    requires 0 < k < |US + (s + (US + (m + (US + (p + RS)))))|
    ensures var e := US + (s + (US + (m + (US + (p + RS)))));
            e[k] == UNIT_SEPARATOR ==> k + 1 < |e| && (e[k + 1] == m[0] || e[k + 1] == p[0])
  {
    var e := US + (s + (US + (m + (US + (p + RS)))));
    if k < 1 + |s| {
      assert e[k] == s[k - 1];
    } else if k == 1 + |s| {
      assert e[k + 1] == m[0];
    } else if k < 2 + |s| + |m| {
      assert e[k] == m[k - 2 - |s|];
    } else if k == 2 + |s| + |m| {
      assert e[k + 1] == p[0];
    } else if k < 3 + |s| + |m| + |p| {
      assert e[k] == p[k - 3 - |s| - |m|];
    }
  }

  lemma EndingStarts(e: Entry)
    ensures |EndingOf(e)| > 1 && EndingOf(e)[0] == UNIT_SEPARATOR && EndingOf(e)[1] >= 'a'
  {
    assert EndingOf(e)[1] == StatusText(e.status)[0];
  }

  /** Endings tell what they end, whatever comes after them. */
  lemma EndingInjective(a: Entry, x: string, b: Entry, y: string)
    requires EndingOf(a) + x == EndingOf(b) + y
    ensures SameResult(a, b) && x == y
  {
    StatusTextInjective(a.status, b.status);
    StatusTextInjective(b.status, a.status);
    OrDashIsClean(a.scoringTimeMs);
    OrDashIsClean(b.scoringTimeMs);
    OrDashIsClean(a.place);
    OrDashIsClean(b.place);
    FieldsApart(StatusText(a.status), OrDash(a.scoringTimeMs), OrDash(a.place), x,
                StatusText(b.status), OrDash(b.scoringTimeMs), OrDash(b.place), y);
    OrDashInjective(a.scoringTimeMs, b.scoringTimeMs);
    OrDashInjective(a.place, b.place);
  }

  lemma FieldsApart(s: string, m: string, p: string, x: string, s': string, m': string, p': string, y: string)
    requires Clean(s) && Clean(m) && Clean(p) && Clean(s') && Clean(m') && Clean(p')
    requires US + (s + (US + (m + (US + (p + RS))))) + x == US + (s' + (US + (m' + (US + (p' + RS))))) + y
    ensures s == s' && m == m' && p == p' && x == y
  {
    Spread(s, m, p, x);
    Spread(s', m', p', y);
    ConcatInjective(US, s + US + (m + US + (p + RS + x)), US, s' + US + (m' + US + (p' + RS + y)));
    SplitAtSeparator(s, m + US + (p + RS + x), s', m' + US + (p' + RS + y), UNIT_SEPARATOR);
    SplitAtSeparator(m, p + RS + x, m', p' + RS + y, UNIT_SEPARATOR);
    SplitAtSeparator(p, x, p', y, RECORD_SEPARATOR);
  }

  lemma Spread(s: string, m: string, p: string, x: string)
    ensures US + (s + (US + (m + (US + (p + RS))))) + x == US + (s + US + (m + US + (p + RS + x)))
  {
  }

  /** The first row of a text can be read off it, unless it goes on to spell a longer bib. */
  lemma RowReadsBack(a: Entry, x: string, b: Entry, y: string)
    requires !(Row(a) <= b.bib) && !(Row(b) <= a.bib)
    requires a.bib + (EndingOf(a) + x) == b.bib + (EndingOf(b) + y)
    ensures SameRow(a, b) && x == y
  {
    if |a.bib| < |b.bib| {
      LongerBibSpells(a, x, b, y);
    } else if |b.bib| < |a.bib| {
      LongerBibSpells(b, y, a, x);
    } else {
      ConcatInjective(a.bib, EndingOf(a) + x, b.bib, EndingOf(b) + y);
      EndingInjective(a, x, b, y);
    }
  }

  /** Rows of one text under bibs of two lengths: the longer bib begins with the other's whole row. */
  lemma LongerBibSpells(a: Entry, x: string, b: Entry, y: string)
    requires |a.bib| < |b.bib|
    requires a.bib + (EndingOf(a) + x) == b.bib + (EndingOf(b) + y)
    ensures Row(a) <= b.bib
  {
    if |b.bib| < |a.bib| + |EndingOf(a)| {
      RestOfText(a.bib, EndingOf(a), x, b.bib, EndingOf(b) + y);
      NoEndingStartsInside(a, x, b, y, |b.bib| - |a.bib|);
    } else {
      Overhang(a.bib, EndingOf(a), x, b.bib, EndingOf(b) + y);
    }
  }

  lemma RestOfText(u: string, e: string, x: string, b: string, z: string)
    requires u + (e + x) == b + z && |u| <= |b| < |u| + |e|
    ensures e[|b| - |u|..] + x == z
  {
    assert z == (u + (e + x))[|b|..];
    assert (u + (e + x))[|b|..] == (e + x)[|b| - |u|..];
  }

  lemma NoEndingStartsInside(a: Entry, x: string, b: Entry, y: string, t: nat)
    requires 0 < t < |EndingOf(a)|
    ensures EndingOf(a)[t..] + x != EndingOf(b) + y
  {
    EndingStarts(b);
    assert (EndingOf(a)[t..] + x)[0] == EndingOf(a)[t];
    if EndingOf(a)[t] == UNIT_SEPARATOR {
      AfterSeparator(a.status, a.scoringTimeMs, a.place, t);
      assert (EndingOf(a)[t..] + x)[1] == EndingOf(a)[t + 1];
    }
  }

  lemma Overhang(u: string, e: string, x: string, b: string, y: string)
    requires u + (e + x) == b + y && |u| + |e| <= |b|
    ensures u + e <= b
  {
    var whole := u + (e + x);
    assert b == whole[..|b|];
    assert u + e == whole[..|u| + |e|];
  }

  lemma DigestUncons(entries: seq<Entry>)
    requires entries != []
    ensures DigestText(entries) == Row(entries[0]) + DigestText(entries[1..])
  {
    ConcatUncons(Map(Row, entries));
    assert Map(Row, entries)[1..] == Map(Row, entries[1..]);
  }

  lemma DigestEnd(entries: seq<Entry>, e: Entry)
    ensures DigestText(entries + [e]) == DigestText(entries) + Row(e)
  {
    assert Map(Row, entries + [e])[..|entries|] == Map(Row, entries);
  }

  /** Nowhere does a bib begin with the whole row that stands in its place in the other list. */
  ghost predicate Apart(a: seq<Entry>, b: seq<Entry>)
  {
    forall i :: 0 <= i < |a| && i < |b| ==> !(Row(a[i]) <= b[i].bib) && !(Row(b[i]) <= a[i].bib)
  }

  lemma ApartUncons(a: seq<Entry>, b: seq<Entry>)
    requires a != [] && b != []
    ensures Apart(a, b) <==> !(Row(a[0]) <= b[0].bib) && !(Row(b[0]) <= a[0].bib) && Apart(a[1..], b[1..])
  {
    if !(Row(a[0]) <= b[0].bib) && !(Row(b[0]) <= a[0].bib) && Apart(a[1..], b[1..]) {
      forall i | 0 <= i < |a| && i < |b|
        ensures !(Row(a[i]) <= b[i].bib) && !(Row(b[i]) <= a[i].bib)
      {
        assert i > 0 ==> a[i] == a[1..][i - 1] && b[i] == b[1..][i - 1];
      }
    }
    if Apart(a, b) {
      forall i | 0 <= i < |a[1..]| && i < |b[1..]|
        ensures !(Row(a[1..][i]) <= b[1..][i].bib) && !(Row(b[1..][i]) <= a[1..][i].bib)
      {
        assert a[1..][i] == a[i + 1] && b[1..][i] == b[i + 1];
      }
    }
  }

  ghost predicate SameRows(a: seq<Entry>, b: seq<Entry>)
  {
    |a| == |b| && forall i :: 0 <= i < |a| ==> SameRow(a[i], b[i])
  }

  /** Whatever the bibs, two lists agree in bib, status, scoring time and place, in order, exactly
      when their texts are equal and no bib begins with the row in its place in the other list. */
  lemma {:induction false} DigestReadsBack(a: seq<Entry>, b: seq<Entry>)
    ensures SameRows(a, b) <==> DigestText(a) == DigestText(b) && Apart(a, b)
  {
    if a != [] {
      DigestUncons(a);
    }
    if b != [] {
      DigestUncons(b);
    }
    if a != [] && b != [] {
      DigestReadsBack(a[1..], b[1..]);
      RowsUncons(a, b);
      ApartUncons(a, b);
      FirstRows(a[0], DigestText(a[1..]), b[0], DigestText(b[1..]));
    }
  }

  lemma FirstRows(a: Entry, x: string, b: Entry, y: string)
    ensures SameRow(a, b) ==> Row(a) == Row(b) && !(Row(a) <= b.bib) && !(Row(b) <= a.bib)
    ensures Row(a) + x == Row(b) + y && !(Row(a) <= b.bib) && !(Row(b) <= a.bib) ==> SameRow(a, b) && x == y
  {
    EndingStarts(a);
    Regroup(a.bib, EndingOf(a), x);
    Regroup(b.bib, EndingOf(b), y);
    if Row(a) + x == Row(b) + y && !(Row(a) <= b.bib) && !(Row(b) <= a.bib) {
      RowReadsBack(a, x, b, y);
    }
  }

  lemma RowsUncons(a: seq<Entry>, b: seq<Entry>)
    requires a != [] && b != []
    ensures SameRows(a, b) <==> SameRow(a[0], b[0]) && SameRows(a[1..], b[1..])
  {
    if SameRow(a[0], b[0]) && SameRows(a[1..], b[1..]) {
      forall i | 0 <= i < |a|
        ensures SameRow(a[i], b[i])
      {
        if i > 0 {
          assert SameRow(a[1..][i - 1], b[1..][i - 1]);
        }
      }
    }
  }

  // ----- The difference -----

  datatype ChangeKind = StatusChange | PlacementChange | Addition | Removal

  datatype Change = Change(
    bib: string,
    name: string,
    kind: ChangeKind,
    statusFrom: Option<string>,
    statusTo: Option<string>,
    placeFrom: Option<int>,
    placeTo: Option<int>,
    timeFrom: Option<string>,
    timeTo: Option<string>,
    reason: Option<string>)

  /** One participant's lines: in both revisions, only in the later one, only in the earlier one. */
  datatype Pair = Kept(before: Entry, after: Entry) | Gained(after: Entry) | Gone(before: Entry)

  /** The first line of a participant. */
  function EntryOf(entries: seq<Entry>, participant: Uuid): Option<Entry>
  {
    if entries == [] then None
    else if entries[0].participant == participant then Some(entries[0])
    else EntryOf(entries[1..], participant)
  }

  function TimeText(ms: Option<int>): Option<string>
  {
    if ms.Some? then Some(Export.FormatDuration(ms.value)) else None
  }

  function When<T>(condition: bool, value: Option<T>): Option<T>
  {
    if condition then value else None
  }

  function Altered(before: Entry, entry: Entry): Change
  {
    var status, place, time :=
      before.status != entry.status, before.place != entry.place, before.scoringTimeMs != entry.scoringTimeMs;
    Change(entry.bib, entry.name, if status then StatusChange else PlacementChange,
           When(status, Some(StatusText(before.status))), When(status, Some(StatusText(entry.status))),
           When(place, before.place), When(place, entry.place),
           TimeText(When(time, before.scoringTimeMs)), TimeText(When(time, entry.scoringTimeMs)),
           entry.statusReason)
  }

  function Added(entry: Entry): Change
  {
    Change(entry.bib, entry.name, Addition, None, Some(StatusText(entry.status)), None, entry.place,
           None, TimeText(entry.scoringTimeMs), entry.statusReason)
  }

  function Removed(entry: Entry): Change
  {
    Change(entry.bib, entry.name, Removal, Some(StatusText(entry.status)), None, entry.place, None,
           TimeText(entry.scoringTimeMs), None, None)
  }

  function ChangeOf(p: Pair): Change
  {
    match p
    case Kept(before, after) => Altered(before, after)
    case Gained(after) => Added(after)
    case Gone(before) => Removed(before)
  }

  predicate Changed(p: Pair)
  {
    p.Kept? ==> !SameResult(p.before, p.after)
  }

  function PairOf(earlier: seq<Entry>, entry: Entry): Pair
  {
    var held := EntryOf(earlier, entry.participant);
    if held.Some? then Kept(held.value, entry) else Gained(entry)
  }

  /** Everyone in the later revision, beside their line in the earlier one. */
  function LaterPairs(earlier: seq<Entry>, later: seq<Entry>): seq<Pair>
  {
    if later == [] then []
    else
      var last := later[|later| - 1];
      LaterPairs(earlier, later[..|later| - 1]) + [PairOf(earlier, last)]
  }

  /** Everyone in the earlier revision who is gone from the later one. */
  function GonePairs(earlier: seq<Entry>, later: seq<Entry>): seq<Pair>
  {
    if earlier == [] then []
    else
      var last := earlier[|earlier| - 1];
      GonePairs(earlier[..|earlier| - 1], later)
      + if EntryOf(later, last.participant).None? then [Gone(last)] else []
  }

  function Pairs(earlier: seq<Entry>, later: seq<Entry>): seq<Pair>
  {
    LaterPairs(earlier, later) + GonePairs(earlier, later)
  }

  function ChangesOf(pairs: seq<Pair>): seq<Change>
  {
    if pairs == [] then []
    else
      var last := pairs[|pairs| - 1];
      ChangesOf(pairs[..|pairs| - 1]) + if Changed(last) then [ChangeOf(last)] else []
  }

  function UnchangedOf(pairs: seq<Pair>): nat
  {
    if pairs == [] then 0
    else UnchangedOf(pairs[..|pairs| - 1]) + if Changed(pairs[|pairs| - 1]) then 0 else 1
  }

  lemma PairsSnoc(pairs: seq<Pair>, p: Pair)
    ensures ChangesOf(pairs + [p]) == ChangesOf(pairs) + if Changed(p) then [ChangeOf(p)] else []
    ensures UnchangedOf(pairs + [p]) == UnchangedOf(pairs) + if Changed(p) then 0 else 1
  {
    assert (pairs + [p])[..|pairs|] == pairs;
  }

  ghost predicate DiffSoFar(pairs: seq<Pair>, changes: seq<Change>, same: nat)
  {
    changes == ChangesOf(pairs) && same == UnchangedOf(pairs)
  }

  method Diff(earlier: seq<Entry>, later: seq<Entry>) returns (changes: seq<Change>, same: nat)
    ensures changes == ChangesOf(Pairs(earlier, later)) && same == UnchangedOf(Pairs(earlier, later))
  {
    changes, same := [], 0;
    for i := 0 to |later|
      invariant DiffSoFar(LaterPairs(earlier, later[..i]), changes, same)
    {
      var entry := later[i];
      assert later[..i + 1][..i] == later[..i];
      var held := EntryOf(earlier, entry.participant);
      PairsSnoc(LaterPairs(earlier, later[..i]), PairOf(earlier, entry));
      if held.Some? {
        if SameResult(held.value, entry) {
          same := same + 1;
        } else {
          changes := changes + [Altered(held.value, entry)];
        }
      } else {
        changes := changes + [Added(entry)];
      }
    }
    assert later[..|later|] == later;
    ghost var met := LaterPairs(earlier, later);
    assert met + GonePairs(earlier[..0], later) == met;
    for i := 0 to |earlier|
      invariant DiffSoFar(met + GonePairs(earlier[..i], later), changes, same)
    {
      var entry := earlier[i];
      GoneNext(met, earlier, later, i);
      if EntryOf(later, entry.participant).None? {
        changes := changes + [Removed(entry)];
      }
    }
    assert earlier[..|earlier|] == earlier;
  }

  lemma GoneNext(met: seq<Pair>, earlier: seq<Entry>, later: seq<Entry>, i: nat)
    requires i < |earlier|
    ensures var gone, next := met + GonePairs(earlier[..i], later), met + GonePairs(earlier[..i + 1], later);
            if EntryOf(later, earlier[i].participant).None?
            then ChangesOf(next) == ChangesOf(gone) + [Removed(earlier[i])] && UnchangedOf(next) == UnchangedOf(gone)
            else next == gone
  {
    assert earlier[..i + 1][..i] == earlier[..i];
    if EntryOf(later, earlier[i].participant).None? {
      var p := Gone(earlier[i]);
      PairsSnoc(met + GonePairs(earlier[..i], later), p);
      assert met + GonePairs(earlier[..i + 1], later) == met + GonePairs(earlier[..i], later) + [p];
    }
  }
}
