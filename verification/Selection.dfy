/** Which burst of one chip at one checkpoint becomes a crossing, and from which read. */
module Selection {
  import opened Ordering
  import opened Domain
  import opened Bursts

  /** A missing signal strength counts as the weakest one. */
  function Strength(r: Read): I16
  {
    if r.rssi.Some? then r.rssi.value else I16_MIN
  }

  predicate Clears(r: Read, floorDbm: I16)
  {
    r.rssi.Some? && r.rssi.value >= floorDbm
  }

  function FirstAbove(burst: Burst, floorDbm: I16): (chosen: Option<Read>)
    ensures chosen.None? <==> forall i :: 0 <= i < |burst| ==> !Clears(burst[i], floorDbm)
    ensures chosen.Some? ==> exists i :: 0 <= i < |burst| && chosen.value == burst[i] && Clears(burst[i], floorDbm)
                                      && forall j :: 0 <= j < i ==> !Clears(burst[j], floorDbm)
  {
    if burst == [] then None
    else if Clears(burst[0], floorDbm) then Some(burst[0])
    else
      var rest := FirstAbove(burst[1..], floorDbm);
      assert rest.Some? ==> exists i :: 0 <= i < |burst| && rest.value == burst[i] && Clears(burst[i], floorDbm)
                                     && forall j :: 0 <= j < i ==> !Clears(burst[j], floorDbm) by {
        if rest.Some? {
          var i :| 0 <= i < |burst[1..]| && rest.value == burst[1..][i] && Clears(burst[1..][i], floorDbm)
                && forall j :: 0 <= j < i ==> !Clears(burst[1..][j], floorDbm);
          assert rest.value == burst[i + 1];
          forall j | 0 <= j < i + 1
            ensures !Clears(burst[j], floorDbm)
          {
            assert j > 0 ==> burst[j] == burst[1..][j - 1];
          }
        }
      }
      assert rest.None? ==> forall i :: 0 < i < |burst| ==> burst[i] == burst[1..][i - 1];
      rest
  }

  /** The strongest read; among equals, the earliest. */
  function Peak(burst: Burst): (k: nat)
    requires burst != []
    ensures k < |burst|
    ensures forall j :: 0 <= j < |burst| ==> Strength(burst[j]) <= Strength(burst[k])
    ensures forall j :: 0 <= j < k ==> Strength(burst[j]) < Strength(burst[k])
  {
    var n := |burst|;
    if n == 1 then 0
    else
      var k := Peak(burst[..n - 1]);
      if Strength(burst[n - 1]) > Strength(burst[k]) then n - 1 else k
  }

  function Select(burst: Burst, rule: SelectionRule): (chosen: Option<Read>)
    ensures chosen.Some? ==> chosen.value in burst
  {
    match rule
    case First => if burst == [] then None else Some(burst[0])
    case FirstAboveRssi(floorDbm) => FirstAbove(burst, floorDbm)
    case PeakRssi => if burst == [] then None else Some(burst[Peak(burst)])
  }

  /** Judged by the burst's last read, not by the credited one. */
  predicate OnTheRaceSide(burst: Burst, gun: Option<Time>)
  {
    gun.None? || (burst != [] && At(burst[|burst| - 1]) >= gun.value)
  }

  // ----- Time order across bursts -----

  /** Every read of one burst is strictly before every read of another. */
  ghost predicate Before(left: Burst, right: Burst)
  {
    forall x, y :: x in left && y in right ==> At(x) < At(y)
  }

  ghost predicate Chronological(bursts: seq<Burst>)
  {
    forall i, j :: 0 <= i < j < |bursts| ==> Before(bursts[i], bursts[j])
  }

  ghost predicate TimeOrdered(group: seq<Read>)
  {
    forall i, j :: 0 <= i < j < |group| ==> At(group[i]) <= At(group[j])
  }

  ghost predicate UpTo(burst: Burst, at: Time)
  {
    forall x :: x in burst ==> At(x) <= at
  }

  ghost predicate AllUpTo(bursts: seq<Burst>, at: Time)
  {
    forall i :: 0 <= i < |bursts| ==> UpTo(bursts[i], at)
  }

  lemma {:induction false} BurstsChronological(group: seq<Read>, window: nat)
    requires TimeOrdered(group)
    ensures Chronological(BurstsOf(group, window))
    ensures group != [] ==> AllUpTo(BurstsOf(group, window), At(group[|group| - 1]))
  {
    if group != [] {
      var front, r := group[..|group| - 1], group[|group| - 1];
      var bursts := BurstsOf(front, window);
      BurstsChronological(front, window);
      if front != [] {
        assert At(front[|front| - 1]) <= At(r);
      }
      GrowChronological(bursts, r, window);
    }
  }

  lemma GrowChronological(bursts: seq<Burst>, r: Read, window: nat)
    requires NonEmpty(bursts) && Chronological(bursts)
    requires bursts != [] ==> AllUpTo(bursts, At(LastRead(bursts))) && At(LastRead(bursts)) <= At(r)
    ensures Chronological(Grow(bursts, r, window)) && AllUpTo(Grow(bursts, r, window), At(r))
  {
    var n, grown := |bursts|, Grow(bursts, r, window);
    assert UpTo([r], At(r));
    if bursts != [] {
      forall i | 0 <= i < n
        ensures UpTo(bursts[i], At(r))
      {
        assert UpTo(bursts[i], At(LastRead(bursts)));
      }
      var last := bursts[n - 1];
      if At(r) - At(LastRead(bursts)) > window {
        forall i | 0 <= i < n
          ensures Before(bursts[i], [r])
        {
          assert UpTo(bursts[i], At(LastRead(bursts)));
        }
      } else {
        assert UpTo(last + [r], At(r)) by { assert UpTo(last, At(r)); }
        forall i | 0 <= i < n - 1
          ensures Before(bursts[i], last + [r])
        {
          assert Before(bursts[i], last) && LastRead(bursts) in last;
        }
      }
    }
  }

  // ----- What the minimum lap sees of each burst -----

  /** A burst with a credible read: when it would be credited, and its side of the gun. */
  datatype Candidate = Candidate(at: Time, race: bool)

  function CandidateOf(burst: Burst, rule: SelectionRule, gun: Option<Time>): Option<Candidate>
  {
    var chosen := Select(burst, rule);
    if chosen.None? then None else Some(Candidate(At(chosen.value), OnTheRaceSide(burst, gun)))
  }

  function Candidates(bursts: seq<Burst>, rule: SelectionRule, gun: Option<Time>): (track: seq<Option<Candidate>>)
    ensures |track| == |bursts|
    ensures forall i :: 0 <= i < |track| ==> track[i] == CandidateOf(bursts[i], rule, gun)
  {
    seq(|bursts|, i requires 0 <= i < |bursts| => CandidateOf(bursts[i], rule, gun))
  }

  /** Candidates are in strict time order, and once one is on the race side all later ones are. */
  ghost predicate Ordered(track: seq<Option<Candidate>>)
  {
    forall i, j :: 0 <= i < j < |track| && track[i].Some? && track[j].Some? ==>
      track[i].value.at < track[j].value.at && (track[i].value.race ==> track[j].value.race)
  }

  lemma CandidatesOrdered(group: seq<Read>, window: nat, rule: SelectionRule, gun: Option<Time>)
    requires TimeOrdered(group)
    ensures Ordered(Candidates(BurstsOf(group, window), rule, gun))
  {
    var bursts := BurstsOf(group, window);
    BurstsChronological(group, window);
    var track := Candidates(bursts, rule, gun);
    forall i, j | 0 <= i < j < |track| && track[i].Some? && track[j].Some?
      ensures track[i].value.at < track[j].value.at && (track[i].value.race ==> track[j].value.race)
    {
      CandidatesInOrder(bursts[i], bursts[j], rule, gun);
    }
  }

  lemma CandidatesInOrder(a: Burst, b: Burst, rule: SelectionRule, gun: Option<Time>)
    requires Before(a, b) && a != [] && b != []
    ensures var x, y := CandidateOf(a, rule, gun), CandidateOf(b, rule, gun);
            x.Some? && y.Some? ==> x.value.at < y.value.at && (x.value.race ==> y.value.race)
  {
    assert a[|a| - 1] in a && b[|b| - 1] in b;
  }

  // ----- Wider windows -----

  function SelectableCount(bursts: seq<Burst>, rule: SelectionRule): nat
  {
    if bursts == [] then 0
    else SelectableCount(bursts[..|bursts| - 1], rule) + SelectableOne(bursts[|bursts| - 1], rule)
  }

  function SelectableOne(burst: Burst, rule: SelectionRule): nat
  {
    if Select(burst, rule).Some? then 1 else 0
  }

  lemma CountSnoc(bursts: seq<Burst>, b: Burst, rule: SelectionRule)
    ensures SelectableCount(bursts + [b], rule) == SelectableCount(bursts, rule) + SelectableOne(b, rule)
  {
    assert (bursts + [b])[..|bursts|] == bursts;
  }

  /** A burst can be selected exactly when one of its reads alone could be. */
  lemma SelectableSnoc(burst: Burst, r: Read, rule: SelectionRule)
    requires burst != []
    ensures Select(burst + [r], rule).Some? <==> Select(burst, rule).Some? || Select([r], rule).Some?
  {
    if rule.FirstAboveRssi? {
      var both := burst + [r];
      assert both[|burst|] == r && [r][0] == r;
      assert forall i :: 0 <= i < |burst| ==> both[i] == burst[i];
    }
  }

  /** Selectable bursts before the last one. */
  function FrontCount(bursts: seq<Burst>, rule: SelectionRule): nat
  {
    if bursts == [] then 0 else SelectableCount(bursts[..|bursts| - 1], rule)
  }

  /** The wide split has no more selectable bursts, with or without each split's last burst. */
  ghost predicate Fewer(wide: seq<Burst>, narrow: seq<Burst>, rule: SelectionRule)
  {
    && SelectableCount(wide, rule) <= SelectableCount(narrow, rule)
    && FrontCount(wide, rule) <= FrontCount(narrow, rule)
  }

  lemma GrowCounts(bursts: seq<Burst>, r: Read, window: nat, rule: SelectionRule)
    requires NonEmpty(bursts)
    ensures FrontCount(bursts, rule) <= SelectableCount(bursts, rule)
    ensures var grown, one, starts := Grow(bursts, r, window), SelectableOne([r], rule),
                                      bursts == [] || At(r) - At(LastRead(bursts)) > window;
            && FrontCount(grown, rule) == (if starts then SelectableCount(bursts, rule) else FrontCount(bursts, rule))
            && SelectableCount(grown, rule) == (if starts then SelectableCount(bursts, rule) + one
                 else if one == 1 then FrontCount(bursts, rule) + 1 else SelectableCount(bursts, rule))
  {
    if bursts == [] || At(r) - At(LastRead(bursts)) > window {
      CountSnoc(bursts, [r], rule);
      assert (bursts + [[r]])[..|bursts|] == bursts;
    } else {
      var front, last := bursts[..|bursts| - 1], bursts[|bursts| - 1];
      SelectableSnoc(last, r, rule);
      CountSnoc(front, last + [r], rule);
      assert (front + [last + [r]])[..|front|] == front;
    }
  }

  /** A wider window never yields more selectable bursts, whatever the selection rule. */
  lemma {:induction false} WiderWindowSelectsFewer(group: seq<Read>, narrow: nat, wide: nat, rule: SelectionRule)
    requires narrow <= wide
    ensures Fewer(BurstsOf(group, wide), BurstsOf(group, narrow), rule)
  {
    if group != [] {
      var front, r := group[..|group| - 1], group[|group| - 1];
      WiderWindowSelectsFewer(front, narrow, wide, rule);
      GrowCounts(BurstsOf(front, wide), r, wide, rule);
      GrowCounts(BurstsOf(front, narrow), r, narrow, rule);
    }
  }
}
