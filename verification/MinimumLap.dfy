/** The minimum lap: a burst credited too soon after the crossing before it is a re-read.
    The rule is greedy, restarts at the gun, and loses no crossing it could have kept. */
module MinimumLap {
  import opened Ordering
  import opened Domain
  import opened Selection

  type Track = seq<Option<Candidate>>

  function LapMs(from: Candidate, to: Candidate): int
  {
    WholeMs(to.at - from.at)
  }

  /** Not measured across the gun: a warm-up is not the start of a lap. */
  predicate TooSoon(last: Option<Candidate>, next: Candidate, minLapMs: Option<U64>)
  {
    && minLapMs.Some? && last.Some?
    && (last.value.race || !next.race)
    && LapMs(last.value, next) < minLapMs.value
  }

  /** The last of the first `n` bursts to be credited. */
  function LastCredited(track: Track, n: nat, minLapMs: Option<U64>): (last: Option<nat>)
    requires n <= |track|
    ensures last.Some? ==> last.value < n && track[last.value].Some?
  {
    if n == 0 then None
    else
      var last := LastCredited(track, n - 1, minLapMs);
      if Passes(track, last, n - 1, minLapMs) then Some(n - 1) else last
  }

  predicate Passes(track: Track, last: Option<nat>, i: nat, minLapMs: Option<U64>)
    requires i < |track| && (last.Some? ==> last.value < i)
  {
    track[i].Some? && !TooSoon(CandidateAt(track, last), track[i].value, minLapMs)
  }

  function CandidateAt(track: Track, i: Option<nat>): Option<Candidate>
    requires i.Some? ==> i.value < |track|
  {
    if i.Some? then track[i.value] else None
  }

  predicate Credited(track: Track, i: nat, minLapMs: Option<U64>)
    requires i < |track|
  {
    Passes(track, LastCredited(track, i, minLapMs), i, minLapMs)
  }

  lemma {:induction false} LastCreditedIsLast(track: Track, n: nat, minLapMs: Option<U64>)
    requires n <= |track|
    ensures var last := LastCredited(track, n, minLapMs);
            && (last.Some? ==> Credited(track, last.value, minLapMs))
            && forall k :: (if last.Some? then last.value + 1 else 0) <= k < n ==> !Credited(track, k, minLapMs)
  {
    if n > 0 {
      LastCreditedIsLast(track, n - 1, minLapMs);
    }
  }

  // ----- The greedy choice is a best choice -----

  ghost predicate Spaced(track: Track, s: set<nat>, minLapMs: Option<U64>)
  {
    forall i, j :: i in s && j in s && i < j ==> FarApart(track, i, j, minLapMs)
  }

  ghost predicate FarApart(track: Track, i: nat, j: nat, minLapMs: Option<U64>)
  {
    i < |track| && j < |track| && track[i].Some? && track[j].Some? && minLapMs.Some? ==>
      LapMs(track[i].value, track[j].value) >= minLapMs.value
  }

  /** Bursts among the first `n` that could be credited, all on one side of the gun. */
  ghost predicate OnSide(track: Track, n: nat, race: bool, s: set<nat>)
    requires n <= |track|
  {
    forall i :: i in s ==> i < n && track[i].Some? && track[i].value.race == race
  }

  ghost function CreditedOn(track: Track, n: nat, race: bool, minLapMs: Option<U64>): set<nat>
    requires n <= |track|
  {
    if n == 0 then {}
    else CreditedOn(track, n - 1, race, minLapMs) + (if JoinsSide(track, n - 1, race, minLapMs) then {n - 1} else {})
  }

  ghost predicate JoinsSide(track: Track, i: nat, race: bool, minLapMs: Option<U64>)
    requires i < |track|
  {
    Credited(track, i, minLapMs) && track[i].value.race == race
  }

  lemma {:induction false} CreditedOnMeans(track: Track, n: nat, race: bool, minLapMs: Option<U64>, i: nat)
    requires n <= |track|
    ensures i in CreditedOn(track, n, race, minLapMs) <==> i < n && JoinsSide(track, i, race, minLapMs)
  {
    if n > 0 {
      CreditedOnMeans(track, n - 1, race, minLapMs, i);
    }
  }

  lemma CreditedOnGrows(track: Track, n: nat, race: bool, minLapMs: Option<U64>)
    requires n < |track|
    ensures |CreditedOn(track, n + 1, race, minLapMs)|
            == |CreditedOn(track, n, race, minLapMs)| + if JoinsSide(track, n, race, minLapMs) then 1 else 0
  {
    CreditedOnMeans(track, n, race, minLapMs, n);
  }

  /** The crossing a lap is measured from is on the lap's own side of the gun, if any is. */
  lemma RivalOnSameSide(track: Track, i: nat, n: nat, minLapMs: Option<U64>)
    requires Ordered(track) && i < n < |track| && track[n].Some?
    requires JoinsSide(track, i, track[n].value.race, minLapMs)
    ensures var last := LastCredited(track, n, minLapMs);
            && last.Some? && i <= last.value
            && JoinsSide(track, last.value, track[n].value.race, minLapMs)
  {
    LastCreditedIsLast(track, n, minLapMs);
  }

  lemma LapShrinks(track: Track, i: nat, j: nat, n: nat)
    requires Ordered(track) && i <= j < n < |track|
    requires track[i].Some? && track[j].Some? && track[n].Some?
    ensures LapMs(track[j].value, track[n].value) <= LapMs(track[i].value, track[n].value)
  {
    WholeMsMonotone(track[n].value.at - track[j].value.at, track[n].value.at - track[i].value.at);
  }

  lemma CreditedAreSpaced(track: Track, race: bool, minLapMs: Option<U64>)
    requires Ordered(track)
    ensures OnSide(track, |track|, race, CreditedOn(track, |track|, race, minLapMs))
    ensures Spaced(track, CreditedOn(track, |track|, race, minLapMs), minLapMs)
  {
    var s := CreditedOn(track, |track|, race, minLapMs);
    forall i | i in s
      ensures i < |track| && JoinsSide(track, i, race, minLapMs)
    {
      CreditedOnMeans(track, |track|, race, minLapMs, i);
    }
    forall i, j | i in s && j in s && i < j
      ensures FarApart(track, i, j, minLapMs)
    {
      RivalOnSameSide(track, i, j, minLapMs);
      LapShrinks(track, i, LastCredited(track, j, minLapMs).value, j);
    }
  }

  /** A member of `s` no earlier than anything in `c`. */
  ghost predicate Reaches(s: set<nat>, c: set<nat>)
  {
    exists m :: m in s && AtLeast(m, c)
  }

  ghost predicate AtLeast(m: nat, c: set<nat>)
  {
    forall k :: k in c ==> k <= m
  }

  lemma SpacedSubset(track: Track, s: set<nat>, t: set<nat>, minLapMs: Option<U64>)
    requires Spaced(track, s, minLapMs) && t <= s
    ensures Spaced(track, t, minLapMs)
  {
    forall i, j | i in t && j in t && i < j
      ensures FarApart(track, i, j, minLapMs)
    {
      assert i in s && j in s;
    }
  }

  /** No larger, and no earlier to end at equal size. */
  ghost predicate Behind(s: set<nat>, greedy: set<nat>)
  {
    |s| <= |greedy| && (s != {} && |s| == |greedy| ==> Reaches(s, greedy))
  }

  /** Any spaced choice is behind the greedy one. */
  lemma {:induction false} GreedyStaysAhead(track: Track, n: nat, race: bool, minLapMs: Option<U64>, s: set<nat>)
    requires Ordered(track) && n <= |track|
    requires OnSide(track, n, race, s) && Spaced(track, s, minLapMs)
    ensures Behind(s, CreditedOn(track, n, race, minLapMs))
    decreases n, 0
  {
    if n == 0 {
      assert s == {} by { NothingToChoose(track, race, s); }
    } else if n - 1 in s {
      TakeLast(track, n - 1, race, minLapMs, s);
    } else {
      LeaveLast(track, n - 1, race, minLapMs, s);
    }
  }

  lemma {:induction false} LeaveLast(track: Track, k: nat, race: bool, minLapMs: Option<U64>, s: set<nat>)
    requires Ordered(track) && k < |track| && k !in s
    requires OnSide(track, k + 1, race, s) && Spaced(track, s, minLapMs)
    ensures Behind(s, CreditedOn(track, k + 1, race, minLapMs))
    decreases k, 1
  {
    assert OnSide(track, k, race, s);
    GreedyStaysAhead(track, k, race, minLapMs, s);
    SkipStep(track, k, race, minLapMs, s);
  }

  lemma {:induction false} TakeLast(track: Track, k: nat, race: bool, minLapMs: Option<U64>, s: set<nat>)
    requires Ordered(track) && k < |track| && k in s
    requires OnSide(track, k + 1, race, s) && Spaced(track, s, minLapMs)
    ensures Behind(s, CreditedOn(track, k + 1, race, minLapMs))
    decreases k, 1
  {
    RestIsSpaced(track, k + 1, race, minLapMs, s);
    GreedyStaysAhead(track, k, race, minLapMs, s - {k});
    StaysAheadStep(track, k, race, minLapMs, s);
  }

  lemma NothingToChoose(track: Track, race: bool, s: set<nat>)
    requires OnSide(track, 0, race, s)
    ensures s == {}
  {
  }

  lemma RestIsSpaced(track: Track, n: nat, race: bool, minLapMs: Option<U64>, s: set<nat>)
    requires 0 < n <= |track| && OnSide(track, n, race, s) && Spaced(track, s, minLapMs)
    ensures OnSide(track, n - 1, race, s - {n - 1}) && Spaced(track, s - {n - 1}, minLapMs)
  {
    SpacedSubset(track, s, s - {n - 1}, minLapMs);
  }

  lemma SkipStep(track: Track, k: nat, race: bool, minLapMs: Option<U64>, s: set<nat>)
    requires k < |track| && Behind(s, CreditedOn(track, k, race, minLapMs))
    ensures Behind(s, CreditedOn(track, k + 1, race, minLapMs))
  {
    CreditedOnGrows(track, k, race, minLapMs);
    if !JoinsSide(track, k, race, minLapMs) {
      assert CreditedOn(track, k + 1, race, minLapMs) == CreditedOn(track, k, race, minLapMs);
    }
  }

  lemma StaysAheadStep(track: Track, k: nat, race: bool, minLapMs: Option<U64>, s: set<nat>)
    requires Ordered(track) && k < |track| && k in s
    requires OnSide(track, k + 1, race, s) && Spaced(track, s, minLapMs)
    requires Behind(s - {k}, CreditedOn(track, k, race, minLapMs))
    ensures Behind(s, CreditedOn(track, k + 1, race, minLapMs))
  {
    assert |s - {k}| == |s| - 1;
    assert s - {k} == {} ==> s == {k};
    CreditedOnGrows(track, k, race, minLapMs);
    var after := CreditedOn(track, k + 1, race, minLapMs);
    forall i | i in after
      ensures i <= k
    {
      CreditedOnMeans(track, k + 1, race, minLapMs, i);
    }
    assert AtLeast(k, after);
    if !Credited(track, k, minLapMs) && |s| == |CreditedOn(track, k, race, minLapMs)| + 1 {
      RefusalIsFair(track, k, race, minLapMs, s);
    }
  }

  /** Where a burst is refused, a spaced choice that takes it had fallen behind. */
  lemma RefusalIsFair(track: Track, k: nat, race: bool, minLapMs: Option<U64>, s: set<nat>)
    requires Ordered(track) && k < |track| && k in s
    requires OnSide(track, k + 1, race, s) && Spaced(track, s, minLapMs)
    requires !Credited(track, k, minLapMs)
    requires |s| == |CreditedOn(track, k, race, minLapMs)| + 1
    ensures s != {k} && !Reaches(s - {k}, CreditedOn(track, k, race, minLapMs))
  {
    var c := CreditedOn(track, k, race, minLapMs);
    LastCreditedIsLast(track, k, minLapMs);
    var last := LastCredited(track, k, minLapMs).value;
    CreditedOnMeans(track, k, race, minLapMs, last);
    assert last in c && |c| > 0;
    forall m | m in s - {k}
      ensures !AtLeast(m, c)
    {
      assert FarApart(track, m, k, minLapMs);
      if last <= m {
        LapShrinks(track, last, m, k);
      }
    }
  }

  /** On each side of the gun the credited crossings are pairwise at least the minimum lap apart,
      and no other such choice of candidate bursts is larger. */
  lemma CreditIsOptimal(track: Track, race: bool, minLapMs: Option<U64>, s: set<nat>)
    requires Ordered(track)
    requires OnSide(track, |track|, race, s) && Spaced(track, s, minLapMs)
    ensures |s| <= |CreditedOn(track, |track|, race, minLapMs)|
    ensures OnSide(track, |track|, race, CreditedOn(track, |track|, race, minLapMs))
    ensures Spaced(track, CreditedOn(track, |track|, race, minLapMs), minLapMs)
  {
    GreedyStaysAhead(track, |track|, race, minLapMs, s);
    CreditedAreSpaced(track, race, minLapMs);
  }

  /** No warm-up can cost a runner their start. */
  lemma FirstRaceSideIsCredited(track: Track, i: nat, minLapMs: Option<U64>)
    requires i < |track| && track[i].Some? && track[i].value.race
    requires forall k :: 0 <= k < i && track[k].Some? ==> !track[k].value.race
    ensures Credited(track, i, minLapMs)
  {
  }

  // ----- What a gun changes -----

  /** The same bursts, judged with no gun in force. */
  function NoGun(track: Track): (r: Track)
    ensures |r| == |track|
    ensures forall i :: 0 <= i < |r| ==>
      r[i] == if track[i].Some? then Some(Candidate(track[i].value.at, true)) else None
  {
    seq(|track|, i requires 0 <= i < |track| =>
      if track[i].Some? then Some(Candidate(track[i].value.at, true)) else None)
  }

  /** Recording a gun never lowers the number of crossings. */
  lemma GunNeverLowers(track: Track, minLapMs: Option<U64>)
    requires Ordered(track)
    ensures |CreditedOn(NoGun(track), |track|, true, minLapMs)|
            <= |CreditedOn(track, |track|, true, minLapMs)| + |CreditedOn(track, |track|, false, minLapMs)|
    ensures CreditedOn(NoGun(track), |track|, false, minLapMs) == {}
  {
    var bare := NoGun(track);
    CreditedAreSpaced(bare, true, minLapMs);
    SpacedIgnoresGun(track, CreditedOn(bare, |track|, true, minLapMs), minLapMs);
    SplitAtTheGun(track, minLapMs, CreditedOn(bare, |track|, true, minLapMs));
    NobodyBeforeNoGun(track, |track|, minLapMs);
  }

  lemma SpacedIgnoresGun(track: Track, s: set<nat>, minLapMs: Option<U64>)
    requires Spaced(NoGun(track), s, minLapMs)
    ensures Spaced(track, s, minLapMs)
  {
    forall i, j | i in s && j in s && i < j
      ensures FarApart(track, i, j, minLapMs)
    {
      assert FarApart(NoGun(track), i, j, minLapMs);
    }
  }

  lemma {:induction false} NobodyBeforeNoGun(track: Track, n: nat, minLapMs: Option<U64>)
    requires n <= |track|
    ensures CreditedOn(NoGun(track), n, false, minLapMs) == {}
  {
    if n > 0 {
      NobodyBeforeNoGun(track, n - 1, minLapMs);
    }
  }

  lemma SplitAtTheGun(track: Track, minLapMs: Option<U64>, all: set<nat>)
    requires Ordered(track) && Spaced(track, all, minLapMs)
    requires forall i :: i in all ==> i < |track| && track[i].Some?
    ensures |all| <= |CreditedOn(track, |track|, true, minLapMs)| + |CreditedOn(track, |track|, false, minLapMs)|
  {
    var after, before := SideOf(track, all, true), SideOf(track, all, false);
    SpacedSubset(track, all, after, minLapMs);
    SpacedSubset(track, all, before, minLapMs);
    GreedyStaysAhead(track, |track|, true, minLapMs, after);
    GreedyStaysAhead(track, |track|, false, minLapMs, before);
    SidesMakeTheWhole(track, all);
  }

  ghost function SideOf(track: Track, all: set<nat>, race: bool): (s: set<nat>)
    requires forall i :: i in all ==> i < |track| && track[i].Some?
    ensures s <= all && OnSide(track, |track|, race, s)
  {
    set i | i in all && track[i].value.race == race
  }

  lemma SidesMakeTheWhole(track: Track, all: set<nat>)
    requires forall i :: i in all ==> i < |track| && track[i].Some?
    ensures |all| == |SideOf(track, all, true)| + |SideOf(track, all, false)|
  {
    var after, before := SideOf(track, all, true), SideOf(track, all, false);
    assert before == all - after;
  }

  /** With no minimum lap, every candidate is credited, wherever the gun is. */
  lemma NoMinimumCreditsAll(track: Track, i: nat)
    requires i < |track|
    ensures Credited(track, i, None) <==> track[i].Some?
  {
  }
}
