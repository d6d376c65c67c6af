/** Splitting one chip's reads at one checkpoint into bursts. */
module Bursts {
  import opened Ordering
  import opened Domain

  type Burst = seq<Read>

  function Flatten(bursts: seq<Burst>): seq<Read>
  {
    if bursts == [] then [] else Flatten(bursts[..|bursts| - 1]) + bursts[|bursts| - 1]
  }

  /** What a split promises: nothing lost or reordered, no empty burst, no gap above the window
      inside a burst, and every gap between two bursts above it. */
  ghost predicate IsSplit(bursts: seq<Burst>, group: seq<Read>, window: nat)
  {
    && Flatten(bursts) == group
    && NonEmpty(bursts)
    && (forall i :: 0 <= i < |bursts| ==> GapsWithin(bursts[i], window))
    && (forall i :: 1 <= i < |bursts| ==> Apart(bursts[i - 1], bursts[i], window))
  }

  ghost predicate GapsWithin(burst: Burst, window: nat)
  {
    forall j :: 1 <= j < |burst| ==> At(burst[j]) - At(burst[j - 1]) <= window
  }

  ghost predicate Apart(left: Burst, right: Burst, window: nat)
  {
    left != [] && right != [] ==> At(right[0]) - At(left[|left| - 1]) > window
  }

  ghost predicate NonEmpty(bursts: seq<Burst>)
  {
    forall i :: 0 <= i < |bursts| ==> bursts[i] != []
  }

  function LastRead(bursts: seq<Burst>): Read
    requires bursts != [] && NonEmpty(bursts)
  {
    var last := bursts[|bursts| - 1];
    last[|last| - 1]
  }

  /** One more read: it joins the last burst unless it comes more than the window after the
      previous read. */
  function Grow(bursts: seq<Burst>, r: Read, window: nat): (grown: seq<Burst>)
    requires NonEmpty(bursts)
    ensures NonEmpty(grown) && grown != [] && LastRead(grown) == r
  {
    if bursts == [] || At(r) - At(LastRead(bursts)) > window then bursts + [[r]]
    else bursts[..|bursts| - 1] + [bursts[|bursts| - 1] + [r]]
  }

  /** The split, read by read. */
  function BurstsOf(group: seq<Read>, window: nat): (bursts: seq<Burst>)
    ensures NonEmpty(bursts)
    ensures if group == [] then bursts == []
            else bursts != [] && LastRead(bursts) == group[|group| - 1]
  {
    if group == [] then [] else Grow(BurstsOf(group[..|group| - 1], window), group[|group| - 1], window)
  }

  method SplitIntoBursts(group: seq<Read>, window: nat) returns (bursts: seq<Burst>)
    ensures bursts == BurstsOf(group, window)
    ensures IsSplit(bursts, group, window)
  {
    bursts := [];
    var current: Burst := [];
    var previous: Option<Time> := None;
    for i := 0 to |group|
      invariant i == 0 ==> bursts == [] && current == [] && previous.None?
      invariant i > 0 ==> current != [] && current[|current| - 1] == group[i - 1]
      invariant i > 0 ==> previous == Some(At(group[i - 1]))
      invariant i > 0 ==> bursts + [current] == BurstsOf(group[..i], window)
    {
      var at := At(group[i]);
      ghost var before := current;
      assert group[..i + 1][..i] == group[..i];
      ghost var all := BurstsOf(group[..i], window);
      assert i > 0 ==> all[..|all| - 1] == bursts && all[|all| - 1] == current;
      if previous.Some? && at - previous.value > window && current != [] {
        bursts := bursts + [current];
        current := [];
        assert bursts == all;
      }
      assert all == [] <==> i == 0;
      assert i > 0 ==> LastRead(all) == group[i - 1];
      current := current + [group[i]];
      previous := Some(at);
      assert current == [group[i]] || current == before + [group[i]];
      assert bursts + [current] == Grow(all, group[i], window);
    }
    assert group[..|group|] == group;
    if current != [] {
      bursts := bursts + [current];
    }
    BurstsOfIsSplit(group, window);
  }

  lemma FlattenSnoc(bursts: seq<Burst>, b: Burst)
    ensures Flatten(bursts + [b]) == Flatten(bursts) + b
  {
    assert (bursts + [b])[..|bursts|] == bursts;
  }

  lemma GrowKeepsSplit(bursts: seq<Burst>, group: seq<Read>, r: Read, window: nat)
    requires IsSplit(bursts, group, window)
    ensures IsSplit(Grow(bursts, r, window), group + [r], window)
  {
    if bursts == [] || At(r) - At(LastRead(bursts)) > window {
      FlattenSnoc(bursts, [r]);
      BurstStarted(bursts, r, window);
    } else {
      var front, last := bursts[..|bursts| - 1], bursts[|bursts| - 1];
      assert bursts == front + [last];
      FlattenSnoc(front, last + [r]);
      FlattenSnoc(front, last);
      assert Flatten(front) + (last + [r]) == group + [r];
      BurstJoined(bursts, r, window);
    }
  }

  ghost predicate GapsKept(bursts: seq<Burst>, window: nat)
  {
    && NonEmpty(bursts)
    && (forall i :: 0 <= i < |bursts| ==> GapsWithin(bursts[i], window))
    && (forall i :: 1 <= i < |bursts| ==> Apart(bursts[i - 1], bursts[i], window))
  }

  lemma BurstStarted(bursts: seq<Burst>, r: Read, window: nat)
    requires GapsKept(bursts, window) && (bursts != [] ==> At(r) - At(LastRead(bursts)) > window)
    ensures GapsKept(bursts + [[r]], window)
  {
    assert bursts != [] ==> Apart(bursts[|bursts| - 1], [r], window);
  }

  lemma BurstJoined(bursts: seq<Burst>, r: Read, window: nat)
    requires GapsKept(bursts, window) && bursts != [] && At(r) - At(LastRead(bursts)) <= window
    ensures GapsKept(bursts[..|bursts| - 1] + [bursts[|bursts| - 1] + [r]], window)
  {
    var grown, last := bursts[..|bursts| - 1] + [bursts[|bursts| - 1] + [r]], bursts[|bursts| - 1];
    assert GapsWithin(last + [r], window);
    forall i | 1 <= i < |grown|
      ensures Apart(grown[i - 1], grown[i], window)
    {
      assert Apart(bursts[i - 1], bursts[i], window);
    }
  }

  lemma {:induction false} BurstsOfIsSplit(group: seq<Read>, window: nat)
    ensures IsSplit(BurstsOf(group, window), group, window)
  {
    if group != [] {
      var front, r := group[..|group| - 1], group[|group| - 1];
      BurstsOfIsSplit(front, window);
      GrowKeepsSplit(BurstsOf(front, window), front, r, window);
      assert group == front + [r];
    }
  }

  /** Taking the last read back out of a split. */
  function Shrink(bursts: seq<Burst>): seq<Burst>
    requires bursts != [] && NonEmpty(bursts)
  {
    var front, last := bursts[..|bursts| - 1], bursts[|bursts| - 1];
    if |last| == 1 then front else front + [last[..|last| - 1]]
  }

  lemma ShrinkKeepsSplit(bursts: seq<Burst>, group: seq<Read>, window: nat)
    requires IsSplit(bursts, group, window) && bursts != []
    ensures group != [] && LastRead(bursts) == group[|group| - 1]
    ensures IsSplit(Shrink(bursts), group[..|group| - 1], window)
  {
    ShrinkFlattens(bursts);
    ShrinkKeepsGaps(bursts, window);
  }

  lemma ShrinkFlattens(bursts: seq<Burst>)
    requires bursts != [] && NonEmpty(bursts)
    ensures Flatten(bursts) == Flatten(Shrink(bursts)) + [LastRead(bursts)]
  {
    var front, last := bursts[..|bursts| - 1], bursts[|bursts| - 1];
    var shorter := last[..|last| - 1];
    assert last == shorter + [last[|last| - 1]];
    FlattenSnoc(front, shorter);
  }

  lemma ShrinkKeepsGaps(bursts: seq<Burst>, window: nat)
    requires bursts != [] && NonEmpty(bursts)
    requires forall i :: 0 <= i < |bursts| ==> GapsWithin(bursts[i], window)
    requires forall i :: 1 <= i < |bursts| ==> Apart(bursts[i - 1], bursts[i], window)
    ensures NonEmpty(Shrink(bursts))
    ensures forall i :: 0 <= i < |Shrink(bursts)| ==> GapsWithin(Shrink(bursts)[i], window)
    ensures forall i :: 1 <= i < |Shrink(bursts)| ==> Apart(Shrink(bursts)[i - 1], Shrink(bursts)[i], window)
  {
    var front, last := bursts[..|bursts| - 1], bursts[|bursts| - 1];
    forall i | 1 <= i < |Shrink(bursts)|
      ensures Apart(Shrink(bursts)[i - 1], Shrink(bursts)[i], window)
    {
      assert Apart(bursts[i - 1], bursts[i], window);
    }
  }

  lemma GrowShrink(bursts: seq<Burst>, group: seq<Read>, window: nat)
    requires IsSplit(bursts, group, window) && bursts != []
    ensures NonEmpty(Shrink(bursts)) && Grow(Shrink(bursts), LastRead(bursts), window) == bursts
  {
    if |bursts[|bursts| - 1]| == 1 {
      RegrowAlone(bursts, window);
    } else {
      RegrowLast(bursts, window);
    }
  }

  lemma RegrowAlone(bursts: seq<Burst>, window: nat)
    requires bursts != [] && NonEmpty(bursts) && |bursts[|bursts| - 1]| == 1
    requires |bursts| > 1 ==> Apart(bursts[|bursts| - 2], bursts[|bursts| - 1], window)
    ensures NonEmpty(Shrink(bursts)) && Grow(Shrink(bursts), LastRead(bursts), window) == bursts
  {
    var front, last := bursts[..|bursts| - 1], bursts[|bursts| - 1];
    assert bursts == front + [last] && last == [last[0]];
  }

  lemma RegrowLast(bursts: seq<Burst>, window: nat)
    requires bursts != [] && NonEmpty(bursts) && |bursts[|bursts| - 1]| > 1
    requires GapsWithin(bursts[|bursts| - 1], window)
    ensures NonEmpty(Shrink(bursts)) && Grow(Shrink(bursts), LastRead(bursts), window) == bursts
  {
    var front, last := bursts[..|bursts| - 1], bursts[|bursts| - 1];
    assert bursts == front + [last] && last == last[..|last| - 1] + [last[|last| - 1]];
    assert At(last[|last| - 1]) - At(last[|last| - 2]) <= window;
  }

  /** There is only one split: any sequence of bursts that keeps the promises is this one. */
  lemma {:induction false} SplitUnique(bursts: seq<Burst>, group: seq<Read>, window: nat)
    requires IsSplit(bursts, group, window)
    ensures bursts == BurstsOf(group, window)
    decreases |group|
  {
    if bursts != [] {
      ShrinkKeepsSplit(bursts, group, window);
      SplitUnique(Shrink(bursts), group[..|group| - 1], window);
      GrowShrink(bursts, group, window);
    }
  }

  /** `wide` is `narrow` with neighbouring bursts joined, and nothing else. */
  ghost predicate Merges(wide: seq<Burst>, narrow: seq<Burst>)
  {
    if wide == [] then narrow == []
    else exists k :: 0 <= k < |narrow| && MergesFrom(wide, narrow, k)
  }

  ghost predicate MergesFrom(wide: seq<Burst>, narrow: seq<Burst>, k: nat)
    requires wide != [] && k < |narrow|
  {
    Flatten(narrow[k..]) == wide[|wide| - 1] && Merges(wide[..|wide| - 1], narrow[..k])
  }

  lemma GrowKeepsMerges(wb: seq<Burst>, nb: seq<Burst>, r: Read, narrow: nat, wide: nat)
    requires narrow <= wide && NonEmpty(wb) && NonEmpty(nb) && Merges(wb, nb)
    requires wb == [] <==> nb == []
    requires wb != [] ==> LastRead(wb) == LastRead(nb)
    ensures Merges(Grow(wb, r, wide), Grow(nb, r, narrow))
  {
    if wb == [] || At(r) - At(LastRead(wb)) > wide {
      BothStartABurst(wb, nb, r);
    } else {
      WideTakesItIn(wb, nb, r, narrow, wide);
    }
  }

  lemma BothStartABurst(wb: seq<Burst>, nb: seq<Burst>, r: Read)
    requires Merges(wb, nb)
    ensures Merges(wb + [[r]], nb + [[r]])
  {
    var w, n := wb + [[r]], nb + [[r]];
    assert n[|nb|..] == [[r]] && n[..|nb|] == nb && w[..|wb|] == wb;
    FlattenSnoc([], [r]);
    assert MergesFrom(w, n, |nb|);
  }

  lemma WideTakesItIn(wb: seq<Burst>, nb: seq<Burst>, r: Read, narrow: nat, wide: nat)
    requires NonEmpty(wb) && NonEmpty(nb) && Merges(wb, nb) && wb != []
    requires At(r) - At(LastRead(wb)) <= wide
    ensures Merges(Grow(wb, r, wide), Grow(nb, r, narrow))
  {
    var k :| 0 <= k < |nb| && MergesFrom(wb, nb, k);
    GrowTail(nb, k, r, narrow);
    var w := Grow(wb, r, wide);
    assert w[..|w| - 1] == wb[..|wb| - 1];
    assert MergesFrom(w, Grow(nb, r, narrow), k);
  }

  lemma GrowTail(bursts: seq<Burst>, k: nat, r: Read, window: nat)
    requires NonEmpty(bursts) && k < |bursts|
    ensures k < |Grow(bursts, r, window)|
    ensures Grow(bursts, r, window)[..k] == bursts[..k]
    ensures Flatten(Grow(bursts, r, window)[k..]) == Flatten(bursts[k..]) + [r]
  {
    var tail := bursts[k..];
    var front, last := tail[..|tail| - 1], tail[|tail| - 1];
    var grown := Grow(bursts, r, window);
    assert tail == front + [last];
    FlattenSnoc(front, last);
    if At(r) - At(LastRead(bursts)) > window {
      assert grown[k..] == tail + [[r]];
      FlattenSnoc(tail, [r]);
    } else {
      assert grown[k..] == front + [last + [r]];
      FlattenSnoc(front, last + [r]);
      assert Flatten(front) + (last + [r]) == (Flatten(front) + last) + [r];
    }
  }

  /** Widening the window only joins bursts. */
  lemma {:induction false} WiderWindowMerges(group: seq<Read>, narrow: nat, wide: nat)
    requires narrow <= wide
    ensures Merges(BurstsOf(group, wide), BurstsOf(group, narrow))
  {
    if group != [] {
      var front, r := group[..|group| - 1], group[|group| - 1];
      WiderWindowMerges(front, narrow, wide);
      GrowKeepsMerges(BurstsOf(front, wide), BurstsOf(front, narrow), r, narrow, wide);
    }
  }
}
