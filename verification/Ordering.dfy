/** Sorting by key, the way the source sorts: every `sort_by_key` and every chain of
    `cmp(..).then(..)` is a lexicographic comparison of a tuple, written here as a `Key`. */
module Ordering {

  datatype Option<+T> = None | Some(value: T)

  type Key = seq<int>

  predicate Leq(a: Key, b: Key)
  {
    a == [] || (b != [] && (a[0] < b[0] || (a[0] == b[0] && Leq(a[1..], b[1..]))))
  }

  lemma LeqRefl(a: Key)
    ensures Leq(a, a)
  {
  }

  lemma LeqTotal(a: Key, b: Key)
    ensures Leq(a, b) || Leq(b, a)
  {
  }

  lemma {:induction false} LeqAntisymmetric(a: Key, b: Key)
    requires Leq(a, b) && Leq(b, a)
    ensures a == b
  {
    if a != [] {
      LeqAntisymmetric(a[1..], b[1..]);
      assert a == [a[0]] + a[1..] && b == [b[0]] + b[1..];
    }
  }

  lemma {:induction false} LeqTransitive(a: Key, b: Key, c: Key)
    requires Leq(a, b) && Leq(b, c)
    ensures Leq(a, c)
  {
    if a != [] && a[0] == b[0] == c[0] {
      LeqTransitive(a[1..], b[1..], c[1..]);
    }
  }

  lemma LeqThree(x: int, y: int, z: int, u: int, v: int, w: int)
    ensures Leq([x, y, z], [u, v, w]) <==> x < u || (x == u && (y < v || (y == v && z <= w)))
  {
    assert Leq([z], [w]) <==> z <= w;
    assert [y, z][1..] == [z] && [v, w][1..] == [w];
    assert Leq([y, z], [v, w]) <==> y < v || (y == v && z <= w);
    assert [x, y, z][1..] == [y, z] && [u, v, w][1..] == [v, w];
  }

  /** A stable sort, as `slice::sort_by_key` is: equal keys keep their order. */
  function Sort<T>(s: seq<T>, key: T -> Key): seq<T>
  {
    if s == [] then [] else Insert(s[0], Sort(s[1..], key), key)
  }

  function Insert<T>(x: T, s: seq<T>, key: T -> Key): (r: seq<T>)
  {
    if s == [] || Leq(key(x), key(s[0])) then [x] + s
    else [s[0]] + Insert(x, s[1..], key)
  }

  ghost predicate Sorted<T>(s: seq<T>, key: T -> Key)
  {
    forall i, j :: 0 <= i < j < |s| ==> Leq(key(s[i]), key(s[j]))
  }

  /** No two different elements share a key, so a sort has only one possible result. */
  ghost predicate KeyInjective<T>(s: seq<T>, key: T -> Key)
  {
    forall x, y :: x in s && y in s && key(x) == key(y) ==> x == y
  }

  ghost predicate NoDuplicates<T>(s: seq<T>)
  {
    forall i, j :: 0 <= i < j < |s| ==> s[i] != s[j]
  }

  lemma Uncons<T>(s: seq<T>)
    requires s != []
    ensures multiset(s) == multiset{s[0]} + multiset(s[1..])
  {
    assert s == [s[0]] + s[1..];
  }

  lemma Extract<T>(s: seq<T>, j: int)
    requires 0 <= j < |s|
    ensures multiset(s) == multiset{s[j]} + multiset(s[..j] + s[j + 1..])
  {
    assert s == s[..j] + [s[j]] + s[j + 1..];
  }

  lemma Cancel<T>(x: T, a: multiset<T>, b: multiset<T>)
    requires multiset{x} + a == multiset{x} + b
    ensures a == b
  {
    assert a == (multiset{x} + a) - multiset{x};
  }

  /** The first element of one arrangement, found in the other and taken out of both. */
  lemma TakeOut<T>(a: seq<T>, b: seq<T>) returns (j: nat)
    requires multiset(a) == multiset(b) && a != []
    ensures j < |b| && b[j] == a[0]
    ensures multiset(a[1..]) == multiset(b[..j] + b[j + 1..])
  {
    assert a[0] in multiset(b);
    j :| 0 <= j < |b| && b[j] == a[0];
    Uncons(a);
    Extract(b, j);
    Cancel(a[0], multiset(a[1..]), multiset(b[..j] + b[j + 1..]));
  }

  lemma SameLength<T>(a: seq<T>, b: seq<T>)
    requires multiset(a) == multiset(b)
    ensures |a| == |b|
  {
    assert |multiset(a)| == |a| && |multiset(b)| == |b|;
  }

  lemma {:induction false} InsertPermutes<T>(x: T, s: seq<T>, key: T -> Key)
    ensures multiset(Insert(x, s, key)) == multiset{x} + multiset(s)
  {
    if s != [] && !Leq(key(x), key(s[0])) {
      InsertPermutes(x, s[1..], key);
      assert s == [s[0]] + s[1..];
    }
  }

  lemma {:induction false} SortPermutes<T>(s: seq<T>, key: T -> Key)
    ensures multiset(Sort(s, key)) == multiset(s)
    ensures |Sort(s, key)| == |s|
    ensures forall x :: x in Sort(s, key) <==> x in s
  {
    if s != [] {
      SortPermutes(s[1..], key);
      InsertPermutes(s[0], Sort(s[1..], key), key);
      assert s == [s[0]] + s[1..];
    }
    SameMultiset(Sort(s, key), s);
  }

  lemma SameMultiset<T>(a: seq<T>, b: seq<T>)
    requires multiset(a) == multiset(b)
    ensures |a| == |b|
    ensures forall x :: x in a <==> x in b
  {
    assert |multiset(a)| == |a| && |multiset(b)| == |b|;
    forall x
      ensures x in a <==> x in b
    {
      assert x in a <==> x in multiset(a);
      assert x in b <==> x in multiset(b);
    }
  }

  lemma {:induction false} InsertSorted<T>(x: T, s: seq<T>, key: T -> Key)
    requires Sorted(s, key)
    ensures Sorted(Insert(x, s, key), key)
  {
    var r := Insert(x, s, key);
    if s == [] {
    } else if Leq(key(x), key(s[0])) {
      forall j | 0 <= j < |s|
        ensures Leq(key(x), key(s[j]))
      {
        if j > 0 {
          LeqTransitive(key(x), key(s[0]), key(s[j]));
        }
      }
    } else {
      LeqTotal(key(x), key(s[0]));
      InsertSorted(x, s[1..], key);
      InsertPermutes(x, s[1..], key);
      forall j | 0 < j < |r|
        ensures Leq(key(s[0]), key(r[j]))
      {
        assert r[j] in multiset(Insert(x, s[1..], key));
        if r[j] != x {
          assert r[j] in s[1..];
        }
      }
    }
  }

  lemma {:induction false} SortSorted<T>(s: seq<T>, key: T -> Key)
    ensures Sorted(Sort(s, key), key)
  {
    if s != [] {
      SortSorted(s[1..], key);
      InsertSorted(s[0], Sort(s[1..], key), key);
    }
  }

  lemma {:induction false} SortedStays<T>(s: seq<T>, key: T -> Key)
    requires Sorted(s, key)
    ensures Sort(s, key) == s
  {
    if s != [] {
      SortedStays(s[1..], key);
    }
  }

  lemma SortedHeads<T>(a: seq<T>, b: seq<T>, key: T -> Key)
    requires multiset(a) == multiset(b) && a != [] && b != []
    requires Sorted(a, key) && Sorted(b, key)
    ensures a[0] in b && b[0] in a && key(a[0]) == key(b[0])
  {
    SameMultiset(a, b);
    assert a[0] in a && b[0] in b;
    SortedHeadLeast(a, b[0], key);
    SortedHeadLeast(b, a[0], key);
    LeqAntisymmetric(key(a[0]), key(b[0]));
  }

  lemma SortedHeadLeast<T>(s: seq<T>, x: T, key: T -> Key)
    requires Sorted(s, key) && x in s
    ensures Leq(key(s[0]), key(x))
  {
    LeqRefl(key(x));
  }

  lemma InjectiveTail<T>(s: seq<T>, key: T -> Key)
    requires s != [] && KeyInjective(s, key)
    ensures KeyInjective(s[1..], key)
  {
    forall x, y | x in s[1..] && y in s[1..] && key(x) == key(y)
      ensures x == y
    {
      assert x in s && y in s;
    }
  }

  lemma InjectivePermuted<T>(a: seq<T>, b: seq<T>, key: T -> Key)
    requires multiset(a) == multiset(b) && KeyInjective(a, key)
    ensures KeyInjective(b, key)
  {
    SameMultiset(a, b);
  }

  /** Two sorted arrangements of the same elements are the same sequence. */
  lemma {:induction false} SortedUnique<T>(a: seq<T>, b: seq<T>, key: T -> Key)
    requires multiset(a) == multiset(b)
    requires Sorted(a, key) && Sorted(b, key) && KeyInjective(a, key)
    ensures a == b
    decreases |a|, 1
  {
    assert |multiset(a)| == |a| && |multiset(b)| == |b|;
    if a != [] {
      assert a[0] == b[0] by {
        SortedHeads(a, b, key);
        SameMultiset(a, b);
      }
      TailsUnique(a, b, key);
    }
  }

  lemma {:induction false} TailsUnique<T>(a: seq<T>, b: seq<T>, key: T -> Key)
    requires multiset(a) == multiset(b) && a != [] && b != [] && a[0] == b[0]
    requires Sorted(a, key) && Sorted(b, key) && KeyInjective(a, key)
    ensures a == b
    decreases |a|, 0
  {
    var ta, tb := a[1..], b[1..];
    assert multiset(ta) == multiset(tb) by {
      Uncons(a);
      Uncons(b);
      Cancel(a[0], multiset(ta), multiset(tb));
    }
    InjectiveTail(a, key);
    SortedUnique(ta, tb, key);
    assert a == [a[0]] + ta && b == [b[0]] + tb;
  }

  lemma SortOrderBlind<T>(a: seq<T>, b: seq<T>, key: T -> Key)
    requires multiset(a) == multiset(b) && KeyInjective(a, key)
    ensures Sort(a, key) == Sort(b, key)
  {
    assert multiset(Sort(a, key)) == multiset(a) by { SortPermutes(a, key); }
    assert multiset(Sort(b, key)) == multiset(b) by { SortPermutes(b, key); }
    SortSorted(a, key);
    SortSorted(b, key);
    InjectivePermuted(a, Sort(a, key), key);
    SortedUnique(Sort(a, key), Sort(b, key), key);
  }

  /** Different elements with different keys come out strictly in order. */
  lemma SortStrictly<T>(given: seq<T>, key: T -> Key, i: nat, j: nat)
    requires NoDuplicates(Sort(given, key)) && KeyInjective(given, key) && i < j < |Sort(given, key)|
    ensures Leq(key(Sort(given, key)[i]), key(Sort(given, key)[j]))
    ensures key(Sort(given, key)[i]) != key(Sort(given, key)[j])
  {
    var sorted := Sort(given, key);
    SortSorted(given, key);
    SortPermutes(given, key);
    InjectivePermuted(given, sorted, key);
    assert sorted[i] in sorted && sorted[j] in sorted;
    assert sorted[i] != sorted[j];
  }

  // ----- Text as a key -----

  /** Text compares by code point, as Rust's `str` does. */
  function Codes(s: string): (k: Key)
    ensures |k| == |s|
    ensures forall i :: 0 <= i < |s| ==> k[i] == s[i] as int
  {
    seq(|s|, i requires 0 <= i < |s| => s[i] as int)
  }

  /** A text in front of more key parts: the -1 makes a prefix sort before what extends it. */
  function TextKey(s: string, rest: Key): Key
  {
    Codes(s) + [-1] + rest
  }

  lemma TextKeyShape(s: string, rest: Key)
    ensures var k := TextKey(s, rest);
            && |k| == |s| + 1 + |rest| && k[|s|] == -1 && k[|s| + 1..] == rest
            && forall i :: 0 <= i < |s| ==> k[i] == s[i] as int >= 0
  {
  }

  lemma TextKeyInjective(s: string, a: Key, t: string, b: Key)
    requires TextKey(s, a) == TextKey(t, b)
    ensures s == t && a == b
  {
    TextKeyShape(s, a);
    TextKeyShape(t, b);
    assert |s| == |t|;
    forall i | 0 <= i < |s|
      ensures s[i] == t[i]
    {
      assert TextKey(s, a)[i] == s[i] as int && TextKey(t, b)[i] == t[i] as int;
    }
  }

  // ----- The keys of an ordered map, as they are inserted -----

  /** Each element once, in order of first appearance. */
  function Distinct<T(==)>(s: seq<T>): seq<T>
  {
    if s == [] then []
    else
      var front := Distinct(s[..|s| - 1]);
      if s[|s| - 1] in front then front else front + [s[|s| - 1]]
  }

  lemma {:induction false} DistinctHasNoDuplicates<T>(s: seq<T>)
    ensures NoDuplicates(Distinct(s))
    ensures forall x :: x in Distinct(s) <==> x in s
  {
    if s != [] {
      DistinctHasNoDuplicates(s[..|s| - 1]);
    }
  }

  lemma DistinctOrderBlind<T>(a: seq<T>, b: seq<T>)
    requires forall x :: x in a <==> x in b
    ensures multiset(Distinct(a)) == multiset(Distinct(b))
  {
    DistinctHasNoDuplicates(a);
    DistinctHasNoDuplicates(b);
    NoDuplicatesPermute(Distinct(a), Distinct(b));
  }

  // ----- Mapping over sequences -----

  function Map<T, U>(f: T -> U, s: seq<T>): (r: seq<U>)
    ensures |r| == |s|
    ensures forall i :: 0 <= i < |s| ==> r[i] == f(s[i])
  {
    seq(|s|, i requires 0 <= i < |s| => f(s[i]))
  }

  lemma MapConcat<T, U>(f: T -> U, a: seq<T>, b: seq<T>)
    ensures Map(f, a + b) == Map(f, a) + Map(f, b)
  {
  }

  lemma {:induction false} MapPermutes<T, U>(f: T -> U, a: seq<T>, b: seq<T>)
    requires multiset(a) == multiset(b)
    ensures multiset(Map(f, a)) == multiset(Map(f, b))
  {
    SameLength(a, b);
    if a != [] {
      var j := TakeOut(a, b);
      MapPermutes(f, a[1..], b[..j] + b[j + 1..]);
      MapUncons(f, a);
      MapExtract(f, b, j);
    }
  }

  lemma MapUncons<T, U>(f: T -> U, s: seq<T>)
    requires s != []
    ensures multiset(Map(f, s)) == multiset{f(s[0])} + multiset(Map(f, s[1..]))
  {
    Uncons(Map(f, s));
    assert Map(f, s)[1..] == Map(f, s[1..]);
  }

  lemma MapExtract<T, U>(f: T -> U, s: seq<T>, j: int)
    requires 0 <= j < |s|
    ensures multiset(Map(f, s)) == multiset{f(s[j])} + multiset(Map(f, s[..j] + s[j + 1..]))
  {
    Extract(Map(f, s), j);
    assert Map(f, s)[..j] + Map(f, s)[j + 1..] == Map(f, s[..j] + s[j + 1..]);
  }

  /** Sorting commutes with any relabelling that keeps the keys. */
  lemma {:induction false} SortMap<T, U>(s: seq<T>, f: T -> U, keyT: T -> Key, keyU: U -> Key)
    requires forall x :: x in s ==> keyU(f(x)) == keyT(x)
    ensures Sort(Map(f, s), keyU) == Map(f, Sort(s, keyT))
  {
    if s != [] {
      var tail := s[1..];
      assert Map(f, s)[1..] == Map(f, tail);
      SortMap(tail, f, keyT, keyU);
      SortPermutes(tail, keyT);
      forall y | y in Sort(tail, keyT)
        ensures keyU(f(y)) == keyT(y)
      {
        assert y in multiset(Sort(tail, keyT));
        assert y in tail;
      }
      InsertMap(s[0], Sort(tail, keyT), f, keyT, keyU);
    }
  }

  lemma {:induction false} InsertMap<T, U>(x: T, s: seq<T>, f: T -> U, keyT: T -> Key, keyU: U -> Key)
    requires keyU(f(x)) == keyT(x)
    requires forall y :: y in s ==> keyU(f(y)) == keyT(y)
    ensures Insert(f(x), Map(f, s), keyU) == Map(f, Insert(x, s, keyT))
  {
    if s != [] && !Leq(keyT(x), keyT(s[0])) {
      assert Map(f, s)[1..] == Map(f, s[1..]);
      InsertMap(x, s[1..], f, keyT, keyU);
    }
  }

  /** Duplicate-free sequences over the same elements are permutations of each other. */
  lemma NoDuplicatesPermute<T>(a: seq<T>, b: seq<T>)
    requires NoDuplicates(a) && NoDuplicates(b)
    requires forall x :: x in a <==> x in b
    ensures multiset(a) == multiset(b)
  {
    forall x
      ensures multiset(a)[x] == multiset(b)[x]
    {
      NoDuplicatesCount(a, x);
      NoDuplicatesCount(b, x);
    }
  }

  lemma {:induction false} NoDuplicatesCount<T>(s: seq<T>, x: T)
    ensures NoDuplicates(s) ==> multiset(s)[x] == if x in s then 1 else 0
  {
    if s != [] {
      NoDuplicatesCount(s[1..], x);
      assert s == [s[0]] + s[1..];
      assert NoDuplicates(s) ==> NoDuplicates(s[1..]);
      assert NoDuplicates(s) ==> s[0] !in s[1..];
    }
  }

  lemma TwiceCounts<T>(s: seq<T>, i: int, j: int)
    requires 0 <= i < j < |s| && s[i] == s[j]
    ensures multiset(s)[s[i]] >= 2
  {
    assert s == s[..j] + [s[j]] + s[j + 1..];
    assert s[i] in s[..j];
    assert s[i] in multiset(s[..j]);
    assert multiset(s) == multiset(s[..j]) + multiset{s[j]} + multiset(s[j + 1..]);
  }

  lemma CountsMeanNoDuplicates<T>(s: seq<T>)
    requires forall x :: x in s ==> multiset(s)[x] == 1
    ensures NoDuplicates(s)
  {
    if i, j :| 0 <= i < j < |s| && s[i] == s[j] {
      TwiceCounts(s, i, j);
      assert false;
    }
  }

  lemma NoDuplicatesConcat<T>(a: seq<T>, b: seq<T>)
    requires NoDuplicates(a) && NoDuplicates(b) && forall x :: x in a ==> x !in b
    ensures NoDuplicates(a + b)
  {
    var s := a + b;
    forall i, j | 0 <= i < j < |s|
      ensures s[i] != s[j]
    {
      if i < |a| <= j {
        assert s[i] in a && s[j] == b[j - |a|];
      }
    }
  }

  function Elements<T>(s: seq<T>): set<T>
  {
    set x | x in s
  }

  lemma {:induction false} NoDuplicatesCard<T>(s: seq<T>)
    requires NoDuplicates(s)
    ensures |Elements(s)| == |s|
  {
    if s != [] {
      var n := |s| - 1;
      NoDuplicatesCard(s[..n]);
      assert Elements(s) == Elements(s[..n]) + {s[n]};
    }
  }

  lemma PrefixGrows<T>(s: seq<T>, i: nat)
    requires NoDuplicates(s) && i < |s|
    ensures s[..i + 1] == s[..i] + [s[i]] && s[i] in s && s[i] !in s[..i]
  {
  }

  lemma PermutedNoDuplicates<T>(a: seq<T>, b: seq<T>)
    requires multiset(a) == multiset(b) && NoDuplicates(a)
    ensures NoDuplicates(b)
  {
    SameMultiset(a, b);
    forall x | x in b
      ensures multiset(b)[x] == 1
    {
      NoDuplicatesCount(a, x);
    }
    CountsMeanNoDuplicates(b);
  }
}
