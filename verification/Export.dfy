/** Durations as text, `H:MM:SS.mmm`, and how that text sorts. */
module Export {
  import opened Ordering
  import opened Text

  function Two(n: nat): (s: string)
    requires n < 100
    ensures |s| == 2 && AllDigits(s)
  {
    [DigitChar(n / 10), DigitChar(n % 10)]
  }

  function Three(n: nat): (s: string)
    requires n < 1000
    ensures |s| == 3 && AllDigits(s)
  {
    [DigitChar(n / 100), DigitChar(n / 10 % 10), DigitChar(n % 10)]
  }

  function Hours(ms: nat): nat { ms / 3_600_000 }

  function Minutes(ms: nat): nat { ms / 60_000 % 60 }

  function Seconds(ms: nat): nat { ms / 1_000 % 60 }

  function Millis(ms: nat): nat { ms % 1_000 }

  /** The part after the hours, always ten characters. */
  function Tail(ms: nat): (s: string)
    ensures |s| == 10
  {
    ":" + Two(Minutes(ms)) + ":" + Two(Seconds(ms)) + "." + Three(Millis(ms))
  }

  function Magnitude(ms: nat): string
  {
    Digits(Hours(ms)) + Tail(ms)
  }

  function FormatDuration(totalMs: int): string
  {
    if totalMs < 0 then "-" + Magnitude(-totalMs) else Magnitude(totalMs)
  }

  // ----- Reading it back -----

  function ParseTail(s: string): Option<nat>
  {
    if |s| == 10 && s[0] == ':' && AllDigits(s[1..3]) && s[3] == ':' && AllDigits(s[4..6])
       && s[6] == '.' && AllDigits(s[7..])
    then Some(Value(s[1..3]) * 60_000 + Value(s[4..6]) * 1_000 + Value(s[7..]))
    else None
  }

  function ParseMagnitude(s: string): Option<nat>
  {
    if |s| <= 10 || !AllDigits(s[..|s| - 10]) then None
    else
      var tail := ParseTail(s[|s| - 10..]);
      if tail.None? then None else Some(Value(s[..|s| - 10]) * 3_600_000 + tail.value)
  }

  function ParseDuration(s: string): Option<int>
  {
    var negative := s != [] && s[0] == '-';
    var magnitude := ParseMagnitude(if negative then s[1..] else s);
    if magnitude.None? then None
    else
      var ms: int := magnitude.value;
      Some(if negative then -ms else ms)
  }

  lemma ValueOfTwo(n: nat)
    requires n < 100
    ensures Value(Two(n)) == n
  {
    var tens, ones := DigitChar(n / 10), DigitChar(n % 10);
    ValueSnoc([], tens);
    ValueSnoc([tens], ones);
    assert [] + [tens] == [tens] && Two(n) == [tens] + [ones];
  }

  lemma ValueOfThree(n: nat)
    requires n < 1000
    ensures Value(Three(n)) == n
  {
    ValueOfThreeDigits(n / 100, n / 10 % 10, n % 10);
    assert n == 100 * (n / 100) + 10 * (n / 10 % 10) + n % 10;
  }

  lemma ValueOfThreeDigits(a: nat, b: nat, c: nat)
    requires a < 10 && b < 10 && c < 10
    ensures Value([DigitChar(a), DigitChar(b), DigitChar(c)]) == 100 * a + 10 * b + c
  {
    var hundreds, tens, ones := DigitChar(a), DigitChar(b), DigitChar(c);
    ValueSnoc([], hundreds);
    ValueSnoc([hundreds], tens);
    ValueSnoc([hundreds, tens], ones);
    assert [] + [hundreds] == [hundreds] && [hundreds] + [tens] == [hundreds, tens];
    assert [hundreds, tens, ones] == [hundreds, tens] + [ones];
  }

  lemma TailParts(ms: nat)
    ensures var s := Tail(ms);
            && s[0] == ':' && s[1..3] == Two(Minutes(ms)) && s[3] == ':' && s[4..6] == Two(Seconds(ms))
            && s[6] == '.' && s[7..] == Three(Millis(ms))
  {
  }

  lemma ReadMagnitude(ms: nat)
    ensures ParseMagnitude(Magnitude(ms)) == Some(ms) && IsDigit(Magnitude(ms)[0])
  {
    var hours, tail := Digits(Hours(ms)), Tail(ms);
    var s := hours + tail;
    assert s[..|s| - 10] == hours && s[|s| - 10..] == tail;
    TailParts(ms);
    ValueOfTwo(Minutes(ms));
    ValueOfTwo(Seconds(ms));
    ValueOfThree(Millis(ms));
    ValueOfDigits(Hours(ms));
    MagnitudeParts(ms);
  }

  lemma MagnitudeParts(ms: nat)
    ensures ms == Hours(ms) * 3_600_000 + Minutes(ms) * 60_000 + Seconds(ms) * 1_000 + Millis(ms)
  {
    var seconds, minutes := ms / 1_000, ms / 60_000;
    assert seconds / 60 == minutes && minutes / 60 == Hours(ms);
  }

  lemma ReadSigned(text: string, ms: int)
    requires ParseMagnitude(text) == Some(ms)
    ensures ParseDuration("-" + text) == Some(0 - ms)
  {
    assert ("-" + text)[1..] == text;
  }

  /** Every duration, negative ones included, can be read back from its text. */
  lemma FormatIsReadable(ms: int)
    ensures ParseDuration(FormatDuration(ms)) == Some(ms)
  {
    ReadMagnitude(if ms < 0 then -ms else ms);
    if ms < 0 {
      ReadSigned(Magnitude(-ms), -ms);
    }
  }

  lemma FormatIsInjective(a: int, b: int)
    requires FormatDuration(a) == FormatDuration(b)
    ensures a == b
  {
    FormatIsReadable(a);
    FormatIsReadable(b);
  }

  // ----- Sorting it as text -----

  /** `s` sorts no later than `t` as text. */
  predicate SortsBy(s: string, t: string)
  {
    Leq(Codes(s), Codes(t))
  }

  lemma {:induction false} LeqConcat(a: Key, c: Key, b: Key, d: Key)
    requires |a| == |b|
    ensures Leq(a + c, b + d) <==> if a == b then Leq(c, d) else Leq(a, b)
  {
    if a == [] {
      assert a + c == c && b + d == d;
    } else {
      assert (a + c)[1..] == a[1..] + c && (b + d)[1..] == b[1..] + d;
      LeqConcat(a[1..], c, b[1..], d);
      assert a == [a[0]] + a[1..] && b == [b[0]] + b[1..];
    }
  }

  lemma SortsByConcat(a: string, c: string, b: string, d: string)
    requires |a| == |b|
    ensures SortsBy(a + c, b + d) <==> if a == b then SortsBy(c, d) else SortsBy(a, b)
  {
    assert Codes(a + c) == Codes(a) + Codes(c) && Codes(b + d) == Codes(b) + Codes(d);
    LeqConcat(Codes(a), Codes(c), Codes(b), Codes(d));
    if Codes(a) == Codes(b) {
      SameCodes(a, b);
    }
  }

  /** Runs of digits of one length sort by the number they spell. */
  lemma {:induction false} DigitsSortByValue(s: string, t: string)
    requires AllDigits(s) && AllDigits(t) && |s| == |t|
    ensures SortsBy(s, t) <==> Value(s) <= Value(t)
    ensures s == t <==> Value(s) == Value(t)
  {
    if s != [] {
      var a, b := s[..|s| - 1], t[..|t| - 1];
      var x, y := s[|s| - 1], t[|t| - 1];
      assert s == a + [x] && t == b + [y];
      DigitsSortByValue(a, b);
      SortsByConcat(a, [x], b, [y]);
      OneCharSorts(x, y);
    }
  }

  lemma OneCharSorts(x: char, y: char)
    ensures SortsBy([x], [y]) <==> x <= y
  {
    assert Codes([x]) == [x as int] && Codes([y]) == [y as int];
    assert Leq([], Codes([y])[1..]) && Codes([x])[1..] == [];
  }

  lemma TwoSorts(m: nat, n: nat)
    requires m < 100 && n < 100
    ensures SortsBy(Two(m), Two(n)) <==> m <= n
    ensures Two(m) == Two(n) <==> m == n
  {
    ValueOfTwo(m);
    ValueOfTwo(n);
    DigitsSortByValue(Two(m), Two(n));
  }

  lemma ThreeSorts(m: nat, n: nat)
    requires m < 1000 && n < 1000
    ensures SortsBy(Three(m), Three(n)) <==> m <= n
  {
    ValueOfThree(m);
    ValueOfThree(n);
    DigitsSortByValue(Three(m), Three(n));
  }

  lemma SamePrefixSorts(p: string, s: string, t: string)
    ensures SortsBy(p + s, p + t) <==> SortsBy(s, t)
  {
    SortsByConcat(p, s, p, t);
  }

  lemma TailSorts(a: nat, b: nat)
    ensures SortsBy(Tail(a), Tail(b)) <==>
              (Minutes(a), Seconds(a), Millis(a)) == (Minutes(b), Seconds(b), Millis(b))
              || Minutes(a) < Minutes(b)
              || (Minutes(a) == Minutes(b) && Seconds(a) < Seconds(b))
              || (Minutes(a) == Minutes(b) && Seconds(a) == Seconds(b) && Millis(a) < Millis(b))
  {
    var am, bm := Two(Minutes(a)), Two(Minutes(b));
    var az, bz := Two(Seconds(a)), Two(Seconds(b));
    var al, bl := Three(Millis(a)), Three(Millis(b));
    assert Tail(a) == ":" + (am + (":" + (az + ("." + al))));
    assert Tail(b) == ":" + (bm + (":" + (bz + ("." + bl))));
    SamePrefixSorts(":", am + (":" + (az + ("." + al))), bm + (":" + (bz + ("." + bl))));
    SortsByConcat(am, ":" + (az + ("." + al)), bm, ":" + (bz + ("." + bl)));
    SamePrefixSorts(":", az + ("." + al), bz + ("." + bl));
    SortsByConcat(az, "." + al, bz, "." + bl);
    SamePrefixSorts(".", al, bl);
    TwoSorts(Minutes(a), Minutes(b));
    TwoSorts(Seconds(a), Seconds(b));
    ThreeSorts(Millis(a), Millis(b));
  }

  /** With equally many digits of hours, texts of magnitudes sort as the magnitudes do. */
  lemma MagnitudesInOrder(a: nat, b: nat)
    requires |Digits(Hours(a))| == |Digits(Hours(b))|
    ensures SortsBy(Magnitude(a), Magnitude(b)) <==> a <= b
  {
    var ha, hb := Digits(Hours(a)), Digits(Hours(b));
    SortsByConcat(ha, Tail(a), hb, Tail(b));
    ValueOfDigits(Hours(a));
    ValueOfDigits(Hours(b));
    DigitsSortByValue(ha, hb);
    TailSorts(a, b);
    MagnitudeParts(a);
    MagnitudeParts(b);
  }

  /** Whether the text of the smaller magnitude sorts first. The colon after the hours sorts after
      every digit, so fewer digits of hours must sort first on their own. */
  predicate FirstAsText(a: nat, b: nat)
  {
    || |Digits(Hours(a))| == |Digits(Hours(b))|
    || (|Digits(Hours(a))| < |Digits(Hours(b))| && Hours(a) < Value(Digits(Hours(b))[..|Digits(Hours(a))|]))
  }

  lemma MagnitudesExactly(a: nat, b: nat)
    requires a < b
    ensures |Digits(Hours(a))| <= |Digits(Hours(b))|
    ensures SortsBy(Magnitude(a), Magnitude(b)) <==> FirstAsText(a, b)
  {
    var ha, hb := Digits(Hours(a)), Digits(Hours(b));
    assert Hours(a) <= Hours(b);
    DigitsGrow(Hours(a), Hours(b));
    if |ha| == |hb| {
      MagnitudesInOrder(a, b);
    } else {
      ValueOfDigits(Hours(a));
      ShorterSorts(ha, Tail(a), hb, Tail(b));
    }
  }

  function Abs(n: int): nat
  {
    if n < 0 then -n else n
  }

  /** With equally many digits of hours, or on two sides of zero, text order is time order for all
      but two negative durations, whose text order is the reverse. */
  lemma TextOrderIsTimeOrder(a: int, b: int)
    requires |Digits(Hours(Abs(a)))| == |Digits(Hours(Abs(b)))| || (a < 0 <==> b >= 0)
    ensures SortsBy(FormatDuration(a), FormatDuration(b)) <==> if a < 0 && b < 0 then b <= a else a <= b
  {
    if a < 0 && b < 0 {
      NegativesInOrder(-a, -b);
    } else if a >= 0 && b >= 0 {
      MagnitudesInOrder(a, b);
    } else {
      MinusSortsFirst(Abs(a), Abs(b));
      MinusSortsFirst(Abs(b), Abs(a));
    }
  }

  lemma NegativesInOrder(m: nat, n: nat)
    requires |Digits(Hours(m))| == |Digits(Hours(n))|
    ensures SortsBy("-" + Magnitude(m), "-" + Magnitude(n)) <==> m <= n
  {
    SamePrefixSorts("-", Magnitude(m), Magnitude(n));
    MagnitudesInOrder(m, n);
  }

  lemma MinusSortsFirst(m: nat, n: nat)
    ensures SortsBy("-" + Magnitude(m), Magnitude(n)) && !SortsBy(Magnitude(n), "-" + Magnitude(m))
  {
    ReadMagnitude(n);
    assert Codes("-" + Magnitude(m))[0] == 45 && Codes(Magnitude(n))[0] >= 48;
  }

  /** For any two durations, exactly when the earlier one sorts first as text. */
  lemma TextOrderExactly(a: int, b: int)
    requires a < b
    ensures SortsBy(FormatDuration(a), FormatDuration(b)) <==>
              if a >= 0 then FirstAsText(a, b) else b >= 0 || !FirstAsText(-b, -a)
  {
    if a >= 0 {
      MagnitudesExactly(a, b);
    } else if b >= 0 {
      MinusSortsFirst(-a, b);
    } else {
      NegativesExactly(-b, -a);
    }
  }

  lemma NegativesExactly(m: nat, n: nat)
    requires m < n
    ensures SortsBy("-" + Magnitude(n), "-" + Magnitude(m)) <==> !FirstAsText(m, n)
  {
    SamePrefixSorts("-", Magnitude(n), Magnitude(m));
    OneWayOnly(m, n);
    MagnitudesExactly(m, n);
  }

  lemma OneWayOnly(m: nat, n: nat)
    requires m != n
    ensures SortsBy(Magnitude(m), Magnitude(n)) <==> !SortsBy(Magnitude(n), Magnitude(m))
  {
    LeqTotal(Codes(Magnitude(m)), Codes(Magnitude(n)));
    if SortsBy(Magnitude(m), Magnitude(n)) && SortsBy(Magnitude(n), Magnitude(m)) {
      LeqAntisymmetric(Codes(Magnitude(m)), Codes(Magnitude(n)));
      SameCodes(Magnitude(m), Magnitude(n));
      FormatIsInjective(m, n);
    }
  }

  lemma SameCodes(s: string, t: string)
    requires Codes(s) == Codes(t)
    ensures s == t
  {
    forall i | 0 <= i < |s|
      ensures s[i] == t[i]
    {
      assert Codes(s)[i] == Codes(t)[i];
    }
  }

  /** Digits before a colon, against more digits: the colon sorts after the next of them. */
  lemma ShorterSorts(h: string, s: string, k: string, t: string)
    requires AllDigits(h) && AllDigits(k) && |h| < |k| && s != [] && s[0] == ':'
    ensures AllDigits(k[..|h|])
    ensures SortsBy(h + s, k + t) <==> Value(h) < Value(k[..|h|])
  {
    var lead, more := k[..|h|], k[|h|..];
    assert k == lead + more;
    Regroup(lead, more, t);
    SortsByConcat(h, s, lead, more + t);
    DigitsSortByValue(h, lead);
    ColonAfterDigits(s, more + t);
  }

  lemma ColonAfterDigits(s: string, t: string)
    requires s != [] && t != [] && s[0] == ':' && IsDigit(t[0])
    ensures !SortsBy(s, t)
  {
    assert Codes(s)[0] == 58;
  }

  lemma {:induction false} DigitsGrow(m: nat, n: nat)
    requires m <= n
    ensures |Digits(m)| <= |Digits(n)|
  {
    if m >= 10 {
      DigitsGrow(m / 10, n / 10);
    }
  }

  /** Ten hours sorts before nine: `10:00:00.000` is text-earlier than `9:59:59.999`. */
  lemma TenHoursSortsBeforeNine()
    ensures FormatDuration(35_999_999) == "9:59:59.999" && FormatDuration(36_000_000) == "10:00:00.000"
    ensures !SortsBy(FormatDuration(35_999_999), FormatDuration(36_000_000))
  {
    NineSpelled();
    TenSpelled();
    assert Codes("9:59:59.999")[0] > Codes("10:00:00.000")[0];
  }

  /** Two seconds early sorts after one second early. */
  lemma NegativesSortBackwards()
    ensures !SortsBy(FormatDuration(-2_000), FormatDuration(-1_000))
  {
    assert Hours(2_000) == 0 && Hours(1_000) == 0;
    TextOrderIsTimeOrder(-2_000, -1_000);
  }

  lemma NineSpelled()
    ensures FormatDuration(35_999_999) == "9:59:59.999"
  {
    assert Hours(35_999_999) == 9 && Digits(9) == "9";
    assert Tail(35_999_999) == ":59:59.999";
  }

  lemma TenSpelled()
    ensures FormatDuration(36_000_000) == "10:00:00.000"
  {
    assert Hours(36_000_000) == 10 && Digits(1) == "1" && Digits(10) == "10";
    assert Tail(36_000_000) == ":00:00.000";
  }
}
