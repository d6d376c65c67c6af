/** The names derived identifiers are hashed from. UUIDv5 itself is a parameter of the model:
    what is proved is that different records never hand it the same name. */
module Naming {
  import opened Domain
  import opened Text

  function HexChar(d: int): char
    requires 0 <= d < 16
  {
    if d < 10 then ('0' as int + d) as char else ('a' as int + d - 10) as char
  }

  lemma HexCharInjective(a: int, b: int)
    requires 0 <= a < 16 && 0 <= b < 16 && HexChar(a) == HexChar(b)
    ensures a == b
  {
  }

  function Hex(n: nat, width: nat): (s: string)
    ensures |s| == width
  {
    if width == 0 then [] else Hex(n / 16, width - 1) + [HexChar(n % 16)]
  }

  function Pow16(width: nat): nat
  {
    if width == 0 then 1 else 16 * Pow16(width - 1)
  }

  lemma {:induction false} HexInjective(a: nat, b: nat, width: nat)
    requires a < Pow16(width) && b < Pow16(width) && Hex(a, width) == Hex(b, width)
    ensures a == b
  {
    if width > 0 {
      ConcatInjective(Hex(a / 16, width - 1), [HexChar(a % 16)], Hex(b / 16, width - 1), [HexChar(b % 16)]);
      assert [HexChar(a % 16)][0] == [HexChar(b % 16)][0];
      HexCharInjective(a % 16, b % 16);
      HexInjective(a / 16, b / 16, width - 1);
    }
  }

  /** The hyphenated form: 8-4-4-4-12 hexadecimal digits. */
  function UuidText(u: Uuid): (s: string)
    ensures |s| == 36
  {
    var h := Hex(u, 32);
    h[..8] + "-" + h[8..12] + "-" + h[12..16] + "-" + h[16..20] + "-" + h[20..]
  }

  /** A number without its last `i` hexadecimal digits. */
  function Shifted(n: nat, i: nat): nat
  {
    if i == 0 then n else Shifted(n / 16, i - 1)
  }

  lemma {:induction false} HexAt(n: nat, width: nat, i: nat)
    requires i < width
    ensures Hex(n, width)[width - 1 - i] == "0123456789abcdef"[Shifted(n, i) % 16]
  {
    if i > 0 {
      HexAt(n / 16, width - 1, i - 1);
    }
  }

  /** Lower-case hexadecimal digits, most significant first, with hyphens after 8, 12, 16 and 20. */
  lemma UuidTextSpelled(u: Uuid, i: nat)
    requires i < 32
    ensures var place := i + if i < 8 then 0 else if i < 12 then 1 else if i < 16 then 2 else if i < 20 then 3 else 4;
            UuidText(u)[place] == "0123456789abcdef"[Shifted(u, 31 - i) % 16]
    ensures UuidText(u)[8] == UuidText(u)[13] == UuidText(u)[18] == UuidText(u)[23] == '-'
  {
    HexAt(u, 32, 31 - i);
  }

  lemma Pow16Of32()
    ensures Pow16(32) == 0x1_0000_0000_0000_0000_0000_0000_0000_0000
  {
    assert Pow16(8) == 0x1_0000_0000 by {
      assert Pow16(4) == 0x1_0000;
    }
    assert Pow16(12) == 0x1_0000_0000_0000;
    assert Pow16(16) == 0x1_0000_0000_0000_0000;
    assert Pow16(20) == 0x1_0000_0000_0000_0000_0000;
    assert Pow16(24) == 0x1_0000_0000_0000_0000_0000_0000;
    assert Pow16(28) == 0x1_0000_0000_0000_0000_0000_0000_0000;
  }

  lemma UuidTextInjective(a: Uuid, b: Uuid)
    requires UuidText(a) == UuidText(b)
    ensures a == b
  {
    var x, y := Hex(a, 32), Hex(b, 32);
    var s, t := UuidText(a), UuidText(b);
    assert s[..8] == x[..8] && s[9..13] == x[8..12] && s[14..18] == x[12..16];
    assert s[19..23] == x[16..20] && s[24..] == x[20..];
    assert t[..8] == y[..8] && t[9..13] == y[8..12] && t[14..18] == y[12..16];
    assert t[19..23] == y[16..20] && t[24..] == y[20..];
    assert x == x[..8] + x[8..12] + x[12..16] + x[16..20] + x[20..];
    assert y == y[..8] + y[8..12] + y[12..16] + y[16..20] + y[20..];
    Pow16Of32();
    HexInjective(a, b, 32);
  }

  // ----- Names -----

  function Joined(parts: seq<string>): string
  {
    if parts == [] then "" else Joined(parts[..|parts| - 1]) + [UNIT_SEPARATOR] + parts[|parts| - 1]
  }

  method DerivedName(kind: string, parts: seq<string>) returns (name: string)
    ensures name == kind + Joined(parts)
  {
    name := kind;
    for i := 0 to |parts|
      invariant name == kind + Joined(parts[..i])
    {
      assert parts[..i + 1][..i] == parts[..i];
      name := name + [UNIT_SEPARATOR] + parts[i];
    }
    assert parts[..|parts|] == parts;
  }

  function AcceptedReadName(checkpoint: Uuid, chip: string, rawRead: Uuid): string
  {
    "accepted-read" + Joined([UuidText(checkpoint), chip, UuidText(rawRead)])
  }

  function TimingEventName(participant: Uuid, checkpoint: Uuid, lap: U16, source: Uuid): string
  {
    "timing-event" + Joined([UuidText(participant), UuidText(checkpoint), Decimal(lap), UuidText(source)])
  }

  lemma JoinedSnoc(parts: seq<string>, last: string)
    ensures Joined(parts + [last]) == Joined(parts) + ([UNIT_SEPARATOR] + last)
  {
    assert (parts + [last])[..|parts|] == parts;
    assert Joined(parts) + [UNIT_SEPARATOR] + last == Joined(parts) + ([UNIT_SEPARATOR] + last);
  }

  lemma TailsAgree(p: string, x: string, q: string, y: string)
    requires p + x == q + y && |x| == |y|
    ensures p == q && x == y
  {
    assert |p + x| == |q + y|;
    ConcatInjective(p, x, q, y);
  }

  /** The last part can be read back whenever its length is known. */
  lemma JoinedLast(kind: string, a: seq<string>, x: string, b: seq<string>, y: string)
    requires kind + Joined(a + [x]) == kind + Joined(b + [y]) && |x| == |y|
    ensures kind + Joined(a) == kind + Joined(b) && x == y
  {
    JoinedSnoc(a, x);
    Regroup(kind, Joined(a), [UNIT_SEPARATOR] + x);
    JoinedSnoc(b, y);
    Regroup(kind, Joined(b), [UNIT_SEPARATOR] + y);
    TailsAgree(kind + Joined(a), [UNIT_SEPARATOR] + x, kind + Joined(b), [UNIT_SEPARATOR] + y);
    TailsAgree([UNIT_SEPARATOR], x, [UNIT_SEPARATOR], y);
  }

  /** Different crossings are hashed from different names, whatever characters a chip's
      identifier holds: the parts around it have a fixed length. */
  lemma AcceptedReadNameInjective(cp: Uuid, chip: string, raw: Uuid, cp': Uuid, chip': string, raw': Uuid)
    requires AcceptedReadName(cp, chip, raw) == AcceptedReadName(cp', chip', raw')
    ensures cp == cp' && chip == chip' && raw == raw'
  {
    var kind, a, b := "accepted-read", [UuidText(cp)], [UuidText(cp')];
    assert [UuidText(cp), chip, UuidText(raw)] == (a + [chip]) + [UuidText(raw)];
    assert [UuidText(cp'), chip', UuidText(raw')] == (b + [chip']) + [UuidText(raw')];
    JoinedLast(kind, a + [chip], UuidText(raw), b + [chip'], UuidText(raw'));
    JoinedSnoc(a, chip);
    JoinedSnoc(b, chip');
    JoinedSnoc([], UuidText(cp));
    JoinedSnoc([], UuidText(cp'));
    assert [] + a == a && [] + b == b;
    assert |Joined(a)| == 37 && |Joined(b)| == 37;
    assert |chip| == |chip'|;
    JoinedLast(kind, a, chip, b, chip');
    JoinedLast(kind, [], UuidText(cp), [], UuidText(cp'));
    UuidTextInjective(cp, cp');
    UuidTextInjective(raw, raw');
  }

  /** And so are different timing events. */
  lemma TimingEventNameInjective(p: Uuid, cp: Uuid, lap: U16, source: Uuid,
                                 p': Uuid, cp': Uuid, lap': U16, source': Uuid)
    requires TimingEventName(p, cp, lap, source) == TimingEventName(p', cp', lap', source')
    ensures p == p' && cp == cp' && lap == lap' && source == source'
  {
    var kind := "timing-event";
    var a, b := [UuidText(p), UuidText(cp)], [UuidText(p'), UuidText(cp')];
    assert [UuidText(p), UuidText(cp), Decimal(lap), UuidText(source)] == (a + [Decimal(lap)]) + [UuidText(source)];
    assert [UuidText(p'), UuidText(cp'), Decimal(lap'), UuidText(source')]
        == (b + [Decimal(lap')]) + [UuidText(source')];
    JoinedLast(kind, a + [Decimal(lap)], UuidText(source), b + [Decimal(lap')], UuidText(source'));
    JoinedSnoc(a, Decimal(lap));
    JoinedSnoc(b, Decimal(lap'));
    PairLength(UuidText(p), UuidText(cp));
    PairLength(UuidText(p'), UuidText(cp'));
    JoinedLast(kind, a, Decimal(lap), b, Decimal(lap'));
    assert a == [UuidText(p)] + [UuidText(cp)] && b == [UuidText(p')] + [UuidText(cp')];
    JoinedLast(kind, [UuidText(p)], UuidText(cp), [UuidText(p')], UuidText(cp'));
    assert [UuidText(p)] == [] + [UuidText(p)] && [UuidText(p')] == [] + [UuidText(p')];
    JoinedLast(kind, [], UuidText(p), [], UuidText(p'));
    UuidTextInjective(p, p');
    UuidTextInjective(cp, cp');
    UuidTextInjective(source, source');
    DecimalInjective(lap, lap');
  }

  lemma PairLength(x: string, y: string)
    ensures |Joined([x, y])| == |x| + |y| + 2
  {
    JoinedSnoc([x], y);
    JoinedSnoc([], x);
    assert [x, y] == [x] + [y] && [x] == [] + [x];
  }
}
