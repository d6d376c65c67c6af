/** The names of statuses, and reading what an operator typed for one. */
module Statuses {
  import opened Ordering
  import opened Results
  import Revisions

  /** What `str::trim` takes away: Unicode white space. */
  predicate White(c: char)
  {
    var n := c as int;
    || 0x09 <= n <= 0x0D || n == 0x20 || n == 0x85 || n == 0xA0 || n == 0x1680 || 0x2000 <= n <= 0x200A
    || n == 0x2028 || n == 0x2029 || n == 0x202F || n == 0x205F || n == 0x3000
  }

  function TrimStart(s: string): string
  {
    if s != "" && White(s[0]) then TrimStart(s[1..]) else s
  }

  function TrimEnd(s: string): string
  {
    if s != "" && White(s[|s| - 1]) then TrimEnd(s[..|s| - 1]) else s
  }

  function LowerChar(c: char): char
  {
    if 'A' <= c <= 'Z' then (c as int + 32) as char else c
  }

  function Lower(s: string): (t: string)
    ensures |t| == |s| && forall i :: 0 <= i < |s| ==> t[i] == LowerChar(s[i])
  {
    seq(|s|, i requires 0 <= i < |s| => LowerChar(s[i]))
  }

  function ParseStatus(s: string): Option<ResultStatus>
  {
    var token := Lower(TrimEnd(TrimStart(s)));
    if token == "finished" then Some(Finished)
    else if token == "dns" then Some(Dns)
    else if token == "dnf" then Some(Dnf)
    else if token == "dq" then Some(Dq)
    else None
  }

  predicate AllWhite(s: string)
  {
    forall i :: 0 <= i < |s| ==> White(s[i])
  }

  lemma {:induction false} TrimStartSkips(pad: string, s: string)
    requires AllWhite(pad) && s != "" && !White(s[0])
    ensures TrimStart(pad + s) == s
  {
    if pad == "" {
      assert pad + s == s;
    } else {
      assert (pad + s)[1..] == pad[1..] + s;
      TrimStartSkips(pad[1..], s);
    }
  }

  lemma {:induction false} TrimEndSkips(s: string, pad: string)
    requires AllWhite(pad) && s != "" && !White(s[|s| - 1])
    ensures TrimEnd(s + pad) == s
  {
    if pad == "" {
      assert s + pad == s;
    } else {
      assert (s + pad)[..|s + pad| - 1] == s + pad[..|pad| - 1];
      TrimEndSkips(s, pad[..|pad| - 1]);
    }
  }

  lemma LettersAreNotWhite(c: char)
    requires 'a' <= LowerChar(c) <= 'z'
    ensures !White(c)
  {
  }

  /** Every status is read back from its stored name, in any case and with white space around it. */
  lemma StatusesReadBack(status: ResultStatus, left: string, typed: string, right: string)
    requires AllWhite(left) && AllWhite(right) && Lower(typed) == Revisions.StatusText(status)
    ensures ParseStatus(left + typed + right) == Some(status)
  {
    NamesAreLetters(status);
    LettersAreNotWhite(typed[0]);
    LettersAreNotWhite(typed[|typed| - 1]);
    assert left + typed + right == left + (typed + right);
    TrimStartSkips(left, typed + right);
    TrimEndSkips(typed, right);
  }

  lemma NamesAreLetters(status: ResultStatus)
    ensures var name := Revisions.StatusText(status);
            name != "" && 'a' <= name[0] <= 'z' && 'a' <= name[|name| - 1] <= 'z'
  {
  }
}
