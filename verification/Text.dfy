// Trimming and decimal numerals, over strings of Unicode scalar values.
module Text {

  // The White_Space characters that strings.TrimSpace removes.
  predicate IsSpace(c: char) {
    c == ' ' || '\t' <= c <= '\r' || c == '\U{0085}' || c == '\U{00A0}' || c == '\U{1680}' ||
    '\U{2000}' <= c <= '\U{200A}' || c == '\U{2028}' || c == '\U{2029}' || c == '\U{202F}' ||
    c == '\U{205F}' || c == '\U{3000}'
  }

  // There are twenty-five of them.
  lemma SpacesExactly(c: char)
    ensures IsSpace(c) <==>
              c as int in {0x09, 0x0A, 0x0B, 0x0C, 0x0D, 0x20, 0x85, 0xA0, 0x1680, 0x2000, 0x2001, 0x2002, 0x2003,
                           0x2004, 0x2005, 0x2006, 0x2007, 0x2008, 0x2009, 0x200A, 0x2028, 0x2029, 0x202F, 0x205F,
                           0x3000}
  {
  }

  predicate All(s: string, p: char -> bool) {
    forall i :: 0 <= i < |s| ==> p(s[i])
  }

  function TrimLeft(s: string, drop: char -> bool): (r: string)
    ensures |r| <= |s| && r == s[|s| - |r|..] && All(s[..|s| - |r|], drop)
    ensures r != "" ==> !drop(r[0])
  {
    if s != "" && drop(s[0]) then
      var r := TrimLeft(s[1..], drop);
      assert s[..|s| - |r|] == [s[0]] + s[1..][..|s| - 1 - |r|];
      r
    else s
  }

  function TrimRight(s: string, drop: char -> bool): (r: string)
    ensures |r| <= |s| && r == s[..|r|] && All(s[|r|..], drop)
    ensures r != "" ==> !drop(r[|r| - 1])
  {
    if s != "" && drop(s[|s| - 1]) then
      var r := TrimRight(s[..|s| - 1], drop);
      assert s[|r|..] == s[..|s| - 1][|r|..] + [s[|s| - 1]];
      r
    else s
  }

  function TrimSpace(s: string): string {
    TrimRight(TrimLeft(s, IsSpace), IsSpace)
  }

  predicate Trimmed(s: string) {
    s != "" ==> !IsSpace(s[0]) && !IsSpace(s[|s| - 1])
  }

  lemma {:induction false} TrimLeftOf(lead: string, rest: string, drop: char -> bool)
    requires All(lead, drop) && (rest != "" ==> !drop(rest[0]))
    ensures TrimLeft(lead + rest, drop) == rest
    decreases |lead|
  {
    if lead == "" {
      assert lead + rest == rest;
    } else {
      assert (lead + rest)[1..] == lead[1..] + rest;
      TrimLeftOf(lead[1..], rest, drop);
    }
  }

  lemma {:induction false} TrimRightOf(rest: string, tail: string, drop: char -> bool)
    requires All(tail, drop) && (rest != "" ==> !drop(rest[|rest| - 1]))
    ensures TrimRight(rest + tail, drop) == rest
    decreases |tail|
  {
    if tail == "" {
      assert rest + tail == rest;
    } else {
      var n := |tail| - 1;
      assert (rest + tail)[..|rest + tail| - 1] == rest + tail[..n];
      TrimRightOf(rest, tail[..n], drop);
    }
  }

  lemma SplitAt(s: string, n: nat)
    requires n <= |s|
    ensures s == s[..n] + s[n..]
  {
  }

  lemma Rejoin(a: string, b: string, c: string)
    ensures a + (b + c) == a + b + c
  {
  }

  // A string is white space, its trimmed middle, white space; and the middle is unique.
  lemma TrimSpaceSplits(s: string) returns (lead: string, tail: string)
    ensures s == lead + TrimSpace(s) + tail && All(lead, IsSpace) && All(tail, IsSpace)
    ensures Trimmed(TrimSpace(s))
  {
    hide IsSpace, All, TrimLeft, TrimRight;
    var r := TrimLeft(s, IsSpace);
    var mid := TrimRight(r, IsSpace);
    lead, tail := s[..|s| - |r|], r[|mid|..];
    SplitAt(s, |lead|);
    SplitAt(r, |mid|);
    Rejoin(lead, mid, tail);
  }

  lemma TrimSpaceOf(lead: string, mid: string, tail: string)
    requires All(lead, IsSpace) && All(tail, IsSpace) && mid != "" && Trimmed(mid)
    ensures TrimSpace(lead + mid + tail) == mid
  {
    assert lead + mid + tail == lead + (mid + tail);
    TrimLeftOf(lead, mid + tail, IsSpace);
    TrimRightOf(mid, tail, IsSpace);
  }

  // Padding changes nothing.
  lemma TrimSpacePadded(lead: string, s: string, tail: string)
    requires All(lead, IsSpace) && All(tail, IsSpace)
    ensures TrimSpace(lead + s + tail) == TrimSpace(s)
  {
    hide TrimSpace;
    var before, after := TrimSpaceSplits(s);
    var mid := TrimSpace(s);
    if mid == "" {
      assert s == before + after;
      assert lead + s + tail == lead + before + after + tail;
      TrimsToNothing(lead + before + after + tail);
    } else {
      assert lead + s + tail == (lead + before) + mid + (after + tail);
      TrimSpaceOf(lead + before, mid, after + tail);
    }
  }

  lemma TrimsToNothing(s: string)
    requires All(s, IsSpace)
    ensures TrimSpace(s) == ""
  {
    TrimLeftOf(s, "", IsSpace);
    assert s + "" == s;
  }

  lemma TrimmedIsFixed(s: string)
    requires Trimmed(s)
    ensures TrimSpace(s) == s
  {
    if s != "" {
      TrimSpaceOf("", s, "");
      assert "" + s + "" == s;
    }
  }

  function CharLen(c: char): nat {
    if c < '\U{0080}' then 1 else if c < '\U{0800}' then 2 else if c < '\U{10000}' then 3 else 4
  }

  // Length in bytes of the UTF-8 encoding.
  function Utf8Len(s: string): (n: nat)
    ensures n >= |s|
  {
    if s == "" then 0 else Utf8Len(s[..|s| - 1]) + CharLen(s[|s| - 1])
  }

  // How many characters k bytes can tell apart: seven bits in one byte, and otherwise 7 - k bits in the
  // first and six in each of the others.
  function Capacity(k: nat): nat
    requires 1 <= k <= 4
  {
    if k == 1 then Power(2, 7) else Power(2, 7 - k) * Power(64, k - 1)
  }

  function Power(b: nat, n: nat): nat {
    if n == 0 then 1 else b * Power(b, n - 1)
  }

  // Each character takes the fewest bytes that can hold it, and a text the bytes of its characters.
  lemma Utf8Exactly(c: char, a: string, b: string)
    ensures 1 <= CharLen(c) <= 4 && Utf8Len([c]) == CharLen(c) && c as int < Capacity(CharLen(c))
    ensures forall k :: 1 <= k < CharLen(c) ==> Capacity(k) <= c as int
    ensures Utf8Len(a + b) == Utf8Len(a) + Utf8Len(b)
  {
    assert Power(2, 3) == 8 && Power(2, 4) == 16 && Power(2, 5) == 32 && Power(2, 7) == 4 * Power(2, 5);
    assert Power(64, 1) == 64 && Power(64, 2) == 4096 && Power(64, 3) == 262144;
    assert [c][..0] == "";
    Utf8Concat(a, b);
  }

  lemma {:induction false} Utf8Concat(a: string, b: string)
    ensures Utf8Len(a + b) == Utf8Len(a) + Utf8Len(b)
    decreases |b|
  {
    if b == "" {
      assert a + b == a;
    } else {
      Utf8Concat(a, b[..|b| - 1]);
      assert (a + b)[..|a + b| - 1] == a + b[..|b| - 1];
    }
  }

  lemma {:induction false} AsciiLen(s: string)
    requires forall i :: 0 <= i < |s| ==> s[i] < '\U{0080}'
    ensures Utf8Len(s) == |s|
  {
    if s != "" { AsciiLen(s[..|s| - 1]); }
  }

  // ---------------------------------------------------------------- numerals

  predicate IsDigit(c: char) {
    '0' <= c <= '9'
  }

  predicate IsDigits(s: string) {
    s != "" && All(s, IsDigit)
  }

  function Digit(n: nat): (c: char)
    requires n < 10
    ensures IsDigit(c)
  {
    '0' + n as char
  }

  function DigitValue(c: char): (n: nat)
    requires IsDigit(c)
    ensures n < 10
  {
    (c - '0') as nat
  }

  // The digits, in order.
  lemma DigitsAre(n: nat)
    requires n < 10
    ensures Digit(n) == "0123456789"[n] && DigitValue(Digit(n)) == n
  {
  }

  function NatOf(s: string): nat
    requires All(s, IsDigit)
  {
    if s == "" then 0 else NatOf(s[..|s| - 1]) * 10 + DigitValue(s[|s| - 1])
  }

  function Pow10(width: nat): (p: nat)
    ensures p >= 1
  {
    if width == 0 then 1 else 10 * Pow10(width - 1)
  }

  // Zero-padded to a width, and without padding.
  function Pad(n: nat, width: nat): (s: string)
    ensures |s| == width && All(s, IsDigit)
  {
    if width == 0 then "" else Pad(n / 10, width - 1) + [Digit(n % 10)]
  }

  function Decimal(n: nat): (s: string)
    ensures IsDigits(s)
  {
    if n < 10 then [Digit(n)] else Decimal(n / 10) + [Digit(n % 10)]
  }

  lemma {:induction false} NatOfPad(n: nat, width: nat)
    requires n < Pow10(width)
    ensures NatOf(Pad(n, width)) == n
  {
    if width > 0 {
      NatOfPad(n / 10, width - 1);
      assert Pad(n, width)[..width - 1] == Pad(n / 10, width - 1);
    }
  }

  lemma {:induction false} NatOfDecimal(n: nat)
    ensures NatOf(Decimal(n)) == n
  {
    if n < 10 {
      assert [Digit(n)][..0] == "";
    } else {
      NatOfDecimal(n / 10);
      assert Decimal(n)[..|Decimal(n)| - 1] == Decimal(n / 10);
    }
  }

  // Reading digits loses nothing but their number.
  lemma {:induction false} PadOfNatOf(s: string)
    requires All(s, IsDigit)
    ensures NatOf(s) < Pow10(|s|) && Pad(NatOf(s), |s|) == s
  {
    if s != "" {
      var n := |s| - 1;
      PadOfNatOf(s[..n]);
      assert s == s[..n] + [s[n]];
    }
  }

  lemma DecimalIsPad(n: nat)
    requires n < 100
    ensures n < 10 ==> Decimal(n) == Pad(n, 1)
    ensures n >= 10 ==> Decimal(n) == Pad(n, 2)
  {
    assert n < 10 ==> Pad(n, 0) + [Digit(n)] == [Digit(n)];
    assert n >= 10 ==> Pad(n / 10, 1) == Pad(0, 0) + [Digit(n / 10)];
  }
}
