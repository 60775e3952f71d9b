// Expiration dates: two input layouts, one canonical form.
module Dates {
  import opened Wrappers
  import opened Text
  import opened Division

  datatype Date = Date(year: nat, month: nat, day: nat) {
    predicate Valid() {
      year <= 9999 && 1 <= month <= 12 && 1 <= day <= DaysIn(month, year)
    }

    function Canonical(): string {
      Pad(year, 4) + "-" + Pad(month, 2) + "-" + Pad(day, 2)
    }
  }

  predicate IsLeap(year: nat) {
    year % 4 == 0 && (year % 100 != 0 || year % 400 == 0)
  }

  function DaysIn(month: nat, year: nat): nat {
    if month == 2 then if IsLeap(year) then 29 else 28
    else if month in {4, 6, 9, 11} then 30
    else 31
  }

  ghost function LeapsBefore(year: nat): nat {
    if year == 0 then 0 else LeapsBefore(year - 1) + One(IsLeap(year - 1))
  }

  // How many multiples of d there are from 0 up to y, y excluded.
  ghost function MultiplesBefore(y: nat, d: nat): nat
    requires d > 0
  {
    (y + d - 1) / d
  }

  // The Gregorian count: every fourth year, but of the centuries only every fourth.
  lemma {:induction false} GregorianLeaps(year: nat)
    ensures LeapsBefore(year) == MultiplesBefore(year, 4) - MultiplesBefore(year, 100) + MultiplesBefore(year, 400)
  {
    hide IsLeap, Divides, One, MultiplesBefore;
    if year == 0 {
      NoneBefore();
    } else {
      var y := year - 1;
      GregorianLeaps(y);
      LeapTerms(y);
      CountsMultiple(y, 4);
      CountsMultiple(y, 100);
      CountsMultiple(y, 400);
    }
  }

  predicate Divides(d: nat, y: nat)
    requires d > 0
  {
    y % d == 0
  }

  function One(b: bool): nat {
    if b then 1 else 0
  }

  lemma LeapTerms(y: nat)
    ensures One(IsLeap(y)) == One(Divides(4, y)) - One(Divides(100, y)) + One(Divides(400, y))
  {
    if y % 100 == 0 { Multiple(y, 4, 25, y / 100); }
    if y % 400 == 0 { Multiple(y, 100, 4, y / 400); }
  }

  lemma Multiple(y: nat, d: nat, k: nat, q: nat)
    requires d > 0 && y == (d * k) * q
    ensures y % d == 0
  {
    assert y == d * (k * q);
    Quotient(y, d, k * q, 0);
  }

  lemma NoneBefore()
    ensures MultiplesBefore(0, 4) == MultiplesBefore(0, 100) == MultiplesBefore(0, 400) == 0
  {
  }

  // The multiples of d below y + 1 are those below y, and y if it is one.
  lemma CountsMultiple(y: nat, d: nat)
    requires d > 0
    ensures MultiplesBefore(y + 1, d) == MultiplesBefore(y, d) + One(Divides(d, y))
  {
    var q, r := y / d, y % d;
    assert y == d * q + r;
    Quotient(y + d, d, q + 1, r);
    if r == 0 {
      Quotient(y + d - 1, d, q, d - 1);
    } else {
      Quotient(y + d - 1, d, q + 1, r - 1);
    }
  }

  ghost function DaysThrough(month: nat, year: nat): nat {
    if month == 0 then 0 else DaysThrough(month - 1, year) + DaysIn(month, year)
  }

  // No month has more than 31 days, and the twelve of them make a year.
  lemma MonthsMakeAYear(year: nat)
    ensures DaysThrough(12, year) == if IsLeap(year) then 366 else 365
    ensures [DaysIn(1, year), DaysIn(2, year), DaysIn(3, year), DaysIn(4, year), DaysIn(5, year), DaysIn(6, year)] ==
              [31, if IsLeap(year) then 29 else 28, 31, 30, 31, 30]
    ensures [DaysIn(7, year), DaysIn(8, year), DaysIn(9, year), DaysIn(10, year), DaysIn(11, year), DaysIn(12, year)] ==
              [31, 31, 30, 31, 30, 31]
  {
    hide IsLeap;
    assert DaysThrough(2, year) == DaysThrough(1, year) + DaysIn(2, year);
    assert DaysThrough(4, year) == DaysThrough(3, year) + 30;
    assert DaysThrough(6, year) == DaysThrough(5, year) + 30;
    assert DaysThrough(8, year) == DaysThrough(7, year) + 31;
    assert DaysThrough(10, year) == DaysThrough(9, year) + 31;
  }

  function Checked(d: Date): Option<Date> {
    if d.Valid() then Some(d) else None
  }

  // Layout 2006-01-02: every field has its full width.
  function ParseIso(s: string): Option<Date> {
    if |s| == 10 && IsDigits(s[..4]) && s[4] == '-' && IsDigits(s[5..7]) && s[7] == '-' && IsDigits(s[8..]) then
      Checked(Date(NatOf(s[..4]), NatOf(s[5..7]), NatOf(s[8..])))
    else None
  }

  // One digit, or two when the next character is also a digit.
  function TakeNumber(s: string): Option<(nat, string)> {
    if s == "" || !IsDigit(s[0]) then None
    else if |s| > 1 && IsDigit(s[1]) then Some((NatOf(s[..2]), s[2..]))
    else Some((NatOf(s[..1]), s[1..]))
  }

  // Layout 1/2/2006.
  function ParseUs(s: string): Option<Date> {
    match TakeNumber(s)
    case None => None
    case Some((month, afterMonth)) =>
      if afterMonth == "" || afterMonth[0] != '/' then None
      else
        match TakeNumber(afterMonth[1..])
        case None => None
        case Some((day, afterDay)) =>
          if |afterDay| == 5 && afterDay[0] == '/' && IsDigits(afterDay[1..]) then
            Checked(Date(NatOf(afterDay[1..]), month, day))
          else None
  }

  function ParseExpiration(raw: string): Option<string> {
    var s := TrimSpace(raw);
    if s == "" then Some("")
    else
      match ParseIso(s)
      case Some(d) => Some(d.Canonical())
      case None =>
        match ParseUs(s)
        case Some(d) => Some(d.Canonical())
        case None => None
  }

  // ---------------------------------------------------------------- which texts denote a date

  // The ways to write a month or day of the second layout.
  function Short(n: nat): set<string> {
    {Decimal(n), Pad(n, 2)}
  }

  ghost predicate WritesUs(s: string, d: Date) {
    exists m, day :: m in Short(d.month) && day in Short(d.day) && s == m + "/" + day + "/" + Pad(d.year, 4)
  }

  ghost predicate Writes(s: string, d: Date) {
    d.Valid() && (s == d.Canonical() || WritesUs(s, d))
  }

  lemma IsoExactly(s: string, d: Date)
    ensures ParseIso(s) == Some(d) <==> d.Valid() && s == d.Canonical()
  {
    if ParseIso(s) == Some(d) {
      PadOfNatOf(s[..4]);
      PadOfNatOf(s[5..7]);
      PadOfNatOf(s[8..]);
      assert s == s[..4] + [s[4]] + s[5..7] + [s[7]] + s[8..];
    }
    if d.Valid() && s == d.Canonical() {
      NatOfPadded(d);
      assert s[..4] == Pad(d.year, 4) && s[5..7] == Pad(d.month, 2) && s[8..] == Pad(d.day, 2);
    }
  }

  lemma NatOfPadded(d: Date)
    requires d.Valid()
    ensures NatOf(Pad(d.year, 4)) == d.year && NatOf(Pad(d.month, 2)) == d.month && NatOf(Pad(d.day, 2)) == d.day
  {
    assert Pow10(1) == 10 && Pow10(2) == 100 && Pow10(3) == 1000 && Pow10(4) == 10000;
    NatOfPad(d.year, 4);
    NatOfPad(d.month, 2);
    NatOfPad(d.day, 2);
  }

  // The canonical form is YYYY-MM-DD.
  lemma CanonicalReads(d: Date)
    requires d.Valid()
    ensures var s := d.Canonical();
            && |s| == 10 && s[4] == s[7] == '-' && IsDigits(s[..4]) && IsDigits(s[5..7]) && IsDigits(s[8..])
            && NatOf(s[..4]) == d.year && NatOf(s[5..7]) == d.month && NatOf(s[8..]) == d.day
  {
    NatOfPadded(d);
    var s := d.Canonical();
    assert s[..4] == Pad(d.year, 4) && s[5..7] == Pad(d.month, 2) && s[8..] == Pad(d.day, 2);
  }

  lemma TakesShort(text: string, n: nat, rest: string)
    requires n < 100 && text in Short(n) && (rest != "" ==> !IsDigit(rest[0]))
    ensures TakeNumber(text + rest) == Some((n, rest))
  {
    assert Pow10(1) == 10 && Pow10(2) == 100;
    DecimalIsPad(n);
    NatOfPad(n, 2);
    NatOfDecimal(n);
    var s := text + rest;
    assert s[..|text|] == text && s[|text|..] == rest;
  }

  lemma TakenIsShort(s: string)
    requires TakeNumber(s).Some?
    ensures var (n, rest) := TakeNumber(s).value;
            n < 100 && |rest| < |s| && s == s[..|s| - |rest|] + rest && s[..|s| - |rest|] in Short(n)
  {
    hide NatOf, Pad, Decimal;
    assert s[0..] == s;
    var width := if |s| > 1 && IsDigit(s[1]) then 2 else 1;
    assert s == s[..width] + s[width..];
    ShortNumeral(s[..width]);
  }

  lemma ShortNumeral(text: string)
    requires 1 <= |text| <= 2 && All(text, IsDigit)
    ensures NatOf(text) < 100 && text in Short(NatOf(text))
  {
    hide Pad, Decimal, NatOf, All;
    PadOfNatOf(text);
    assert Pow10(1) == 10;
    assert Pow10(2) == 10 * Pow10(1);
    if |text| == 1 {
      DecimalIsPad(NatOf(text));
    }
  }

  lemma UsExactly(s: string, d: Date)
    ensures ParseUs(s) == Some(d) <==> d.Valid() && WritesUs(s, d)
  {
    if ParseUs(s) == Some(d) { UsAccepts(s, d); }
    if d.Valid() && WritesUs(s, d) { UsReads(s, d); }
  }

  lemma UsAccepts(s: string, d: Date)
    requires ParseUs(s) == Some(d)
    ensures d.Valid() && WritesUs(s, d)
  {
    hide NatOf, Pad, Short, TakeNumber, Date.Valid;
    TakenIsShort(s);
    var afterMonth := TakeNumber(s).value.1;
    TakenIsShort(afterMonth[1..]);
    var afterDay := TakeNumber(afterMonth[1..]).value.1;
    PadOfNatOf(afterDay[1..]);
    var m, day := s[..|s| - |afterMonth|], afterMonth[1..][..|afterMonth| - 1 - |afterDay|];
    assert afterDay == "/" + afterDay[1..];
    assert afterMonth == "/" + afterMonth[1..];
    UsJoined(m, day, afterDay[1..]);
  }

  lemma UsJoined(m: string, day: string, year: string)
    ensures m + ("/" + (day + ("/" + year))) == m + "/" + day + "/" + year
  {
    assert "/" + (day + ("/" + year)) == "/" + day + "/" + year;
  }

  lemma UsReads(s: string, d: Date)
    requires d.Valid() && WritesUs(s, d)
    ensures ParseUs(s) == Some(d)
  {
    hide TakeNumber, Pad, Decimal, NatOf, Short;
    NatOfPadded(d);
    assert d.month < 100 && d.day < 100;
    var m, day :| m in Short(d.month) && day in Short(d.day) && s == m + "/" + day + "/" + Pad(d.year, 4);
    var afterDay := "/" + Pad(d.year, 4);
    var afterMonth := "/" + (day + afterDay);
    assert s == m + afterMonth;
    TakesShort(m, d.month, afterMonth);
    assert afterMonth[1..] == day + afterDay;
    TakesShort(day, d.day, afterDay);
    assert afterDay[1..] == Pad(d.year, 4);
  }

  // An ISO text has no slash and a US text has no dash.
  lemma LayoutsApart(s: string)
    requires ParseIso(s).Some?
    ensures ParseUs(s).None?
  {
    assert s[2] != '/' && s[1] != '/' && IsDigit(s[1]) && IsDigit(s[2]) by {
      assert s[..4][1] == s[1] && s[..4][2] == s[2];
    }
  }

  // The accepted texts are exactly the ways of writing a Gregorian date of the years 0 to 9999,
  // and the result is that date's canonical form; a blank cell means no expiration.
  lemma ExpirationExactly(raw: string, out: string)
    ensures ParseExpiration(raw) == Some(out) <==>
              if TrimSpace(raw) == "" then out == ""
              else exists d: Date :: Writes(TrimSpace(raw), d) && out == d.Canonical()
  {
    var s := TrimSpace(raw);
    if ParseExpiration(raw) == Some(out) && s != "" {
      var d := if ParseIso(s).Some? then ParseIso(s).value else ParseUs(s).value;
      IsoExactly(s, d);
      UsExactly(s, d);
      assert Writes(s, d);
    }
    if d: Date :| s != "" && Writes(s, d) && out == d.Canonical() {
      IsoExactly(s, d);
      UsExactly(s, d);
      if ParseIso(s).Some? { LayoutsApart(s); }
    }
  }

  lemma CanonicalTrimmed(d: Date)
    ensures Trimmed(d.Canonical()) && d.Canonical() != ""
  {
    var s := d.Canonical();
    assert s[0] == Pad(d.year, 4)[0] && s[9] == Pad(d.day, 2)[1];
  }

  // A canonical date is read back as itself.
  lemma CanonicalIsFixed(raw: string)
    requires ParseExpiration(raw).Some?
    ensures ParseExpiration(ParseExpiration(raw).value) == ParseExpiration(raw)
  {
    var out := ParseExpiration(raw).value;
    ExpirationExactly(raw, out);
    if out == "" {
      assert TrimSpace("") == "";
    } else {
      var d: Date :| Writes(TrimSpace(raw), d) && out == d.Canonical();
      CanonicalTrimmed(d);
      TrimmedIsFixed(out);
      ExpirationExactly(out, out);
      assert Writes(out, d);
    }
  }

  // Distinct dates have distinct canonical forms.
  lemma CanonicalInjective(a: Date, b: Date)
    requires a.Valid() && b.Valid() && a.Canonical() == b.Canonical()
    ensures a == b
  {
    NatOfPadded(a);
    NatOfPadded(b);
    assert Pad(a.year, 4) == a.Canonical()[..4] && Pad(b.year, 4) == b.Canonical()[..4];
    assert Pad(a.month, 2) == a.Canonical()[5..7] && Pad(b.month, 2) == b.Canonical()[5..7];
    assert Pad(a.day, 2) == a.Canonical()[8..] && Pad(b.day, 2) == b.Canonical()[8..];
  }
}
