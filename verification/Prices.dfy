// Decimal prices to integer cents, without floating point and within int64.
module Prices {
  import opened Wrappers
  import opened Text

  const MAX_INT64: nat := 0x7FFF_FFFF_FFFF_FFFF
  const MAX_DOLLARS: nat := (MAX_INT64 - 99) / 100

  datatype PriceError = PriceRequired | NoFraction | LongFraction | NotDecimal | OutOfRange

  predicate IsSymbol(c: char) {
    c == '$' || c == '\U{20AC}' || c == '\U{00A3}' || c == '\U{00A5}' || c == '\U{20B9}'
  }

  function IndexOfDot(s: string): (r: Option<nat>)
    ensures r.Some? ==> r.value < |s| && s[r.value] == '.' && '.' !in s[..r.value]
    ensures r.None? ==> '.' !in s
  {
    if s == "" then None
    else if s[0] == '.' then Some(0)
    else
      match IndexOfDot(s[1..])
      case None => assert s == [s[0]] + s[1..]; None
      case Some(i) => assert s[..i + 1] == [s[0]] + s[1..][..i]; Some(i + 1)
  }

  // strconv.ParseInt of ASCII digits into 64 bits.
  function ParseInt(s: string): Option<nat>
    requires IsDigits(s)
  {
    if NatOf(s) <= MAX_INT64 then Some(NatOf(s)) else None
  }

  // The whole and fractional parts; a single fractional digit means tenths.
  function SplitParts(s: string): Result<(string, string), PriceError> {
    match IndexOfDot(s)
    case None => Success((s, ""))
    case Some(dot) =>
      var frac := s[dot + 1..];
      if frac == "" then Failure(NoFraction)
      else if Utf8Len(frac) == 1 then Success((s[..dot], frac + "0"))
      else if Utf8Len(frac) == 2 then Success((s[..dot], frac))
      else Failure(LongFraction)
  }

  function ParseAmount(s: string): Result<nat, PriceError> {
    match SplitParts(s)
    case Failure(e) => Failure(e)
    case Success((whole, frac)) =>
      if !IsDigits(whole) || (frac != "" && !IsDigits(frac)) then Failure(NotDecimal)
      else
        match ParseInt(whole)
        case None => Failure(OutOfRange)
        case Some(dollars) =>
          if dollars > MAX_DOLLARS then Failure(OutOfRange)
          else if frac == "" then Success(dollars * 100)
          else
            match ParseInt(frac)
            case None => Failure(OutOfRange)
            case Some(cents) => Success(dollars * 100 + cents)
  }

  function ParsePriceCents(raw: string): Result<nat, PriceError> {
    var s := TrimSpace(TrimLeft(TrimSpace(raw), IsSymbol));
    if s == "" then Failure(PriceRequired) else ParseAmount(s)
  }

  // ---------------------------------------------------------------- which texts are prices

  predicate AmountOf(s: string, whole: string, frac: string, cents: nat) {
    && IsDigits(whole) && NatOf(whole) <= MAX_DOLLARS && All(frac, IsDigit) && |frac| <= 2
    && s == (if frac == "" then whole else whole + "." + frac)
    && cents == NatOf(whole) * 100 + NatOf(frac) * (if |frac| == 1 then 10 else 1)
  }

  ghost predicate Amount(s: string, cents: nat) {
    exists whole, frac :: AmountOf(s, whole, frac, cents)
  }

  // White space and currency symbols around an amount.
  ghost predicate PriceText(raw: string, cents: nat) {
    exists lead, symbols, gap, s, tail ::
      && All(lead, IsSpace) && All(symbols, IsSymbol) && All(gap, IsSpace) && All(tail, IsSpace)
      && Amount(s, cents) && raw == lead + symbols + gap + s + tail
  }

  // The symbols are those of dollar, euro, pound, yen and rupee.
  lemma SymbolsExactly(c: char)
    ensures IsSymbol(c) <==> c in "$\U{20AC}\U{A3}\U{A5}\U{20B9}"
  {
    var symbols := "$\U{20AC}\U{A3}\U{A5}\U{20B9}";
    assert symbols[0] == '$' && symbols[1] == '\U{20AC}' && symbols[2] == '\U{A3}' && symbols[3] == '\U{A5}';
    assert symbols[4] == '\U{20B9}';
  }

  // The cents are the amount written, shifted by two places, exactly.
  lemma AmountIsExact(s: string, whole: string, frac: string, cents: nat)
    requires AmountOf(s, whole, frac, cents)
    ensures All(whole + frac, IsDigit) && |frac| <= 2
    ensures cents == NatOf(whole + frac) * if |frac| == 0 then 100 else if |frac| == 1 then 10 else 1
  {
    if |frac| == 0 {
      assert whole + frac == whole;
    } else if |frac| == 1 {
      assert (whole + frac)[..|whole|] == whole;
      assert frac[..0] == "";
    } else {
      assert (whole + frac)[..|whole| + 1] == whole + frac[..1];
      assert (whole + frac[..1])[..|whole|] == whole;
      assert frac[..1][..0] == "";
      assert NatOf(whole + frac[..1]) == NatOf(whole) * 10 + DigitValue(frac[0]);
      assert NatOf(frac[..1]) == DigitValue(frac[0]);
      assert NatOf(frac) == DigitValue(frac[0]) * 10 + DigitValue(frac[1]);
    }
  }

  lemma DigitsAreAscii(s: string)
    requires All(s, IsDigit)
    ensures Utf8Len(s) == |s| && '.' !in s
  {
    AsciiLen(s);
  }

  lemma TenthsAreCents(frac: string)
    requires All(frac, IsDigit) && |frac| == 1
    ensures All(frac + "0", IsDigit) && NatOf(frac + "0") == NatOf(frac) * 10
  {
    assert (frac + "0")[..1] == frac;
  }

  lemma SmallFraction(frac: string)
    requires All(frac, IsDigit) && |frac| <= 2
    ensures NatOf(frac) <= if |frac| == 1 then 9 else 99
  {
    PadOfNatOf(frac);
    assert Pow10(0) == 1 && Pow10(1) == 10 && Pow10(2) == 100;
  }

  lemma {:induction false} FirstDot(whole: string, frac: string)
    requires '.' !in whole
    ensures IndexOfDot(whole + "." + frac) == Some(|whole|)
  {
    var s := whole + "." + frac;
    if whole != "" {
      assert s[1..] == whole[1..] + "." + frac;
      FirstDot(whole[1..], frac);
    }
  }

  lemma AmountReads(s: string, whole: string, frac: string, cents: nat)
    requires AmountOf(s, whole, frac, cents)
    ensures ParseAmount(s) == Success(cents)
  {
    DigitsAreAscii(whole);
    DigitsAreAscii(frac);
    SmallFraction(frac);
    if frac != "" {
      hide NatOf, Utf8Len, IndexOfDot;
      FirstDot(whole, frac);
      assert s[..|whole|] == whole && s[|whole| + 1..] == frac;
      if |frac| == 1 {
        TenthsAreCents(frac);
        assert SplitParts(s) == Success((whole, frac + "0"));
      } else {
        assert SplitParts(s) == Success((whole, frac));
      }
    }
  }

  lemma AmountWritten(s: string, cents: nat)
    requires ParseAmount(s) == Success(cents)
    ensures Amount(s, cents) && cents <= MAX_INT64
  {
    hide NatOf, Utf8Len, All;
    var (whole, frac) := SplitParts(s).value;
    if IndexOfDot(s).None? {
      EmptyIsZero();
      assert AmountOf(s, s, "", cents);
    } else {
      var given := s[|whole| + 1..];
      assert s == whole + "." + given;
      SmallFraction(frac);
      if Utf8Len(given) == 1 {
        AllConcat(given, "0", IsDigit);
        TenthsAreCents(given);
      } else {
        DigitsAreAscii(given);
      }
      assert AmountOf(s, whole, given, cents);
    }
  }

  lemma EmptyIsZero()
    ensures NatOf("") == 0 && All("", IsDigit)
  {
  }

  // Accepted exactly: white space, any currency symbols, white space, then digits with at most two
  // fractional digits and a whole part within range. The value is exact and fits in an int64.
  lemma PriceExactly(raw: string, cents: nat)
    ensures ParsePriceCents(raw) == Success(cents) <==> PriceText(raw, cents)
    ensures ParsePriceCents(raw) == Success(cents) ==> cents <= MAX_INT64
  {
    if ParsePriceCents(raw) == Success(cents) { PriceWritten(raw, cents); }
    if PriceText(raw, cents) { PriceReads(raw, cents); }
  }

  lemma PriceWritten(raw: string, cents: nat)
    requires ParsePriceCents(raw) == Success(cents)
    ensures PriceText(raw, cents) && cents <= MAX_INT64
  {
    hide Amount, ParseAmount, IsSpace, IsSymbol, TrimSpace, TrimLeft, All;
    var outer := TrimSpace(raw);
    var bare := TrimLeft(outer, IsSymbol);
    var s := TrimSpace(bare);
    AmountWritten(s, cents);
    var lead, tail := TrimSpaceSplits(raw);
    var gap, inner := TrimSpaceSplits(bare);
    var symbols := outer[..|outer| - |bare|];
    SplitAt(outer, |symbols|);
    Regroup(lead, symbols, gap, s, inner, tail);
    AllConcat(inner, tail, IsSpace);
  }

  lemma Regroup(lead: string, symbols: string, gap: string, s: string, inner: string, tail: string)
    ensures lead + (symbols + (gap + s + inner)) + tail == lead + symbols + gap + s + (inner + tail)
  {
    assert gap + s + inner == gap + (s + inner);
    assert lead + (symbols + (gap + s + inner)) + tail == lead + symbols + (gap + s + inner) + tail;
  }

  lemma AllConcat(a: string, b: string, p: char -> bool)
    ensures All(a + b, p) <==> All(a, p) && All(b, p)
  {
    if All(a + b, p) {
      forall i | 0 <= i < |a| ensures p(a[i]) { assert (a + b)[i] == a[i]; }
      forall i | 0 <= i < |b| ensures p(b[i]) { assert (a + b)[|a| + i] == b[i]; }
    }
  }

  lemma AmountEdges(s: string, cents: nat)
    requires Amount(s, cents)
    ensures s != "" && IsDigit(s[0]) && IsDigit(s[|s| - 1])
  {
  }

  lemma AmountParses(s: string, cents: nat)
    requires Amount(s, cents)
    ensures ParseAmount(s) == Success(cents)
  {
    hide AmountOf;
    var whole, frac :| AmountOf(s, whole, frac, cents);
    AmountReads(s, whole, frac, cents);
  }

  lemma PriceReads(raw: string, cents: nat)
    requires PriceText(raw, cents)
    ensures ParsePriceCents(raw) == Success(cents)
  {
    hide Amount, ParseAmount, TrimSpace;
    var lead, symbols, gap, s, tail :|
      && All(lead, IsSpace) && All(symbols, IsSymbol) && All(gap, IsSpace) && All(tail, IsSpace)
      && Amount(s, cents) && raw == lead + symbols + gap + s + tail;
    AmountParses(s, cents);
    AmountEdges(s, cents);
    BareAmount(lead, symbols, gap, s, tail);
  }

  // Peeling white space, symbols and white space leaves the amount.
  lemma BareAmount(lead: string, symbols: string, gap: string, s: string, tail: string)
    requires All(lead, IsSpace) && All(symbols, IsSymbol) && All(gap, IsSpace) && All(tail, IsSpace)
    requires s != "" && IsDigit(s[0]) && IsDigit(s[|s| - 1])
    ensures TrimSpace(TrimLeft(TrimSpace(lead + symbols + gap + s + tail), IsSymbol)) == s
  {
    hide TrimSpace, All, TrimLeft;
    var raw := lead + symbols + gap + s + tail;
    if symbols == "" {
      NoSymbols(lead, gap, s, tail);
      assert raw == lead + gap + s + tail;
    } else {
      var mid := symbols + (gap + s);
      SymbolsFirst(symbols, gap, s);
      assert symbols + gap + s == mid;
      assert lead + symbols + gap + s == lead + mid;
      TrimSpaceOf(lead, mid, tail);
    }
  }

  lemma NoSymbols(lead: string, gap: string, s: string, tail: string)
    requires All(lead, IsSpace) && All(gap, IsSpace) && All(tail, IsSpace)
    requires s != "" && IsDigit(s[0]) && IsDigit(s[|s| - 1])
    ensures TrimSpace(TrimLeft(TrimSpace(lead + gap + s + tail), IsSymbol)) == s
  {
    hide TrimSpace;
    assert All(lead + gap, IsSpace);
    TrimSpaceOf(lead + gap, s, tail);
    TrimmedIsFixed(s);
  }

  lemma SymbolsFirst(symbols: string, gap: string, s: string)
    requires symbols != "" && All(symbols, IsSymbol) && All(gap, IsSpace)
    requires s != "" && IsDigit(s[0]) && IsDigit(s[|s| - 1])
    ensures Trimmed(symbols + (gap + s))
    ensures TrimSpace(TrimLeft(symbols + (gap + s), IsSymbol)) == s
  {
    hide TrimSpace, TrimLeft, IsSymbol, IsSpace;
    SymbolEdges(symbols, gap, s);
    TrimLeftOf(symbols, gap + s, IsSymbol);
    TrimSpaceOf(gap, s, "");
    assert gap + s + "" == gap + s;
  }

  lemma SymbolEdges(symbols: string, gap: string, s: string)
    requires symbols != "" && All(symbols, IsSymbol) && All(gap, IsSpace)
    requires s != "" && IsDigit(s[0]) && IsDigit(s[|s| - 1])
    ensures !IsSymbol((gap + s)[0]) && Trimmed(s)
    ensures Trimmed(symbols + (gap + s))
  {
    var all := symbols + (gap + s);
    assert all[0] == symbols[0] && all[|all| - 1] == s[|s| - 1];
    assert IsSymbol(symbols[0]);
  }

  // ---------------------------------------------------------------- the printer it inverts

  // The format %d.%02d of whole dollars and cents.
  function PrintCents(cents: nat): string {
    Decimal(cents / 100) + "." + Pad(cents % 100, 2)
  }

  // Every amount up to 92233720368547757.99 is read back exactly; every larger one is refused.
  lemma PrintedPriceRoundTrips(cents: nat)
    ensures ParsePriceCents(PrintCents(cents)) ==
              if cents / 100 <= MAX_DOLLARS then Success(cents) else Failure(OutOfRange)
  {
    hide TrimSpace, TrimLeft, Decimal, Pad, NatOf, ParseAmount;
    var whole, frac, s := Decimal(cents / 100), Pad(cents % 100, 2), PrintCents(cents);
    NatOfDecimal(cents / 100);
    CentsDigits(cents % 100);
    assert "" + "" + s + "" == s;
    NoSymbols("", "", s, "");
    if cents / 100 <= MAX_DOLLARS {
      AmountReads(s, whole, frac, cents);
    } else {
      TooLarge(whole, frac);
    }
  }

  lemma CentsDigits(n: nat)
    requires n < 100
    ensures NatOf(Pad(n, 2)) == n
  {
    assert Pow10(1) == 10 && Pow10(2) == 100;
    NatOfPad(n, 2);
  }

  lemma TooLarge(whole: string, frac: string)
    requires IsDigits(whole) && All(frac, IsDigit) && |frac| == 2 && NatOf(whole) > MAX_DOLLARS
    ensures ParseAmount(whole + "." + frac) == Failure(OutOfRange)
  {
    hide NatOf, Utf8Len, IndexOfDot;
    var s := whole + "." + frac;
    DigitsAreAscii(whole);
    DigitsAreAscii(frac);
    FirstDot(whole, frac);
    assert s[..|whole|] == whole && s[|whole| + 1..] == frac;
    assert SplitParts(s) == Success((whole, frac));
  }

  lemma LargestPrice()
    ensures MAX_DOLLARS == 92233720368547757
    ensures MAX_DOLLARS * 100 + 99 == 9223372036854775799 <= MAX_INT64
  {
  }
}
