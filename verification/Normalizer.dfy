// Field rules for one CSV record: trimming, limits, derived identity, price, currency, expiration.
module Normalizer {
  import opened Wrappers
  import opened Events
  import opened Text
  import opened Prices
  import opened Dates
  import opened Division

  const MAX_MERCHANT_ID_LEN := 64
  const MAX_PRODUCT_ID_LEN := 64
  const MAX_NAME_LEN := 256
  const DEFAULT_CURRENCY := "USD"

  datatype Reason =
    | MerchantRequired | MerchantTooLong
    | NameRequired | NameTooLong
    | ProductTooLong
    | BadPrice(why: PriceError)
    | UnsupportedCurrency
    | BadExpiration
    | Malformed   // the record itself could not be read

  function ValidCurrencies(): set<string> {
    {"USD", "EUR", "GBP", "JPY", "INR", "AUD", "CAD", "CHF", "CNY"}
  }

  // Upper case as far as it can produce an ASCII letter: besides a to z, the dotless i and the
  // long s. No other letter can end up in a supported currency code.
  function UpperChar(c: char): char {
    if 'a' <= c <= 'z' then c - 'a' + 'A'
    else if c == '\U{0131}' then 'I'
    else if c == '\U{017F}' then 'S'
    else c
  }

  function Upper(s: string): string {
    seq(|s|, i requires 0 <= i < |s| => UpperChar(s[i]))
  }

  // ---------------------------------------------------------------- derived product identity

  function TakeDigits(s: string): (d: string)
    ensures d <= s && All(d, IsDigit)
    ensures |d| < |s| ==> !IsDigit(s[|d|])
  {
    if s != "" && IsDigit(s[0]) then [s[0]] + TakeDigits(s[1..]) else ""
  }

  // A match of #(digits) at the start of the text.
  function SkuHere(s: string): Option<string> {
    if "#(" <= s then
      var d := TakeDigits(s[2..]);
      if d != "" && |d| < |s[2..]| && s[2..][|d|] == ')' then Some(d) else None
    else None
  }

  // The leftmost match.
  function FindSku(name: string): Option<string> {
    if name == "" then None
    else if SkuHere(name).Some? then SkuHere(name)
    else FindSku(name[1..])
  }

  function HexDigit(n: nat): char
    requires n < 16
  {
    if n < 10 then Digit(n) else 'a' + (n - 10) as char
  }

  function Hex(n: nat): string {
    if n < 16 then [HexDigit(n)] else Hex(n / 16) + [HexDigit(n % 16)]
  }

  // The name's own SKU, or a hash of the name; the hash function is a parameter.
  function DeriveProductId(name: string, hash: string -> nat): string {
    match FindSku(name)
    case Some(sku) => sku
    case None => "p-" + Hex(hash(name))
  }

  predicate SkuAt(name: string, i: nat, sku: string) {
    IsDigits(sku) && i <= |name| && "#(" + sku + ")" <= name[i..]
  }

  lemma SkuHereExactly(s: string, sku: string)
    ensures SkuHere(s) == Some(sku) <==> SkuAt(s, 0, sku)
  {
    assert s[0..] == s;
    var text := "#(" + sku + ")";
    if SkuHere(s) == Some(sku) {
      assert s[..|text|] == text;
    }
    if SkuAt(s, 0, sku) {
      var rest := s[|text| - 1..];
      assert s[2..] == sku + rest by {
        assert s == s[..|text|] + s[|text|..];
      }
      TakesAll(sku, rest);
    }
  }

  lemma {:induction false} TakesAll(digits: string, rest: string)
    requires All(digits, IsDigit) && (rest != "" ==> !IsDigit(rest[0]))
    ensures TakeDigits(digits + rest) == digits
  {
    if digits == "" {
      assert digits + rest == rest;
    } else {
      assert (digits + rest)[1..] == digits[1..] + rest;
      TakesAll(digits[1..], rest);
    }
  }

  ghost predicate NoSkuBefore(name: string, i: nat) {
    forall j: nat, other :: j < i ==> !SkuAt(name, j, other)
  }

  // The identifier found is the leftmost embedded one.
  lemma {:induction false} SkuExactly(name: string, sku: string)
    ensures FindSku(name) == Some(sku) <==> exists i: nat :: SkuAt(name, i, sku) && NoSkuBefore(name, i)
    ensures FindSku(name).None? ==> NoSkuBefore(name, |name| + 1)
  {
    hide SkuHere, SkuAt;
    forall other ensures SkuHere(name) == Some(other) <==> SkuAt(name, 0, other) {
      SkuHereExactly(name, other);
    }
    if name == "" {
      EmptyHasNoSku();
    } else {
      var rest := name[1..];
      SkuExactly(rest, sku);
      ShiftSku(name);
      if i: nat :| SkuAt(rest, i, sku) && NoSkuBefore(rest, i) && SkuHere(name).None? {
        assert SkuAt(name, i + 1, sku) && NoSkuBefore(name, i + 1);
      }
      if i: nat :| SkuAt(name, i, sku) && NoSkuBefore(name, i) {
        if i > 0 { assert SkuAt(rest, i - 1, sku) && NoSkuBefore(rest, i - 1); }
      }
    }
  }

  lemma EmptyHasNoSku()
    ensures forall i: nat, other :: !SkuAt("", i, other)
  {
  }

  lemma ShiftSku(name: string)
    requires name != ""
    ensures forall j: nat, other :: SkuAt(name[1..], j, other) <==> SkuAt(name, j + 1, other)
    ensures forall i: nat, other :: i > 0 ==> (SkuAt(name, i, other) <==> SkuAt(name[1..], i - 1, other))
  {
    forall j: nat, other
      ensures SkuAt(name[1..], j, other) <==> SkuAt(name, j + 1, other)
    {
      if j + 1 <= |name| { assert name[j + 1..] == name[1..][j..]; }
    }
    forall i: nat, other | i > 0
      ensures SkuAt(name, i, other) <==> SkuAt(name[1..], i - 1, other)
    {
      assert SkuAt(name[1..], i - 1, other) <==> SkuAt(name, i - 1 + 1, other);
    }
  }

  // ---------------------------------------------------------------- what a derived identifier is

  function HexDigitValue(c: char): nat {
    if '0' <= c <= '9' then (c - '0') as nat else if 'a' <= c <= 'f' then (c - 'a') as nat + 10 else 16
  }

  ghost function HexValue(s: string): nat {
    if s == "" then 0 else HexValue(s[..|s| - 1]) * 16 + HexDigitValue(s[|s| - 1])
  }

  // A lower-case hexadecimal numeral without leading zeros.
  ghost predicate HexNumeral(s: string, n: nat) {
    && s != "" && HexValue(s) == n && (|s| > 1 ==> s[0] != '0')
    && forall i :: 0 <= i < |s| ==> '0' <= s[i] <= '9' || 'a' <= s[i] <= 'f'
  }

  lemma {:induction false} HexIsNumeral(n: nat)
    ensures HexNumeral(Hex(n), n) && (n > 0 ==> Hex(n)[0] != '0')
  {
    if n < 16 {
      assert [HexDigit(n)][..0] == "";
    } else {
      HexIsNumeral(n / 16);
      assert Hex(n)[..|Hex(n)| - 1] == Hex(n / 16);
    }
  }

  lemma {:induction false} NumeralIsHex(s: string, n: nat)
    requires HexNumeral(s, n)
    ensures s == Hex(n) && (s[0] != '0' ==> n > 0)
  {
    var k := |s| - 1;
    assert s == s[..k] + [s[k]];
    if k > 0 {
      var q, v := HexValue(s[..k]), HexDigitValue(s[k]);
      assert s[..k][0] == s[0];
      NumeralIsHex(s[..k], q);
      assert n == 16 * q + v;
      Quotient(n, 16, q, v);
      DigitOfValue(s[k]);
    } else {
      assert s[..0] == "";
      DigitOfValue(s[0]);
    }
  }

  lemma DigitOfValue(c: char)
    requires '0' <= c <= '9' || 'a' <= c <= 'f'
    ensures HexDigitValue(c) < 16 && HexDigit(HexDigitValue(c)) == c
    ensures c != '0' ==> HexDigitValue(c) > 0
  {
  }

  // The leftmost embedded SKU if the name has one, and else the hash of the name.
  ghost predicate Derived(name: string, hash: string -> nat, id: string) {
    || (exists i: nat :: SkuAt(name, i, id) && NoSkuBefore(name, i))
    || (NoSkuBefore(name, |name| + 1) && exists h :: HexNumeral(h, hash(name)) && id == "p-" + h)
  }

  lemma DerivedExactly(name: string, hash: string -> nat, id: string)
    ensures DeriveProductId(name, hash) == id <==> Derived(name, hash, id)
  {
    hide SkuAt, FindSku, HexNumeral, Hex;
    SkuExactly(name, id);
    HexIsNumeral(hash(name));
    if FindSku(name).Some? {
      SkuExactly(name, FindSku(name).value);
      var i: nat :| SkuAt(name, i, FindSku(name).value) && NoSkuBefore(name, i);
      SkuInside(name, i, FindSku(name).value);
      assert !NoSkuBefore(name, |name| + 1);
    } else {
      forall h | HexNumeral(h, hash(name)) ensures h == Hex(hash(name)) { NumeralIsHex(h, hash(name)); }
      assert !(exists i: nat :: SkuAt(name, i, id) && NoSkuBefore(name, i));
    }
  }

  lemma SkuInside(name: string, i: nat, sku: string)
    requires SkuAt(name, i, sku)
    ensures i <= |name|
  {
  }

  // ---------------------------------------------------------------- the rules

  function Normalize(
      merchantId: string, productId: string, name: string, price: string, currency: string, expiration: string,
      hash: string -> nat)
      : (r: Result<ProductData, Reason>)
    ensures r != Failure(Malformed)
  {
    var merchant, nm := TrimSpace(merchantId), TrimSpace(name);
    if merchant == "" then Failure(MerchantRequired)
    else if Utf8Len(merchant) > MAX_MERCHANT_ID_LEN then Failure(MerchantTooLong)
    else if nm == "" then Failure(NameRequired)
    else if Utf8Len(nm) > MAX_NAME_LEN then Failure(NameTooLong)
    else
      var product := if TrimSpace(productId) == "" then DeriveProductId(nm, hash) else TrimSpace(productId);
      if Utf8Len(product) > MAX_PRODUCT_ID_LEN then Failure(ProductTooLong)
      else
        match ParsePriceCents(price)
        case Failure(why) => Failure(BadPrice(why))
        case Success(cents) =>
          var code := Upper(TrimSpace(currency));
          var settled := if code == "" then DEFAULT_CURRENCY else code;
          if settled !in ValidCurrencies() then Failure(UnsupportedCurrency)
          else
            match ParseExpiration(expiration)
            case None => Failure(BadExpiration)
            case Some(date) => Success(ProductData(merchant, product, nm, cents, settled, date))
  }

  // ---------------------------------------------------------------- what makes no difference

  // White space around the fields makes no difference, to acceptance, product or reason.
  lemma PaddingIsFree(
      merchantId: string, productId: string, name: string, price: string, currency: string, expiration: string,
      hash: string -> nat, lead: string, tail: string)
    requires All(lead, IsSpace) && All(tail, IsSpace)
    ensures Normalize(lead + merchantId + tail, lead + productId + tail, lead + name + tail,
                      lead + price + tail, lead + currency + tail, lead + expiration + tail, hash) ==
            Normalize(merchantId, productId, name, price, currency, expiration, hash)
  {
    hide TrimSpace, All, ParseAmount, TrimLeft, Upper, DeriveProductId, Utf8Len, ParseIso, ParseUs;
    TrimSpacePadded(lead, merchantId, tail);
    TrimSpacePadded(lead, productId, tail);
    TrimSpacePadded(lead, name, tail);
    TrimSpacePadded(lead, price, tail);
    TrimSpacePadded(lead, currency, tail);
    TrimSpacePadded(lead, expiration, tail);
    assert ParsePriceCents(lead + price + tail) == ParsePriceCents(price);
    assert ParseExpiration(lead + expiration + tail) == ParseExpiration(expiration);
  }

  predicate UpperCaseOf(c: char, letter: char) {
    c == letter || ('A' <= letter <= 'Z' && c == letter - 'A' + 'a')
  }

  // Nor does the case of the currency code, and a blank one means the default.
  lemma CurrencyCaseIsFree(
      merchantId: string, productId: string, name: string, price: string, currency: string, code: string,
      expiration: string, hash: string -> nat)
    requires code in ValidCurrencies() && |currency| == |code|
    requires forall i :: 0 <= i < |code| ==> UpperCaseOf(currency[i], code[i])
    ensures Normalize(merchantId, productId, name, price, currency, expiration, hash) ==
            Normalize(merchantId, productId, name, price, code, expiration, hash)
    ensures Normalize(merchantId, productId, name, price, "", expiration, hash) ==
            Normalize(merchantId, productId, name, price, DEFAULT_CURRENCY, expiration, hash)
  {
    hide TrimSpace, ParsePriceCents, ParseExpiration, DeriveProductId, Utf8Len, ValidCurrencies;
    CurrencyLetters(code);
    CurrencyFixed(code);
    assert DEFAULT_CURRENCY in ValidCurrencies() by { DefaultIsValid(); }
    CurrencyFixed(DEFAULT_CURRENCY);
    TrimmedIsFixed(currency);
    TrimmedIsFixed("");
    assert Upper(currency) == code;
    assert Upper("") == "";
  }

  lemma DefaultIsValid()
    ensures DEFAULT_CURRENCY in ValidCurrencies()
  {
  }

  // ---------------------------------------------------------------- what it accepts

  lemma {:induction false} HexTrimmed(n: nat)
    ensures Hex(n) != "" && forall i :: 0 <= i < |Hex(n)| ==> !IsSpace(Hex(n)[i])
  {
    if n >= 16 { HexTrimmed(n / 16); }
  }

  lemma {:induction false} FindSkuDigits(name: string)
    ensures FindSku(name).Some? ==> IsDigits(FindSku(name).value)
  {
    if name != "" { FindSkuDigits(name[1..]); }
  }

  lemma DerivedTrimmed(name: string, hash: string -> nat)
    ensures Trimmed(DeriveProductId(name, hash)) && DeriveProductId(name, hash) != ""
  {
    FindSkuDigits(name);
    HexTrimmed(hash(name));
  }

  // What every accepted product satisfies, whatever the text it came from.
  ghost predicate Normal(p: ProductData) {
    && p.merchantId != "" && Trimmed(p.merchantId) && Utf8Len(p.merchantId) <= MAX_MERCHANT_ID_LEN
    && p.productId != "" && Trimmed(p.productId) && Utf8Len(p.productId) <= MAX_PRODUCT_ID_LEN
    && p.name != "" && Trimmed(p.name) && Utf8Len(p.name) <= MAX_NAME_LEN
    && 0 <= p.priceCents && p.priceCents / 100 <= MAX_DOLLARS
    && p.currency in ValidCurrencies()
    && (p.expirationDate == "" || exists d: Date :: d.Valid() && p.expirationDate == d.Canonical())
  }

  lemma PriceBound(price: string)
    requires ParsePriceCents(price).Success?
    ensures ParsePriceCents(price).value / 100 <= MAX_DOLLARS
  {
    var cents := ParsePriceCents(price).value;
    PriceExactly(price, cents);
    var lead, symbols, gap, s, tail :|
      && All(lead, IsSpace) && All(symbols, IsSymbol) && All(gap, IsSpace) && All(tail, IsSpace)
      && Amount(s, cents) && price == lead + symbols + gap + s + tail;
    var whole, frac :| AmountOf(s, whole, frac, cents);
    SmallFraction(frac);
  }

  lemma AcceptedIsNormal(
      merchantId: string, productId: string, name: string, price: string, currency: string, expiration: string,
      hash: string -> nat)
    requires Normalize(merchantId, productId, name, price, currency, expiration, hash).Success?
    ensures Normal(Normalize(merchantId, productId, name, price, currency, expiration, hash).value)
  {
    hide TrimSpace, ParsePriceCents, ParseExpiration, DeriveProductId, Utf8Len, Upper, ValidCurrencies;
    var m1, m2 := TrimSpaceSplits(merchantId);
    var p1, p2 := TrimSpaceSplits(productId);
    var n1, n2 := TrimSpaceSplits(name);
    DerivedTrimmed(TrimSpace(name), hash);
    PriceBound(price);
    var date := ParseExpiration(expiration).value;
    ExpirationExactly(expiration, date);
    if date != "" {
      var d: Date :| Writes(TrimSpace(expiration), d) && date == d.Canonical();
    }
  }

  lemma CurrencyFixed(code: string)
    requires code in ValidCurrencies()
    ensures Upper(TrimSpace(code)) == code && code != ""
  {
    hide ValidCurrencies, TrimSpace;
    CurrencyLetters(code);
    TrimmedIsFixed(code);
    assert Upper(code) == code;
  }

  lemma CurrencyLetters(code: string)
    requires code in ValidCurrencies()
    ensures |code| == 3 && forall i :: 0 <= i < 3 ==> 'A' <= code[i] <= 'Z'
  {
  }

  // Nothing was accepted, or what was is read back from its own printed fields.
  predicate Stable(r: Result<ProductData, Reason>, hash: string -> nat) {
    r.Success? ==>
      r.value.priceCents >= 0 &&
      var p := r.value;
      Normalize(p.merchantId, p.productId, p.name, PrintCents(p.priceCents), p.currency, p.expirationDate, hash) == r
  }

  // A normal product, printed field by field, is read back as itself.
  lemma NormalIsFixed(p: ProductData, hash: string -> nat)
    requires Normal(p)
    ensures Stable(Success(p), hash)
  {
    hide TrimSpace, ParsePriceCents, ParseExpiration, DeriveProductId, Utf8Len, Upper, ValidCurrencies;
    TrimmedIsFixed(p.merchantId);
    TrimmedIsFixed(p.productId);
    TrimmedIsFixed(p.name);
    PrintedPriceRoundTrips(p.priceCents);
    CurrencyFixed(p.currency);
    DateFixed(p.expirationDate);
  }

  lemma DateFixed(date: string)
    requires date == "" || exists d: Date :: d.Valid() && date == d.Canonical()
    ensures ParseExpiration(date) == Some(date)
  {
    if date == "" {
      ExpirationExactly("", "");
      assert TrimSpace("") == "";
    } else {
      var d: Date :| d.Valid() && date == d.Canonical();
      CanonicalTrimmed(d);
      TrimmedIsFixed(date);
      assert Writes(date, d);
      ExpirationExactly(date, date);
    }
  }

  // Normalization is stable: an accepted row, printed and normalized again, is the same product,
  // a derived product id and a canonicalized date included.
  lemma NormalizationIsStable(
      merchantId: string, productId: string, name: string, price: string, currency: string, expiration: string,
      hash: string -> nat)
    ensures Stable(Normalize(merchantId, productId, name, price, currency, expiration, hash), hash)
  {
    hide Normalize, Normal;
    var r := Normalize(merchantId, productId, name, price, currency, expiration, hash);
    if r.Success? {
      AcceptedIsNormal(merchantId, productId, name, price, currency, expiration, hash);
      NormalIsFixed(r.value, hash);
    }
  }

  // ---------------------------------------------------------------- exactly what is accepted, and as what

  // The text is white space, the value, white space.
  ghost predicate Padded(raw: string, value: string) {
    Trimmed(value) && exists lead, tail :: All(lead, IsSpace) && All(tail, IsSpace) && raw == lead + value + tail
  }

  lemma PaddedExactly(raw: string, value: string)
    ensures Padded(raw, value) <==> TrimSpace(raw) == value
  {
    hide TrimSpace, IsSpace, All;
    if Padded(raw, value) {
      var lead, tail :| All(lead, IsSpace) && All(tail, IsSpace) && raw == lead + value + tail;
      TrimSpacePadded(lead, value, tail);
      TrimmedIsFixed(value);
    }
    if TrimSpace(raw) == value {
      var lead, tail := TrimSpaceSplits(raw);
    }
  }

  ghost predicate MerchantOf(raw: string, merchant: string) {
    Padded(raw, merchant) && merchant != "" && Utf8Len(merchant) <= 64
  }

  ghost predicate NameOf(raw: string, name: string) {
    Padded(raw, name) && name != "" && Utf8Len(name) <= 256
  }

  // The identifier itself, or, for a blank one, the one derived from the name.
  ghost predicate Identifies(raw: string, name: string, hash: string -> nat, id: string) {
    (Padded(raw, id) && id != "") || (Padded(raw, "") && Derived(name, hash, id))
  }

  predicate Supported(code: string) {
    || code == "USD" || code == "EUR" || code == "GBP" || code == "JPY" || code == "INR"
    || code == "AUD" || code == "CAD" || code == "CHF" || code == "CNY"
  }

  // The characters whose upper case is the letter.
  predicate Raises(c: char, letter: char) {
    UpperCaseOf(c, letter) || (letter == 'I' && c == '\U{0131}') || (letter == 'S' && c == '\U{017F}')
  }

  // A supported code in any case, or the default for a blank.
  ghost predicate CurrencyOf(raw: string, code: string) {
    Supported(code) &&
    exists text :: Padded(raw, text) &&
      ((text == "" && code == "USD") || (|text| == 3 && forall i :: 0 <= i < 3 ==> Raises(text[i], code[i])))
  }

  ghost predicate DateOf(raw: string, date: string) {
    || (date == "" && Padded(raw, ""))
    || exists text, d: Date :: Padded(raw, text) && text != "" && Writes(text, d) && date == d.Canonical()
  }

  ghost predicate Denotes(
      merchantId: string, productId: string, name: string, price: string, currency: string, expiration: string,
      hash: string -> nat, p: ProductData)
  {
    && MerchantOf(merchantId, p.merchantId) && NameOf(name, p.name)
    && Identifies(productId, p.name, hash, p.productId) && Utf8Len(p.productId) <= 64
    && p.priceCents >= 0 && PriceText(price, p.priceCents)
    && CurrencyOf(currency, p.currency) && DateOf(expiration, p.expirationDate)
  }

  lemma IdentifiesExactly(raw: string, name: string, hash: string -> nat, id: string)
    ensures Identifies(raw, name, hash, id) <==>
              id == if TrimSpace(raw) == "" then DeriveProductId(name, hash) else TrimSpace(raw)
  {
    hide Padded, TrimSpace, DeriveProductId, Derived;
    PaddedExactly(raw, id);
    PaddedExactly(raw, "");
    DerivedExactly(name, hash, id);
  }

  lemma SupportedExactly(code: string)
    ensures Supported(code) <==> code in ValidCurrencies()
  {
  }

  lemma RaisesExactly(c: char, letter: char)
    requires 'A' <= letter <= 'Z'
    ensures Raises(c, letter) <==> UpperChar(c) == letter
  {
  }

  lemma UpperExactly(text: string, code: string)
    requires Supported(code)
    ensures Upper(text) == code <==> |text| == 3 && forall i :: 0 <= i < 3 ==> Raises(text[i], code[i])
  {
    SupportedExactly(code);
    CurrencyLetters(code);
    hide Supported, Raises, UpperChar, ValidCurrencies;
    forall i | 0 <= i < 3 && i < |text| ensures Raises(text[i], code[i]) <==> UpperChar(text[i]) == code[i] {
      RaisesExactly(text[i], code[i]);
    }
    if |text| == 3 && forall i :: 0 <= i < 3 ==> Raises(text[i], code[i]) {
      assert Upper(text) == code;
    }
    if Upper(text) == code {
      forall i | 0 <= i < 3 ensures Raises(text[i], code[i]) { assert Upper(text)[i] == code[i]; }
    }
  }

  function Settled(code: string): string {
    if code == "" then DEFAULT_CURRENCY else code
  }

  lemma CurrencyExactly(raw: string, code: string)
    ensures CurrencyOf(raw, code) <==> code in ValidCurrencies() && code == Settled(Upper(TrimSpace(raw)))
  {
    SupportedExactly(code);
    hide ValidCurrencies, TrimSpace, Raises, Padded, Upper;
    forall text ensures Padded(raw, text) <==> TrimSpace(raw) == text { PaddedExactly(raw, text); }
    if Supported(code) {
      UpperExactly(TrimSpace(raw), code);
      EmptyCode(TrimSpace(raw));
    }
  }

  lemma EmptyCode(text: string)
    ensures Upper(text) == "" <==> text == ""
    ensures !Supported("")
  {
    assert |Upper(text)| == |text|;
  }

  lemma DateExactly(raw: string, date: string)
    ensures DateOf(raw, date) <==> ParseExpiration(raw) == Some(date)
  {
    hide TrimSpace, Padded, ParseExpiration, Writes;
    forall text ensures Padded(raw, text) <==> TrimSpace(raw) == text { PaddedExactly(raw, text); }
    ExpirationExactly(raw, date);
  }

  // The whole of the normalization: the row is accepted as p exactly when each of its texts denotes that
  // field of p.
  lemma NormalizeExactly(
      merchantId: string, productId: string, name: string, price: string, currency: string, expiration: string,
      hash: string -> nat, p: ProductData)
    ensures Normalize(merchantId, productId, name, price, currency, expiration, hash) == Success(p) <==>
            Denotes(merchantId, productId, name, price, currency, expiration, hash, p)
  {
    hide Padded, TrimSpace, ParsePriceCents, ParseExpiration, DeriveProductId, Utf8Len, Upper, ValidCurrencies,
         Identifies, CurrencyOf, DateOf, PriceText;
    PaddedExactly(merchantId, p.merchantId);
    PaddedExactly(name, p.name);
    IdentifiesExactly(productId, p.name, hash, p.productId);
    if p.priceCents >= 0 { PriceExactly(price, p.priceCents); }
    CurrencyExactly(currency, p.currency);
    DateExactly(expiration, p.expirationDate);
  }

  // A rejected row is rejected for the first rule it breaks.
  lemma ReasonExactly(
      merchantId: string, productId: string, name: string, price: string, currency: string, expiration: string,
      hash: string -> nat)
    requires Normalize(merchantId, productId, name, price, currency, expiration, hash).Failure?
    ensures var merchantFits, nameFits, priceFits, currencyFits :=
              (exists m :: MerchantOf(merchantId, m)), (exists n :: NameOf(name, n)),
              (exists c: nat :: PriceText(price, c)), (exists c :: CurrencyOf(currency, c));
            match Normalize(merchantId, productId, name, price, currency, expiration, hash).error
            case MerchantRequired => Padded(merchantId, "")
            case MerchantTooLong => exists m :: Padded(merchantId, m) && Utf8Len(m) > 64
            case NameRequired => merchantFits && Padded(name, "")
            case NameTooLong => merchantFits && exists n :: Padded(name, n) && Utf8Len(n) > 256
            case ProductTooLong =>
              merchantFits && nameFits &&
              exists n, id :: NameOf(name, n) && Identifies(productId, n, hash, id) && Utf8Len(id) > 64
            case BadPrice(_) => merchantFits && nameFits && !priceFits
            case UnsupportedCurrency => merchantFits && nameFits && priceFits && !currencyFits
            case BadExpiration =>
              merchantFits && nameFits && priceFits && currencyFits && forall date :: !DateOf(expiration, date)
            case Malformed => false
  {
    hide Padded, TrimSpace, ParsePriceCents, ParseExpiration, DeriveProductId, Utf8Len, Upper, ValidCurrencies,
         Identifies, CurrencyOf, DateOf, PriceText;
    PaddedExactly(merchantId, TrimSpace(merchantId));
    PaddedExactly(name, TrimSpace(name));
    var n := TrimSpace(name);
    var id := if TrimSpace(productId) == "" then DeriveProductId(n, hash) else TrimSpace(productId);
    IdentifiesExactly(productId, n, hash, id);
    assert Padded(merchantId, TrimSpace(merchantId)) && Padded(name, n);
    assert Identifies(productId, n, hash, id);
    if ParsePriceCents(price).Success? { PriceExactly(price, ParsePriceCents(price).value); }
    forall c: nat ensures PriceText(price, c) <==> ParsePriceCents(price) == Success(c) { PriceExactly(price, c); }
    forall c ensures CurrencyOf(currency, c) <==> c in ValidCurrencies() && c == Settled(Upper(TrimSpace(currency))) {
      CurrencyExactly(currency, c);
    }
    forall date ensures DateOf(expiration, date) <==> ParseExpiration(expiration) == Some(date) {
      DateExactly(expiration, date);
    }
    if MerchantOf(merchantId, TrimSpace(merchantId)) {}
    if NameOf(name, n) {}
  }
}
