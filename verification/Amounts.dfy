/** The two parsers of typed money: the administrator's, through decimal arithmetic, and the
    wallet's, through integers. */
module Amounts {
  import opened Prelude
  import opened PythonText

  const MAX_MINOR := 9_223_372_036_854_775_807

  /** Audited minor-unit exponents; any other currency has none. */
  function Exponent(currency: string): Option<nat> {
    if currency in ["IRT", "IRR", "JPY", "KRW"] then Some(0)
    else if currency in ["EUR", "GBP", "SGD", "AUD", "CAD", "USD"] then Some(2)
    else None
  }

  /** `ZERO_DECIMAL_CURRENCIES` of the wallet. */
  predicate ZeroDecimal(currency: string) {
    currency in ["IRR", "IRT", "JPY", "KRW"]
  }

  // -- decimal numbers ------------------------------------------------------

  /** coefficient * 10^exponent. */
  datatype Dec = Dec(coefficient: nat, exponent: int)

  function CountDigits(n: nat): nat {
    if n < 10 then 1 else 1 + CountDigits(n / 10)
  }

  /** n / 10^k to the nearest, ties to even; `inexact` says that a digit dropped before was not
      zero. */
  function HalfEven(n: nat, k: nat, inexact: bool): nat
    requires k > 0
  {
    if k > 1 then HalfEven(n / 10, k - 1, inexact || n % 10 != 0)
    else if n % 10 > 5 || (n % 10 == 5 && (inexact || n / 10 % 2 == 1)) then n / 10 + 1
    else n / 10
  }

  /** A result under a context of `precision` digits. */
  function Fit(d: Dec, precision: nat): Dec {
    if CountDigits(d.coefficient) <= precision then d
    else
      var k := CountDigits(d.coefficient) - precision;
      var q := HalfEven(d.coefficient, k, false);
      if CountDigits(q) > precision then Dec(q / 10, d.exponent + k + 1) else Dec(q, d.exponent + k)
  }

  /** The product with `Decimal(10) ** e`. */
  function TimesTenTo(d: Dec, e: nat, precision: nat): Dec {
    ShiftedIsNat(d.coefficient, e);
    Fit(Dec(Shifted(d.coefficient, e), d.exponent), precision)
  }

  lemma {:induction false} ShiftedIsNat(n: nat, e: nat)
    ensures Shifted(n, e) >= 0
  {
    if e > 0 { ShiftedIsNat(n, e - 1); }
  }

  /** c / 10^f, if that is a whole number. */
  function Unshifted(c: int, f: nat): Option<int>
    decreases f
  {
    if f == 0 then Some(c)
    else if c % 10 == 0 then Unshifted(c / 10, f - 1)
    else None
  }

  /** Its value, if it is a whole number. */
  function Integral(d: Dec): Option<int> {
    if d.exponent >= 0 then Some(Shifted(d.coefficient, d.exponent)) else Unshifted(d.coefficient, -d.exponent)
  }

  // -- typed text -----------------------------------------------------------

  /** Position of the first point, or -1. */
  function FindPoint(text: string): (p: int)
    ensures p == -1 || (0 <= p < |text| && text[p] == '.')
    ensures forall i :: 0 <= i < |text| && (p == -1 || i < p) ==> text[i] != '.'
  {
    if text == "" then -1
    else if text[0] == '.' then 0
    else
      var p := FindPoint(text[1..]);
      assert forall i :: 1 <= i < |text| ==> text[i] == text[1..][i - 1];
      if p == -1 then -1 else p + 1
  }

  /** Digits, and optionally a point and digits. */
  datatype Numeral = Numeral(whole: string, fraction: Option<string>)

  function Fraction(n: Numeral): string {
    if n.fraction.Some? then n.fraction.value else ""
  }

  predicate Number(s: string) {
    s != "" && Digits(s)
  }

  /** `re.fullmatch` of the administrator's pattern. */
  function Match(text: string): (n: Option<Numeral>)
    ensures n.Some? ==> Number(n.value.whole) && (n.value.fraction.Some? ==> Number(n.value.fraction.value))
    ensures n.Some? ==> text == n.value.whole + (if n.value.fraction.Some? then "." + n.value.fraction.value else "")
  {
    var p := FindPoint(text);
    if p == -1 then (if Number(text) then Some(Numeral(text, None)) else None)
    else
      var whole, fraction := text[..p], text[p + 1..];
      if Number(whole) && Number(fraction) then Some(Numeral(whole, Some(fraction))) else None
  }

  /** `Decimal(text)` of a matched text. */
  function DecOf(n: Numeral): Dec
    requires Number(n.whole) && (n.fraction.Some? ==> Number(n.fraction.value))
  {
    NumIsNat(n.whole + Fraction(n));
    Dec(Num(n.whole + Fraction(n)), -|Fraction(n)|)
  }

  /** The exact amount: minor units m with m * 10^(fraction digits) = digits * 10^e, if there
      are such. */
  predicate IsExactly(n: Numeral, e: nat, m: int) {
    Shifted(m, |Fraction(n)|) == Shifted(Num(n.whole + Fraction(n)), e)
  }

  function Max(a: int, b: int): int {
    if a < b then b else a
  }

  predicate InRange(m: int) {
    0 < m <= MAX_MINOR
  }

  datatype AmountError = Unaudited | Invalid

  /** The product under the precision computed from the text's length and the exponent, as an
      integer if it is one. */
  function Product(n: Numeral, length: nat, e: nat): Option<int>
    requires Number(n.whole) && (n.fraction.Some? ==> Number(n.fraction.value))
  {
    Integral(TimesTenTo(DecOf(n), e, Max(28, length + e + 1)))
  }

  function AcceptedMinor(product: Option<int>): Result<nat, AmountError> {
    if product.Some? && InRange(product.value) then Ok(product.value) else Err(Invalid)
  }

  /** The administrator's conversion of a text already stripped and with its digits made ASCII. */
  function AdminMinor(text: string, currency: string): Result<nat, AmountError> {
    var n := Match(text);
    if n.None? then Err(Invalid)
    else if Exponent(currency).None? then Err(Unaudited)
    else AcceptedMinor(Product(n.value, |text|, Exponent(currency).value))
  }

  function Split(text: string): (parts: seq<string>)
    ensures parts != []
    decreases |text|
  {
    var p := FindPoint(text);
    if p == -1 then [text] else [text[..p]] + Split(text[p + 1..])
  }

  /** `s.ljust(2, "0")` of at most two digits. */
  function PaddedTo2(s: string): string
    decreases 2 - |s|
  {
    if |s| >= 2 then s else PaddedTo2(s + "0")
  }

  /** The parts the wallet accepts before the range check. */
  predicate PartsAccepted(text: string, parts: seq<string>, zeroDecimal: bool) {
    && |text| <= 24
    && |parts| <= (if zeroDecimal then 1 else 2)
    && (forall i :: 0 <= i < |parts| ==> Number(parts[i]))
    && (|parts| == 2 ==> |parts[1]| <= 2)
  }

  function AmountOfParts(parts: seq<string>, zeroDecimal: bool): int
    requires parts != []
  {
    if zeroDecimal then Num(parts[0])
    else Num(parts[0]) * 100 + (if |parts| == 2 then Num(PaddedTo2(parts[1])) else 0)
  }

  function Ranged(amount: int): Option<nat> {
    if InRange(amount) then Some(amount) else None
  }

  function MinorOfParts(text: string, zeroDecimal: bool): Option<nat> {
    var parts := Split(text);
    if PartsAccepted(text, parts, zeroDecimal) then Ranged(AmountOfParts(parts, zeroDecimal)) else None
  }

  /** The wallet's conversion of a stripped text. */
  function WalletMinor(text: string, currency: string): Option<nat> {
    MinorOfParts(text, ZeroDecimal(currency))
  }

  // -- the precision is enough ----------------------------------------------

  lemma {:induction false} CountDigitsOfNum(s: string)
    requires Digits(s)
    ensures Num(s) >= 0 && CountDigits(Num(s)) <= Max(1, |s|)
  {
    if s != "" {
      var init := s[..|s| - 1];
      CountDigitsOfNum(init);
      assert IsDigit(s[|s| - 1]);
      if Num(s) >= 10 {
        assert Num(s) / 10 == Num(init);
        assert init != "";
      }
    }
  }

  lemma {:induction false} CountDigitsOfShifted(n: nat, e: nat)
    ensures Shifted(n, e) >= 0 && CountDigits(Shifted(n, e)) <= CountDigits(n) + e
  {
    if e > 0 {
      CountDigitsOfShifted(n, e - 1);
      if Shifted(n, e) >= 10 { assert Shifted(n, e) / 10 == Shifted(n, e - 1); }
    }
  }

  /** Under the precision the code computes from the text's length and the exponent, the product
      is never rounded. */
  lemma ProductIsExact(text: string, e: nat)
    requires Match(text).Some?
    ensures var n := Match(text).value;
            TimesTenTo(DecOf(n), e, Max(28, |text| + e + 1))
            == Dec(ShiftedNat(DecOf(n).coefficient, e), -|Fraction(n)|)
  {
    var n := Match(text).value;
    CountDigitsOfNum(n.whole + Fraction(n));
    CountDigitsOfShifted(DecOf(n).coefficient, e);
  }

  function ShiftedNat(n: nat, e: nat): nat {
    ShiftedIsNat(n, e);
    Shifted(n, e)
  }

  lemma {:induction false} UnshiftedIff(c: int, f: nat, m: int)
    ensures Unshifted(c, f) == Some(m) <==> Shifted(m, f) == c
    decreases f
  {
    if f > 0 { UnshiftedIff(c / 10, f - 1, m); }
  }

  /** The administrator's amount is exactly what was typed: accepted just when it is a whole
      number of minor units in range. */
  lemma AdminIsExactIff(text: string, currency: string, m: int)
    ensures (AdminMinor(text, currency).Ok? && AdminMinor(text, currency).value == m) <==>
            && Match(text).Some? && Exponent(currency).Some?
            && InRange(m) && IsExactly(Match(text).value, Exponent(currency).value, m)
  {
    if Match(text).Some? && Exponent(currency).Some? {
      ProductIff(text, Exponent(currency).value, m);
    }
  }

  lemma ProductIff(text: string, e: nat, m: int)
    requires Match(text).Some?
    ensures Product(Match(text).value, |text|, e) == Some(m) <==> IsExactly(Match(text).value, e, m)
  {
    var n := Match(text).value;
    ProductIsExact(text, e);
    UnshiftedIff(Shifted(Num(n.whole + Fraction(n)), e), |Fraction(n)|, m);
  }

  // -- the wallet's parser --------------------------------------------------

  lemma DigitsHaveNoPoint(s: string)
    requires Digits(s)
    ensures '.' !in s && FindPoint(s) == -1
  {
    if FindPoint(s) != -1 { assert IsDigit(s[FindPoint(s)]); }
  }

  /** Split at the points and matched by the pattern are the same reading. */
  lemma SplitIffMatch(text: string)
    ensures |Split(text)| == 1 && Number(Split(text)[0]) <==> Match(text) == Some(Numeral(text, None))
    ensures |Split(text)| == 1 ==> Split(text)[0] == text
    ensures |Split(text)| == 2 && Number(Split(text)[0]) && Number(Split(text)[1]) <==>
            Match(text).Some? && Match(text).value.fraction.Some?
    ensures |Split(text)| == 2 && Number(Split(text)[0]) && Number(Split(text)[1]) ==>
            Match(text) == Some(Numeral(Split(text)[0], Some(Split(text)[1])))
  {
    var p := FindPoint(text);
    if p != -1 {
      var rest := text[p + 1..];
      if FindPoint(rest) == -1 {
        assert Split(text) == [text[..p], rest];
      } else {
        assert |Split(rest)| >= 2;
        if Digits(rest) { DigitsHaveNoPoint(rest); }
      }
    }
  }

  lemma ShiftedByTwo(n: int)
    ensures Shifted(n, 1) == 10 * n && Shifted(n, 2) == 100 * n
  {
    assert Shifted(n, 1) == 10 * Shifted(n, 0);
  }

  lemma PaddedNumber(s: string)
    requires Number(s) && |s| <= 2
    ensures Shifted(Num(PaddedTo2(s)), |s|) == Shifted(Num(s), 2)
  {
    ShiftedByTwo(Num(s));
    ShiftedByTwo(10 * Num(s));
    if |s| == 1 {
      assert (s + "0")[..1] == s;
      assert PaddedTo2(s) == s + "0";
    }
  }

  function WalletExponent(zeroDecimal: bool): nat {
    if zeroDecimal then 0 else 2
  }

  /** The shapes the wallet lets through. */
  predicate WalletShape(text: string, zeroDecimal: bool) {
    && |text| <= 24 && Match(text).Some?
    && (Match(text).value.fraction.Some? ==> !zeroDecimal && |Match(text).value.fraction.value| <= 2)
  }

  /** What the wallet's integer arithmetic computes, before the range check. */
  function WalletAmount(n: Numeral, zeroDecimal: bool): int {
    if zeroDecimal then Num(n.whole)
    else Num(n.whole) * 100 + (if n.fraction.Some? then Num(PaddedTo2(n.fraction.value)) else 0)
  }

  lemma WalletAmountIsExact(text: string, zeroDecimal: bool)
    requires WalletShape(text, zeroDecimal)
    ensures IsExactly(Match(text).value, WalletExponent(zeroDecimal), WalletAmount(Match(text).value, zeroDecimal))
  {
    var n := Match(text).value;
    if zeroDecimal {
      assert n.whole + Fraction(n) == n.whole;
    } else {
      if n.fraction.Some? { PaddedNumber(Fraction(n)); }
      ShiftedByTwo(0);
      WholeAndFraction(n.whole, Fraction(n), if n.fraction.Some? then Num(PaddedTo2(Fraction(n))) else 0);
    }
  }

  lemma WholeAndFraction(whole: string, f: string, p: int)
    requires Shifted(p, |f|) == Shifted(Num(f), 2)
    ensures Shifted(Num(whole) * 100 + p, |f|) == Shifted(Num(whole + f), 2)
  {
    NumConcat(whole, f);
    Arranged(Num(whole), Num(f), p, |f|);
  }

  lemma Arranged(w: int, d: int, p: int, k: nat)
    requires Shifted(p, k) == Shifted(d, 2)
    ensures Shifted(w * 100 + p, k) == Shifted(Shifted(w, k) + d, 2)
  {
    ShiftedByTwo(w);
    ShiftedAdds(w * 100, p, k);
    ShiftedAdds(Shifted(w, k), d, 2);
    ShiftedTwice(w, 2, k);
    ShiftedTwice(w, k, 2);
  }

  lemma WalletReads(text: string, zeroDecimal: bool)
    ensures PartsAccepted(text, Split(text), zeroDecimal) <==> WalletShape(text, zeroDecimal)
    ensures WalletShape(text, zeroDecimal) ==>
              AmountOfParts(Split(text), zeroDecimal) == WalletAmount(Match(text).value, zeroDecimal)
  {
    SplitIffMatch(text);
    PartsRead(text, Split(text), Match(text), zeroDecimal);
  }

  lemma PartsRead(text: string, parts: seq<string>, n: Option<Numeral>, zeroDecimal: bool)
    requires parts != []
    requires |parts| == 1 && Number(parts[0]) <==> n == Some(Numeral(text, None))
    requires |parts| == 1 ==> parts[0] == text
    requires n.Some? && n.value.fraction.None? ==> n.value.whole == text
    requires |parts| == 2 && Number(parts[0]) && Number(parts[1]) <==> n.Some? && n.value.fraction.Some?
    requires |parts| == 2 && Number(parts[0]) && Number(parts[1]) ==> n == Some(Numeral(parts[0], Some(parts[1])))
    ensures PartsAccepted(text, parts, zeroDecimal) <==>
            |text| <= 24 && n.Some? && (n.value.fraction.Some? ==> !zeroDecimal && |n.value.fraction.value| <= 2)
    ensures PartsAccepted(text, parts, zeroDecimal) ==>
              AmountOfParts(parts, zeroDecimal) == WalletAmount(n.value, zeroDecimal)
  {
  }

  lemma {:induction false} ShiftedInjective(m: int, k: int, f: nat)
    requires Shifted(m, f) == Shifted(k, f)
    ensures m == k
  {
    if f > 0 { ShiftedInjective(m, k, f - 1); }
  }

  lemma MinorOfPartsIs(text: string, zeroDecimal: bool)
    ensures MinorOfParts(text, zeroDecimal) ==
            if WalletShape(text, zeroDecimal) then Ranged(WalletAmount(Match(text).value, zeroDecimal)) else None
  {
    WalletReads(text, zeroDecimal);
  }

  lemma ExactInRange(found: Option<nat>, amount: int, n: Numeral, e: nat, m: int)
    requires found == Ranged(amount) && IsExactly(n, e, amount)
    ensures (found.Some? && found.value == m) <==> InRange(m) && IsExactly(n, e, m)
  {
    if IsExactly(n, e, m) {
      ShiftedInjective(m, amount, |Fraction(n)|);
    }
  }

  /** The wallet's amount is exactly what was typed too, among the shapes it lets through. */
  lemma WalletIsExactIff(text: string, currency: string, m: int)
    ensures (WalletMinor(text, currency).Some? && WalletMinor(text, currency).value == m) <==>
            && WalletShape(text, ZeroDecimal(currency)) && InRange(m)
            && IsExactly(Match(text).value, WalletExponent(ZeroDecimal(currency)), m)
  {
    MinorOfPartsIsExact(text, ZeroDecimal(currency), m);
  }

  lemma MinorOfPartsIsExact(text: string, zero: bool, m: int)
    ensures (MinorOfParts(text, zero).Some? && MinorOfParts(text, zero).value == m) <==>
            && WalletShape(text, zero) && InRange(m)
            && IsExactly(Match(text).value, WalletExponent(zero), m)
  {
    MinorOfPartsIs(text, zero);
    if WalletShape(text, zero) {
      WalletAmountIsExact(text, zero);
      ExactInRange(MinorOfParts(text, zero), WalletAmount(Match(text).value, zero),
                   Match(text).value, WalletExponent(zero), m);
    }
  }

  lemma AuditedExponents(currency: string)
    ensures Exponent(currency).Some? ==> Exponent(currency).value == WalletExponent(ZeroDecimal(currency))
    ensures Exponent(currency).None? ==> !ZeroDecimal(currency)
  {
  }

  // -- said of the text and the currency alone ---------------------------------

  /** The text is these digits, or these digits, a point and these. */
  predicate Written(text: string, whole: string, fraction: Option<string>) {
    && Number(whole)
    && (fraction.None? ==> text == whole)
    && (fraction.Some? ==> Number(fraction.value) && text == whole + "." + fraction.value)
  }

  lemma MatchIff(text: string, whole: string, fraction: Option<string>)
    ensures Match(text) == Some(Numeral(whole, fraction)) <==> Written(text, whole, fraction)
  {
    if Written(text, whole, fraction) {
      var p := FindPoint(text);
      if fraction.None? {
        DigitsHaveNoPoint(text);
      } else {
        assert text[|whole|] == '.';
        assert forall i :: 0 <= i < |whole| ==> text[i] == whole[i] && IsDigit(whole[i]);
        assert p == |whole|;
        assert text[..p] == whole && text[p + 1..] == fraction.value;
      }
    }
  }

  /** Which currencies have minor units of how many decimals; no other is audited. */
  lemma CurrenciesAre(currency: string)
    ensures Exponent(currency) == Some(0) <==>
              currency == "IRT" || currency == "IRR" || currency == "JPY" || currency == "KRW"
    ensures Exponent(currency) == Some(2) <==>
              currency == "EUR" || currency == "GBP" || currency == "SGD" || currency == "AUD" || currency == "CAD" ||
              currency == "USD"
    ensures Exponent(currency) in {None, Some(0), Some(2)} && (ZeroDecimal(currency) <==> Exponent(currency) == Some(0))
  {
  }

  /** m units of 10^-e are the number these digits write. */
  predicate Writes(whole: string, fraction: Option<string>, e: nat, m: int) {
    if fraction.None? then m == Shifted(Num(whole), e)
    else Shifted(m, |fraction.value|) == Shifted(Num(whole + fraction.value), e)
  }

  lemma AmountsIff(whole: string, fraction: Option<string>, e: nat, m: int)
    ensures IsExactly(Numeral(whole, fraction), e, m) <==> Writes(whole, fraction, e, m)
  {
    assert whole + "" == whole;
  }

  ghost predicate IsWritten(text: string) {
    exists whole, fraction :: Written(text, whole, fraction)
  }

  /** The text writes a number that is m units of 10^-e. */
  ghost predicate WrittenAs(text: string, e: nat, m: int) {
    exists whole, fraction :: Written(text, whole, fraction) && Writes(whole, fraction, e, m)
  }

  lemma MatchedIff(text: string, e: nat, m: int)
    ensures Match(text).Some? <==> IsWritten(text)
    ensures Match(text).Some? && IsExactly(Match(text).value, e, m) <==> WrittenAs(text, e, m)
  {
    if Match(text).Some? {
      var n := Match(text).value;
      MatchIff(text, n.whole, n.fraction);
      AmountsIff(n.whole, n.fraction, e, m);
    }
    if whole, fraction :| Written(text, whole, fraction) {
      MatchIff(text, whole, fraction);
    }
    if whole, fraction :| Written(text, whole, fraction) && Writes(whole, fraction, e, m) {
      MatchIff(text, whole, fraction);
      AmountsIff(whole, fraction, e, m);
    }
  }

  /** What the administrator's screen reads: a number written in digits, of an audited currency,
      that is a whole number of minor units from 1 to 2^63-1. */
  lemma AdminReadsIff(text: string, currency: string, m: int)
    ensures AdminMinor(text, currency) == Err(Unaudited) <==> Exponent(currency).None? && IsWritten(text)
    ensures (AdminMinor(text, currency).Ok? && AdminMinor(text, currency).value == m) <==>
              && Exponent(currency).Some? && 1 <= m <= 0x7FFF_FFFF_FFFF_FFFF
              && WrittenAs(text, Exponent(currency).value, m)
  {
    AdminIsExactIff(text, currency, m);
    MatchedIff(text, if Exponent(currency).Some? then Exponent(currency).value else 0, m);
  }

  /** At most two decimals, none where the currency has none, and m are its minor units. */
  predicate WalletWrites(text: string, whole: string, fraction: Option<string>, zeroDecimal: bool, m: int) {
    && Written(text, whole, fraction)
    && (fraction.Some? ==> !zeroDecimal && |fraction.value| <= 2)
    && Writes(whole, fraction, if zeroDecimal then 0 else 2, m)
  }

  ghost predicate WalletWritten(text: string, zeroDecimal: bool, m: int) {
    exists whole, fraction :: WalletWrites(text, whole, fraction, zeroDecimal, m)
  }

  lemma WalletShapeIff(text: string, zeroDecimal: bool, m: int)
    ensures WalletShape(text, zeroDecimal) && IsExactly(Match(text).value, WalletExponent(zeroDecimal), m) <==>
              |text| <= 24 && WalletWritten(text, zeroDecimal, m)
  {
    if Match(text).Some? {
      var n := Match(text).value;
      MatchIff(text, n.whole, n.fraction);
      AmountsIff(n.whole, n.fraction, WalletExponent(zeroDecimal), m);
      assert WalletShape(text, zeroDecimal) && IsExactly(n, WalletExponent(zeroDecimal), m) ==>
        WalletWrites(text, n.whole, n.fraction, zeroDecimal, m);
    }
    if whole, fraction :| WalletWrites(text, whole, fraction, zeroDecimal, m) {
      MatchIff(text, whole, fraction);
      AmountsIff(whole, fraction, WalletExponent(zeroDecimal), m);
    }
  }

  /** What the wallet reads: at most 24 characters and two decimals, none where the currency has
      none; any other currency is taken to have two. */
  lemma WalletReadsIff(text: string, currency: string, m: int)
    ensures (WalletMinor(text, currency).Some? && WalletMinor(text, currency).value == m) <==>
              && |text| <= 24 && 1 <= m <= 0x7FFF_FFFF_FFFF_FFFF
              && WalletWritten(text, Exponent(currency) == Some(0), m)
  {
    CurrenciesAre(currency);
    WalletIsExactIff(text, currency, m);
    WalletShapeIff(text, ZeroDecimal(currency), m);
  }

  // -- the two together -----------------------------------------------------

  /** For an audited currency the wallet accepts a text exactly when the administrator's parser
      does, with the same amount, and the text has a shape the wallet lets through. */
  lemma ParsersAgreeIff(text: string, currency: string, m: int)
    ensures Exponent(currency).Some? ==>
              ((WalletMinor(text, currency).Some? && WalletMinor(text, currency).value == m) <==>
               && AdminMinor(text, currency).Ok? && AdminMinor(text, currency).value == m
               && WalletShape(text, ZeroDecimal(currency)))
  {
    AuditedExponents(currency);
    AdminIsExactIff(text, currency, m);
    WalletIsExactIff(text, currency, m);
  }

  /** For any other currency the administrator's parser accepts nothing, while the wallet goes on
      with two decimals. */
  lemma UnauditedDiffers(currency: string)
    ensures Exponent(currency).None? ==> forall text: string :: AdminMinor(text, currency).Err?
    ensures Exponent(currency).None? ==> WalletMinor("1", currency) == Some(100)
  {
    AuditedExponents(currency);
    assert Match("1") == Some(Numeral("1", None));
    assert "1"[..0] == "" && Num("1") == 1;
    WalletReads("1", false);
  }

  // -- as typed -------------------------------------------------------------

  /** The administrator's digits are translated; the wallet's are not. */
  function AsciiDigit(c: char): char {
    var code := c as int;
    if 0x6F0 <= code <= 0x6F9 then DigitOf(code - 0x6F0)
    else if 0x660 <= code <= 0x669 then DigitOf(code - 0x660)
    else c
  }

  function Translated(text: string): string {
    seq(|text|, i requires 0 <= i < |text| => AsciiDigit(text[i]))
  }

  const PERSIAN := "\U{06F0}\U{06F1}\U{06F2}\U{06F3}\U{06F4}\U{06F5}\U{06F6}\U{06F7}\U{06F8}\U{06F9}"
  const ARABIC := "\U{0660}\U{0661}\U{0662}\U{0663}\U{0664}\U{0665}\U{0666}\U{0667}\U{0668}\U{0669}"

  /** Each digit of the two other scripts becomes the ASCII digit of its value, and nothing else
      changes. */
  lemma DigitsAreTranslated(text: string, i: nat)
    requires i < |text|
    ensures |Translated(text)| == |text|
    ensures forall v :: 0 <= v < 10 && (text[i] == PERSIAN[v] || text[i] == ARABIC[v]) ==>
              Translated(text)[i] == "0123456789"[v]
    ensures text[i] !in PERSIAN && text[i] !in ARABIC ==> Translated(text)[i] == text[i]
  {
    forall v | 0 <= v < 10
      ensures PERSIAN[v] as int == 0x6F0 + v && ARABIC[v] as int == 0x660 + v && "0123456789"[v] == DigitOf(v)
    {
    }
    var code := text[i] as int;
    if 0x6F0 <= code <= 0x6F9 { assert text[i] == PERSIAN[code - 0x6F0]; }
    if 0x660 <= code <= 0x669 { assert text[i] == ARABIC[code - 0x660]; }
  }

  /** So a number written in any of the three scripts is read by its digits' values. */
  lemma {:induction false} NumberOfAnyScript(text: string, values: seq<int>)
    requires |text| == |values|
    requires forall i :: 0 <= i < |text| ==>
               0 <= values[i] < 10 &&
               (text[i] == PERSIAN[values[i]] || text[i] == ARABIC[values[i]] || text[i] == "0123456789"[values[i]])
    ensures Num(Translated(text)) == Positional(values)
  {
    if text != "" {
      var n := |text| - 1;
      NumberOfAnyScript(text[..n], values[..n]);
      assert Translated(text)[..n] == Translated(text[..n]);
      DigitsAreTranslated(text, n);
      assert "0123456789"[values[n]] as int == '0' as int + values[n] by { DigitCharacter(values[n]); }
      assert Translated(text)[n] == "0123456789"[values[n]] by { AsciiIsNotTranslated(values[n]); }
    }
  }

  lemma DigitCharacter(v: int)
    requires 0 <= v < 10
    ensures "0123456789"[v] as int == '0' as int + v
  {
  }

  lemma AsciiIsNotTranslated(v: int)
    requires 0 <= v < 10
    ensures AsciiDigit("0123456789"[v]) == "0123456789"[v]
  {
    DigitCharacter(v);
  }

  /** The number with these decimal digits. */
  function Positional(values: seq<int>): int {
    if values == [] then 0 else Positional(values[..|values| - 1]) * 10 + values[|values| - 1]
  }

  lemma MatchedIsAscii(text: string)
    requires Match(text).Some?
    ensures Translated(text) == text
  {
    var n := Match(text).value;
    var tail := if n.fraction.Some? then "." + n.fraction.value else "";
    forall i | 0 <= i < |text| ensures AsciiDigit(text[i]) == text[i] {
      assert IsDigit(text[i]) || text[i] == '.' by {
        if i >= |n.whole| { assert text[i] == tail[i - |n.whole|]; }
      }
    }
  }

  /** Whatever is typed, stripped and read by the wallet, the administrator's screen reads as the
      same amount. */
  lemma WalletTextMeansTheSameToAdmin(typed: string, currency: string, m: nat)
    ensures Exponent(currency).Some? && WalletMinor(Strip(typed, Space), currency) == Some(m) ==>
              AdminMinor(Translated(Strip(typed, Space)), currency) == Ok(m)
  {
    var text := Strip(typed, Space);
    ParsersAgreeIff(text, currency, m);
    if Match(text).Some? { MatchedIsAscii(text); }
  }
}
