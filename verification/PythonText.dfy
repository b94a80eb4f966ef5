/** The string operations the modules share. */
module PythonText {

  // -- decimal digits -------------------------------------------------------

  predicate IsDigit(c: char) {
    '0' <= c <= '9'
  }

  predicate Digits(s: string) {
    forall i :: 0 <= i < |s| ==> IsDigit(s[i])
  }

  function DigitOf(n: int): char
    requires 0 <= n < 10
  {
    (n + '0' as int) as char
  }

  /** `int(s)` of decimal digits. */
  function Num(s: string): int {
    if s == "" then 0 else 10 * Num(s[..|s| - 1]) + (s[|s| - 1] as int - '0' as int)
  }

  /** `str(n)`. */
  function Decimal(n: nat): (text: string)
    ensures text != "" && Digits(text) && Num(text) == n
  {
    if n < 10 then [DigitOf(n)]
    else
      var text := Decimal(n / 10) + [DigitOf(n % 10)];
      assert text[..|text| - 1] == Decimal(n / 10);
      text
  }

  function Pow10(w: nat): (power: nat)
    ensures power > 0
  {
    if w == 0 then 1 else 10 * Pow10(w - 1)
  }

  /** n * 10^e. */
  function Shifted(n: int, e: nat): int {
    if e == 0 then n else 10 * Shifted(n, e - 1)
  }

  lemma {:induction false} ShiftedAdds(a: int, b: int, e: nat)
    ensures Shifted(a + b, e) == Shifted(a, e) + Shifted(b, e)
  {
    if e > 0 { ShiftedAdds(a, b, e - 1); }
  }

  lemma {:induction false} ShiftedTwice(n: int, e: nat, f: nat)
    ensures Shifted(Shifted(n, e), f) == Shifted(n, e + f)
  {
    if f > 0 { ShiftedTwice(n, e, f - 1); }
  }

  /** Appending digits shifts the number by their count. */
  lemma {:induction false} NumConcat(a: string, b: string)
    ensures Num(a + b) == Shifted(Num(a), |b|) + Num(b)
  {
    if b == "" {
      assert a + b == a;
    } else {
      var init := b[..|b| - 1];
      assert (a + b)[..|a + b| - 1] == a + init;
      NumConcat(a, init);
    }
  }

  lemma {:induction false} NumIsNat(s: string)
    requires Digits(s)
    ensures Num(s) >= 0
  {
    if s != "" {
      NumIsNat(s[..|s| - 1]);
      assert IsDigit(s[|s| - 1]);
    }
  }

  // -- strip ----------------------------------------------------------------

  function StripLeft(text: string, drop: char -> bool): string {
    if text != "" && drop(text[0]) then StripLeft(text[1..], drop) else text
  }

  function StripRight(text: string, drop: char -> bool): string {
    if text != "" && drop(text[|text| - 1]) then StripRight(text[..|text| - 1], drop) else text
  }

  function Strip(text: string, drop: char -> bool): string {
    StripRight(StripLeft(text, drop), drop)
  }

  /** What `strip()` without an argument takes away. */
  predicate Space(c: char) {
    var code := c as int;
    || 9 <= code <= 13 || 28 <= code <= 32 || code == 0x85 || code == 0xA0 || code == 0x1680
    || 0x2000 <= code <= 0x200A || code in {0x2028, 0x2029, 0x202F, 0x205F, 0x3000}
  }

  /** Code by code, as the standard library has it: the ASCII separators, and the spaces of the
      Unicode standard. */
  lemma SpacesAre(c: char)
    ensures Space(c) <==> c as int in {
              0x09, 0x0A, 0x0B, 0x0C, 0x0D, 0x1C, 0x1D, 0x1E, 0x1F, 0x20, 0x85, 0xA0, 0x1680,
              0x2000, 0x2001, 0x2002, 0x2003, 0x2004, 0x2005, 0x2006, 0x2007, 0x2008, 0x2009, 0x200A,
              0x2028, 0x2029, 0x202F, 0x205F, 0x3000}
  {
  }

  /** What is left is a middle part of the text: only such characters are gone, and none is left
      at either end. */
  lemma StripIs(text: string, drop: char -> bool) returns (n: nat, m: nat)
    ensures n <= m <= |text| && Strip(text, drop) == text[n..m]
    ensures forall i :: 0 <= i < n || m <= i < |text| ==> drop(text[i])
    ensures n < m ==> !drop(text[n]) && !drop(text[m - 1])
  {
    n := StripLeftIsSuffix(text, drop);
    StripLeftEnds(text, drop);
    var left := StripLeft(text, drop);
    var k := StripRightTo(left, drop);
    m := n + k;
    assert left[..k] == text[n..m];
    forall i | m <= i < |text| ensures drop(text[i]) {
      assert text[i] == left[i - n];
    }
  }

  lemma {:induction false} StripLeftEnds(text: string, drop: char -> bool)
    ensures StripLeft(text, drop) != "" ==> !drop(StripLeft(text, drop)[0])
  {
    if text != "" && drop(text[0]) { StripLeftEnds(text[1..], drop); }
  }

  lemma {:induction false} StripRightTo(text: string, drop: char -> bool) returns (k: nat)
    ensures k <= |text| && StripRight(text, drop) == text[..k]
    ensures forall i :: k <= i < |text| ==> drop(text[i])
    ensures k > 0 ==> !drop(text[k - 1])
  {
    if text != "" && drop(text[|text| - 1]) {
      k := StripRightTo(text[..|text| - 1], drop);
      assert text[..|text| - 1][..k] == text[..k];
    } else {
      k := |text|;
    }
  }

  lemma {:induction false} StripLeftIsSuffix(text: string, drop: char -> bool) returns (n: nat)
    ensures n <= |text| && StripLeft(text, drop) == text[n..]
    ensures forall i :: 0 <= i < n ==> drop(text[i])
  {
    if text != "" && drop(text[0]) {
      var k := StripLeftIsSuffix(text[1..], drop);
      n := k + 1;
      forall i | 0 <= i < n ensures drop(text[i]) {
        assert i > 0 ==> text[i] == text[1..][i - 1];
      }
    } else {
      n := 0;
    }
  }

  lemma {:induction false} StripRightIsPrefix(text: string, drop: char -> bool)
    ensures StripRight(text, drop) <= text
  {
    if text != "" && drop(text[|text| - 1]) {
      StripRightIsPrefix(text[..|text| - 1], drop);
    }
  }
}
