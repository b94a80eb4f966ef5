/** Backup file names: the embedded timestamp, written and read back, and name order. */
module BackupNames {
  import opened Prelude
  import opened Calendar
  import opened PythonText

  const PREFIX := "cloud-backup-"
  const SUFFIX := ".dump.enc"

  /** The last `w` decimal digits. */
  function Pad(n: int, w: nat): (s: string)
    ensures |s| == w && Digits(s)
    decreases w
  {
    if w == 0 then "" else Pad(n / 10, w - 1) + [DigitOf(n % 10)]
  }

  lemma {:induction false} NumOfPad(n: int, w: nat)
    requires 0 <= n < Pow10(w)
    ensures Num(Pad(n, w)) == n
    decreases w
  {
    if w > 0 {
      NumOfPad(n / 10, w - 1);
      assert Pad(n, w)[..w - 1] == Pad(n / 10, w - 1);
    }
  }

  lemma {:induction false} PadOfNum(s: string)
    requires Digits(s)
    ensures 0 <= Num(s) < Pow10(|s|) && Pad(Num(s), |s|) == s
  {
    if s != "" {
      var init, d := s[..|s| - 1], s[|s| - 1] as int - '0' as int;
      PadOfNum(init);
      assert IsDigit(s[|s| - 1]);
      assert Num(s) / 10 == Num(init) && Num(s) % 10 == d;
      assert s == init + [s[|s| - 1]];
    }
  }

  // -- order of names -------------------------------------------------------

  predicate LexLess(s: string, t: string) {
    t != "" && (s == "" || s[0] < t[0] || (s[0] == t[0] && LexLess(s[1..], t[1..])))
  }

  lemma {:induction false} LexConcat(a: string, b: string, c: string, d: string)
    requires |a| == |c|
    ensures LexLess(a + b, c + d) <==> LexLess(a, c) || (a == c && LexLess(b, d))
  {
    if a == "" {
      assert a + b == b && c + d == d;
    } else {
      assert (a + b)[1..] == a[1..] + b && (c + d)[1..] == c[1..] + d;
      LexConcat(a[1..], b, c[1..], d);
      assert a == [a[0]] + a[1..] && c == [c[0]] + c[1..];
    }
  }

  lemma {:induction false} LexIrreflexive(s: string)
    ensures !LexLess(s, s)
  {
    if s != "" {
      LexIrreflexive(s[1..]);
    }
  }

  lemma {:induction false} LexTotal(s: string, t: string)
    ensures LexLess(s, t) || LexLess(t, s) || s == t
  {
    if s != "" && t != "" && s[0] == t[0] {
      LexTotal(s[1..], t[1..]);
      assert s == [s[0]] + s[1..] && t == [t[0]] + t[1..];
    }
  }

  lemma {:induction false} LexTransitive(s: string, t: string, u: string)
    requires LexLess(s, t) && LexLess(t, u)
    ensures LexLess(s, u)
  {
    if s != "" && s[0] == t[0] == u[0] {
      LexTransitive(s[1..], t[1..], u[1..]);
    }
  }

  lemma {:induction false} PadOrder(m: int, n: int, w: nat)
    requires 0 <= m < Pow10(w) && 0 <= n < Pow10(w)
    ensures LexLess(Pad(m, w), Pad(n, w)) <==> m < n
    ensures Pad(m, w) == Pad(n, w) <==> m == n
    decreases w
  {
    NumOfPad(m, w);
    NumOfPad(n, w);
    if w > 0 {
      PadOrder(m / 10, n / 10, w - 1);
      LexConcat(Pad(m / 10, w - 1), [DigitOf(m % 10)], Pad(n / 10, w - 1), [DigitOf(n % 10)]);
    }
  }

  // -- the timestamp --------------------------------------------------------

  /** What the name keeps of an instant. */
  function Floor(c: Civil): Civil {
    c.(micro := 0)
  }

  function DateText(c: Civil): string {
    Pad(c.year, 4) + (Pad(c.month, 2) + Pad(c.day, 2))
  }

  function TimeText(c: Civil): string {
    Pad(c.hour, 2) + (Pad(c.minute, 2) + Pad(c.second, 2))
  }

  /** `strftime("%Y%m%d-%H%M%S")`. */
  function Stamp(c: Civil): string {
    DateText(c) + ("-" + TimeText(c))
  }

  /** `strptime` on eight digits, a dash and six digits; None where it raises. */
  function ParseStamp(s: string): Option<Civil> {
    if |s| != 15 || !Digits(s[..8]) || s[8] != '-' || !Digits(s[9..]) then None
    else
      var c := Civil(Num(s[..4]), Num(s[4..6]), Num(s[6..8]), Num(s[9..11]), Num(s[11..13]), Num(s[13..15]), 0);
      if Valid(c) then Some(c) else None
  }

  lemma StampParts(c: Civil)
    ensures var s := Stamp(c);
            && |s| == 15 && s[..4] == Pad(c.year, 4) && s[4..6] == Pad(c.month, 2) && s[6..8] == Pad(c.day, 2)
            && s[8] == '-' && s[9..11] == Pad(c.hour, 2) && s[11..13] == Pad(c.minute, 2) &&
              s[13..15] == Pad(c.second, 2)
            && s[..8] == DateText(c) && s[9..] == TimeText(c)
  {
  }

  /** The instant in the name is the instant it was written, to the second. */
  lemma StampRoundTrip(c: Civil)
    requires Valid(c)
    ensures ParseStamp(Stamp(c)) == Some(Floor(c))
  {
    StampParts(c);
    assert Pow10(2) == 100 && Pow10(4) == 10000;
    NumOfPad(c.year, 4);
    NumOfPad(c.month, 2);
    NumOfPad(c.day, 2);
    NumOfPad(c.hour, 2);
    NumOfPad(c.minute, 2);
    NumOfPad(c.second, 2);
    assert Digits(DateText(c)) && Digits(TimeText(c));
  }

  /** And only that text reads as that instant. */
  lemma ParsedStampIsStamp(s: string)
    requires ParseStamp(s).Some?
    ensures Stamp(ParseStamp(s).value) == s && Valid(ParseStamp(s).value) && ParseStamp(s).value.micro == 0
  {
    var c := ParseStamp(s).value;
    DigitsSlices(s);
    PadOfNum(s[..4]);
    PadOfNum(s[4..6]);
    PadOfNum(s[6..8]);
    PadOfNum(s[9..11]);
    PadOfNum(s[11..13]);
    PadOfNum(s[13..15]);
    assert s == s[..4] + (s[4..6] + s[6..8]) + ("-" + (s[9..11] + (s[11..13] + s[13..15])));
  }

  lemma DigitsSlices(s: string)
    requires |s| == 15 && Digits(s[..8]) && Digits(s[9..])
    ensures Digits(s[..4]) && Digits(s[4..6]) && Digits(s[6..8])
    ensures Digits(s[9..11]) && Digits(s[11..13]) && Digits(s[13..15])
  {
    assert forall i :: 0 <= i < 8 ==> s[..8][i] == s[i];
    assert forall i :: 9 <= i < 15 ==> s[9..][i - 9] == s[i];
  }

  /** Timestamps sort as text the way they sort in time. */
  lemma StampOrder(a: Civil, b: Civil)
    requires Valid(a) && Valid(b)
    ensures LexLess(Stamp(a), Stamp(b)) <==> Less(Floor(a), Floor(b))
  {
    assert Pow10(2) == 100 && Pow10(4) == 10000;
    PadOrder(a.year, b.year, 4);
    PadOrder(a.month, b.month, 2);
    PadOrder(a.day, b.day, 2);
    PadOrder(a.hour, b.hour, 2);
    PadOrder(a.minute, b.minute, 2);
    PadOrder(a.second, b.second, 2);
    LexConcat(DateText(a), "-" + TimeText(a), DateText(b), "-" + TimeText(b));
    LexConcat("-", TimeText(a), "-", TimeText(b));
    LexIrreflexive("-");
    LexConcat(Pad(a.year, 4), Pad(a.month, 2) + Pad(a.day, 2), Pad(b.year, 4), Pad(b.month, 2) + Pad(b.day, 2));
    LexConcat(Pad(a.month, 2), Pad(a.day, 2), Pad(b.month, 2), Pad(b.day, 2));
    LexConcat(Pad(a.hour, 2), Pad(a.minute, 2) + Pad(a.second, 2), Pad(b.hour, 2), Pad(b.minute, 2) + Pad(b.second, 2));
    LexConcat(Pad(a.minute, 2), Pad(a.second, 2), Pad(b.minute, 2), Pad(b.second, 2));
    DateEqual(a, b);
  }

  lemma DateEqual(a: Civil, b: Civil)
    requires Valid(a) && Valid(b)
    ensures DateText(a) == DateText(b) <==> a.year == b.year && a.month == b.month && a.day == b.day
  {
    assert Pow10(2) == 100 && Pow10(4) == 10000;
    PadOrder(a.year, b.year, 4);
    PadOrder(a.month, b.month, 2);
    PadOrder(a.day, b.day, 2);
    assert DateText(a)[..4] == Pad(a.year, 4) && DateText(a)[4..6] == Pad(a.month, 2) &&
           DateText(a)[6..8] == Pad(a.day, 2);
    assert DateText(b)[..4] == Pad(b.year, 4) && DateText(b)[4..6] == Pad(b.month, 2) &&
           DateText(b)[6..8] == Pad(b.day, 2);
  }

  // -- the file name --------------------------------------------------------

  function FileName(c: Civil): string {
    PREFIX + Stamp(c) + SUFFIX
  }

  /** A name, character by character. */
  lemma NameSpelledOut(c: Civil)
    requires Valid(c)
    ensures var name := FileName(c);
            && |name| == 37 && name[..13] == "cloud-backup-" && name[21] == '-' && name[28..] == ".dump.enc"
            && Digits(name[13..21]) && Digits(name[22..28])
            && Num(name[13..17]) == c.year && Num(name[17..19]) == c.month && Num(name[19..21]) == c.day
            && Num(name[22..24]) == c.hour && Num(name[24..26]) == c.minute && Num(name[26..28]) == c.second
  {
    var name, s := FileName(c), Stamp(c);
    StampParts(c);
    assert Pow10(2) == 100 && Pow10(4) == 10000;
    NumOfPad(c.year, 4);
    NumOfPad(c.month, 2);
    NumOfPad(c.day, 2);
    NumOfPad(c.hour, 2);
    NumOfPad(c.minute, 2);
    NumOfPad(c.second, 2);
    assert name[13..28] == s;
    assert name[13..17] == s[..4] && name[17..19] == s[4..6] && name[19..21] == s[6..8];
    assert name[22..24] == s[9..11] && name[24..26] == s[11..13] && name[26..28] == s[13..15];
    assert name[13..21] == s[..8] && name[22..28] == s[9..15] && s[9..15] == s[9..];
  }

  /** The name pattern. Its end anchor also matches before one trailing newline. */
  function MatchName(name: string): Option<string> {
    var body := if name != "" && name[|name| - 1] == '\n' then name[..|name| - 1] else name;
    var n := |PREFIX|;
    if |body| == n + 15 + |SUFFIX| && body[..n] == PREFIX && body[n + 15..] == SUFFIX &&
       Digits(body[n..n + 8]) && body[n + 8] == '-' && Digits(body[n + 9..n + 15])
    then Some(body[n..n + 15])
    else None
  }

  /** `parse_backup_filename`; None where it raises. */
  function ParseName(name: string): Option<Civil> {
    var stamp := MatchName(name);
    if stamp.None? then None else ParseStamp(stamp.value)
  }

  predicate Canonical(name: string) {
    name == "" || name[|name| - 1] != '\n'
  }

  lemma NameRoundTrip(c: Civil)
    requires Valid(c)
    ensures ParseName(FileName(c)) == Some(Floor(c)) && Canonical(FileName(c))
  {
    var name, n := FileName(c), |PREFIX|;
    StampRoundTrip(c);
    StampParts(c);
    assert name[|name| - 1] == SUFFIX[|SUFFIX| - 1];
    assert name[..n] == PREFIX && name[n..n + 15] == Stamp(c) && name[n + 15..] == SUFFIX;
    assert name[n..n + 8] == Stamp(c)[..8] && name[n + 9..n + 15] == Stamp(c)[9..] && name[n + 8] == Stamp(c)[8];
  }

  function Body(name: string): string {
    if Canonical(name) then name else name[..|name| - 1]
  }

  lemma MatchParts(name: string)
    requires MatchName(name).Some?
    ensures Body(name) == PREFIX + MatchName(name).value + SUFFIX
  {
    var body, n := Body(name), |PREFIX|;
    assert body == body[..n] + body[n..n + 15] + body[n + 15..];
  }

  /** A name that reads as an instant is the name written at that instant, or that name with a
      newline behind it. */
  lemma ParsedNameIsFileName(name: string)
    requires ParseName(name).Some?
    ensures name == FileName(ParseName(name).value) + (if Canonical(name) then "" else "\n")
    ensures Valid(ParseName(name).value) && ParseName(name).value.micro == 0
  {
    MatchParts(name);
    ParsedStampIsStamp(MatchName(name).value);
    Reassemble(name, MatchName(name).value, Stamp(ParseName(name).value));
  }

  lemma Reassemble(name: string, stamp: string, text: string)
    requires Body(name) == PREFIX + stamp + SUFFIX && text == stamp
    ensures name == PREFIX + text + SUFFIX + (if Canonical(name) then "" else "\n")
  {
    if !Canonical(name) {
      assert name == Body(name) + [name[|name| - 1]];
    }
  }

  /** Name order is time order. */
  lemma NameOrder(a: Civil, b: Civil)
    requires Valid(a) && Valid(b)
    ensures LexLess(FileName(a), FileName(b)) <==> Micros(Floor(a)) < Micros(Floor(b))
  {
    StampOrder(a, b);
    LessIffMicros(Floor(a), Floor(b));
    FrameKeepsOrder(PREFIX, Stamp(a), Stamp(b), SUFFIX);
  }

  lemma FrameKeepsOrder(before: string, s: string, t: string, after: string)
    requires |s| == |t|
    ensures LexLess(before + s + after, before + t + after) <==> LexLess(s, t)
  {
    assert before + s + after == before + (s + after) && before + t + after == before + (t + after);
    LexConcat(before, s + after, before, t + after);
    LexConcat(s, after, t, after);
    LexIrreflexive(before);
    LexIrreflexive(after);
  }
}
