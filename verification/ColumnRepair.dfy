/** Repair of a column that an earlier, partly applied build left in another shape. */
module ColumnRepair {
  import opened Prelude
  import opened PythonText

  // -- defaults as text -----------------------------------------------------

  predicate Quote(c: char) {
    c == '\''
  }

  /** Position of the first quote at or after `from`, or -1. */
  function FindQuote(text: string, from: nat): (p: int)
    ensures p == -1 || (from <= p < |text| && text[p] == '\'')
    ensures forall i :: from <= i < |text| && (p == -1 || i < p) ==> text[i] != '\''
    decreases |text| - from
  {
    if from >= |text| then -1
    else if text[from] == '\'' then from
    else FindQuote(text, from + 1)
  }

  /** `_normalize_default`. */
  function Normalize(default: Option<string>): string {
    var text := Strip(if default.Some? then default.value else "", Space);
    var closing := if text != "" && text[0] == '\'' then FindQuote(text, 1) else -1;
    var remainder := if closing > 0 then Strip(text[closing + 1..], Space) else "";
    if closing > 0 && (remainder == "" || "::" <= remainder) then Strip(text[1..closing], Space)
    else Strip(Strip(text, Quote), Space)
  }

  /** What a default reads as: nothing for none; what stands between the first two quotes, if
      that is all or a cast follows; else the text without its outer quotes and spaces. */
  lemma NormalizeIs(text: string, body: string, rest: string)
    ensures Normalize(None) == "" && Normalize(Some("")) == ""
    ensures (Strip(text, Space) == "'" + body + "'" + rest && '\'' !in body &&
             (Strip(rest, Space) == "" || "::" <= Strip(rest, Space))) ==>
              Normalize(Some(text)) == Strip(body, Space)
    ensures Strip(text, Space) == "" || Strip(text, Space)[0] != '\'' ==>
              Normalize(Some(text)) == Strip(Strip(Strip(text, Space), Quote), Space)
  {
    var t := "'" + body + "'" + rest;
    if '\'' !in body {
      assert forall i :: 1 <= i < 1 + |body| ==> t[i] == body[i - 1];
      assert t[1 + |body|] == '\'';
      assert FindQuote(t, 1) == 1 + |body|;
      assert t[1..1 + |body|] == body && t[1 + |body| + 1..] == rest;
    }
  }

  function Doubled(d: string): string {
    if d == "" then ""
    else (if d[0] == '\'' then "''" else [d[0]]) + Doubled(d[1..])
  }

  /** How the database reports a default it was given as a literal. */
  function Echo(d: string, typeName: string): string {
    "'" + Doubled(d) + "'::" + typeName
  }

  // -- how many characters no strip takes away ------------------------------

  function Solid(text: string): nat {
    if text == "" then 0
    else (if Quote(text[0]) || Space(text[0]) then 0 else 1) + Solid(text[1..])
  }

  lemma {:induction false} SolidConcat(a: string, b: string)
    ensures Solid(a + b) == Solid(a) + Solid(b)
  {
    if a == "" {
      assert a + b == b;
    } else {
      assert (a + b)[1..] == a[1..] + b;
      SolidConcat(a[1..], b);
    }
  }

  lemma {:induction false} SolidOfStripLeft(text: string, drop: char -> bool)
    requires forall c :: drop(c) ==> Quote(c) || Space(c)
    ensures Solid(StripLeft(text, drop)) == Solid(text)
  {
    if text != "" && drop(text[0]) {
      SolidOfStripLeft(text[1..], drop);
    }
  }

  lemma {:induction false} SolidOfStripRight(text: string, drop: char -> bool)
    requires forall c :: drop(c) ==> Quote(c) || Space(c)
    ensures Solid(StripRight(text, drop)) == Solid(text)
  {
    if text != "" && drop(text[|text| - 1]) {
      var init := text[..|text| - 1];
      SolidOfStripRight(init, drop);
      SolidConcat(init, [text[|text| - 1]]);
      assert text == init + [text[|text| - 1]];
    }
  }

  lemma SolidOfStrip(text: string, drop: char -> bool)
    requires forall c :: drop(c) ==> Quote(c) || Space(c)
    ensures Solid(Strip(text, drop)) == Solid(text)
  {
    SolidOfStripLeft(text, drop);
    SolidOfStripRight(StripLeft(text, drop), drop);
  }

  lemma SolidOfSlice(text: string, i: nat, j: nat)
    requires i <= j <= |text|
    ensures Solid(text[i..j]) <= Solid(text)
  {
    SolidConcat(text[..i], text[i..j]);
    SolidConcat(text[..j], text[j..]);
    assert text[..i] + text[i..j] == text[..j] && text[..j] + text[j..] == text;
  }

  lemma {:induction false} SolidOfDoubled(d: string)
    ensures Solid(Doubled(d)) == Solid(d)
  {
    if d != "" {
      SolidOfDoubled(d[1..]);
      if d[0] == '\'' {
        assert Solid("''") == 0 by { assert "''"[1..] == "'" && "'"[1..] == ""; }
        SolidConcat("''", Doubled(d[1..]));
      } else {
        assert [d[0]][1..] == "";
        SolidConcat([d[0]], Doubled(d[1..]));
      }
    }
  }

  lemma NormalizeIsNoMoreSolid(d: string)
    ensures Solid(Normalize(Some(d))) <= Solid(d)
  {
    var text := Strip(d, Space);
    SolidOfStrip(d, Space);
    SolidOfStrip(text, Quote);
    SolidOfStrip(Strip(text, Quote), Space);
    var closing := if text != "" && text[0] == '\'' then FindQuote(text, 1) else -1;
    if closing > 0 {
      SolidOfSlice(text, 1, closing);
      SolidOfStrip(text[1..closing], Space);
    }
  }

  // -- when the echo reads back as the default ------------------------------

  lemma {:induction false} DoubledQuoteFree(d: string)
    requires '\'' !in d
    ensures Doubled(d) == d
  {
    if d != "" {
      DoubledQuoteFree(d[1..]);
      assert d == [d[0]] + d[1..];
    }
  }

  /** Its first quote is followed by another. */
  lemma {:induction false} DoubledQuotesPair(d: string, p: nat)
    requires p < |Doubled(d)| && Doubled(d)[p] == '\'' && forall i :: 0 <= i < p ==> Doubled(d)[i] != '\''
    ensures p + 1 < |Doubled(d)| && Doubled(d)[p + 1] == '\''
  {
    if d[0] != '\'' {
      var rest := Doubled(d[1..]);
      assert forall i :: 0 <= i < |rest| ==> Doubled(d)[i + 1] == rest[i];
      DoubledQuotesPair(d[1..], p - 1);
    } else {
      assert Doubled(d)[0] == '\'' && Doubled(d)[1] == '\'';
    }
  }

  lemma {:induction false} DoubledHasQuote(d: string)
    requires '\'' in d
    ensures '\'' in Doubled(d)
  {
    if d[0] != '\'' {
      DoubledHasQuote(d[1..]);
    } else {
      assert Doubled(d)[0] == '\'';
    }
  }

  lemma {:induction false} StripRightKeeps(text: string, drop: char -> bool, k: nat)
    requires k < |text| && !drop(text[k])
    ensures k < |StripRight(text, drop)| && StripRight(text, drop) <= text
  {
    if drop(text[|text| - 1]) {
      StripRightKeeps(text[..|text| - 1], drop, k);
    }
  }

  /** Nothing goes from the left of a text that starts with a kept character, nor anything up to
      another kept one. */
  lemma StripKeeps(text: string, drop: char -> bool, k: nat)
    requires k < |text| && !drop(text[0]) && !drop(text[k])
    ensures k < |Strip(text, drop)| && Strip(text, drop) <= text
  {
    StripRightKeeps(text, drop, k);
  }

  lemma StripIsSlice(text: string, drop: char -> bool)
    ensures forall c :: c in Strip(text, drop) ==> c in text
    ensures Strip(text, drop) != "" ==> !drop(Strip(text, drop)[0]) && !drop(Strip(text, drop)[|Strip(text, drop)| - 1])
  {
    var n := StripLeftIsSuffix(text, drop);
    StripRightIsPrefix(StripLeft(text, drop), drop);
    StripLeftEnds(text, drop);
    StripRightEnds(StripLeft(text, drop), drop);
  }

  lemma {:induction false} StripLeftEnds(text: string, drop: char -> bool)
    ensures StripLeft(text, drop) != "" ==> !drop(StripLeft(text, drop)[0])
  {
    if text != "" && drop(text[0]) { StripLeftEnds(text[1..], drop); }
  }

  lemma {:induction false} StripRightEnds(text: string, drop: char -> bool)
    ensures StripRight(text, drop) != "" ==>
              !drop(StripRight(text, drop)[|StripRight(text, drop)| - 1])
  {
    if text != "" && drop(text[|text| - 1]) { StripRightEnds(text[..|text| - 1], drop); }
  }

  /** Ends that are kept already. */
  lemma StripIsIdle(text: string, drop: char -> bool)
    requires text != "" ==> !drop(text[0]) && !drop(text[|text| - 1])
    ensures Strip(text, drop) == text
  {
  }

  lemma NormalizeQuoteFree(d: string)
    requires '\'' !in d
    ensures Normalize(Some(d)) == Strip(d, Space)
  {
    var text := Strip(d, Space);
    StripIsSlice(d, Space);
    StripIsIdle(text, Quote);
    StripIsIdle(text, Space);
  }

  /** The text of an echo: a quote, the doubled default, a quote, two colons, and what is left of
      the type's name. */
  lemma EchoText(d: string, typeName: string) returns (text: string, body: string)
    ensures text == Strip(Echo(d, typeName), Space) && body == Doubled(d)
    ensures |text| >= |body| + 4 && text[0] == '\'' && text[1..|body| + 1] == body
    ensures text[|body| + 1] == '\'' && text[|body| + 2] == ':' && text[|body| + 3] == ':'
  {
    var echo := Echo(d, typeName);
    body := Doubled(d);
    assert echo[|body| + 1] == '\'' && echo[|body| + 2] == ':' && echo[|body| + 3] == ':';
    assert echo[1..|body| + 1] == body;
    StripKeeps(echo, Space, |body| + 3);
    text := Strip(echo, Space);
    assert forall i :: 0 <= i < |text| ==> text[i] == echo[i];
  }

  lemma QuoteFreeReadsBack(d: string, typeName: string)
    requires '\'' !in d
    ensures Normalize(Some(Echo(d, typeName))) == Normalize(Some(d))
  {
    NormalizeQuoteFree(d);
    DoubledQuoteFree(d);
    var text, body := EchoText(d, typeName);
    forall i | 1 <= i < |d| + 1 ensures text[i] != '\'' {
      assert text[i] == text[1..|d| + 1][i - 1];
    }
    var closing := |d| + 1;
    assert FindQuote(text, 1) == closing;
    StripKeeps(text[closing + 1..], Space, 1);
    assert "::" <= Strip(text[closing + 1..], Space);
  }

  lemma QuoteFromBody(text: string, body: string, p: nat)
    requires |text| > |body| && text[1..|body| + 1] == body && FindQuote(body, 0) == p && p + 1 < |body|
    ensures FindQuote(text, 1) == p + 1 && text[p + 2] == body[p + 1]
  {
    forall i | 1 <= i <= p + 2 ensures text[i] == body[i - 1] {
      assert text[i] == text[1..|body| + 1][i - 1];
    }
  }

  /** A quote in the default leaves the echo unread: only its ends are stripped. */
  lemma QuotedFallsThrough(d: string, typeName: string)
    requires '\'' in d
    ensures Normalize(Some(Echo(d, typeName))) == Strip(Strip(Strip(Echo(d, typeName), Space), Quote), Space)
  {
    var text, body := EchoText(d, typeName);
    DoubledHasQuote(d);
    var p := FindQuote(body, 0);
    DoubledQuotesPair(d, p);
    QuoteFromBody(text, body, p);
    var after := text[p + 2..];
    StripKeeps(after, Space, 0);
    assert Strip(after, Space)[0] == '\'';
  }

  lemma QuotedReadsOtherwise(d: string, typeName: string)
    requires '\'' in d
    ensures Normalize(Some(Echo(d, typeName))) != Normalize(Some(d))
  {
    var text := Strip(Echo(d, typeName), Space);
    QuotedFallsThrough(d, typeName);
    EchoIsSolid(d, typeName);
    SolidOfStrip(Echo(d, typeName), Space);
    SolidOfStrip(text, Quote);
    SolidOfStrip(Strip(text, Quote), Space);
    NormalizeIsNoMoreSolid(d);
  }

  lemma EchoIsSolid(d: string, typeName: string)
    ensures Solid(Echo(d, typeName)) > Solid(d)
  {
    SolidOfDoubled(d);
    SolidConcat("'" + Doubled(d) + "'::", typeName);
    SolidConcat("'" + Doubled(d), "'::");
    SolidConcat("'", Doubled(d));
    assert "'::"[1..] == "::" && "::"[1..] == ":" && ":"[1..] == "";
    assert Solid("'::") == 2;
  }

  /** The database's echo of a default reads back as that default exactly when there is no quote
      in it. */
  lemma EchoReadsBackIff(d: string, typeName: string)
    ensures Normalize(Some(Echo(d, typeName))) == Normalize(Some(d)) <==> '\'' !in d
  {
    if '\'' in d {
      QuotedReadsOtherwise(d, typeName);
    } else {
      QuoteFreeReadsBack(d, typeName);
    }
  }
}
