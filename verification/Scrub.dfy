/** Masking a DSN's password in external output. */
module Scrub {
  import opened Prelude
  import opened PythonText

  const MASK := "***"

  predicate OccursAt(text: string, word: string, i: int) {
    0 <= i && i + |word| <= |text| && text[i..i + |word|] == word
  }

  ghost predicate Occurs(text: string, word: string) {
    exists i :: OccursAt(text, word, i)
  }

  /** `text.replace(old, new)`: leftmost first, without overlaps. */
  function Replace(text: string, old_: string, new_: string): string
    requires old_ != ""
  {
    if |text| < |old_| then text
    else if text[..|old_|] == old_ then new_ + Replace(text[|old_|..], old_, new_)
    else [text[0]] + Replace(text[1..], old_, new_)
  }

  /** `_scrub`: the DSN becomes its redacted form, then the password as written and as unquoted
      become asterisks. `redacted` and `unquoted` are what the URL library makes of the DSN. */
  function ScrubText(text: string, dsn: string, redacted: string, password: Option<string>, unquoted: string): string
    requires dsn != ""
    requires password.Some? && password.value != "" ==> unquoted != ""
  {
    if text == "" then ""
    else
      var first := Replace(text, dsn, redacted);
      var second := if password.Some? && password.value != ""
                    then Replace(Replace(first, password.value, MASK), unquoted, MASK)
                    else first;
      Strip(second, Space)
  }

  // -- when masking works ---------------------------------------------------

  /** The mask cannot take part in an occurrence of the word: no asterisk at either end, and no
      run of three inside. */
  ghost predicate Maskable(word: string) {
    && word != "" && word[0] != '*' && word[|word| - 1] != '*'
    && !Occurs(word, MASK)
  }

  lemma MaskOccurs(word: string, i: int)
    requires 0 <= i && i + 3 <= |word| && word[i] == '*' && word[i + 1] == '*' && word[i + 2] == '*'
    ensures Occurs(word, MASK)
  {
    assert word[i..i + 3] == MASK;
    assert OccursAt(word, MASK, i);
  }

  /** An occurrence in `MASK + rest` lies in `rest`: it neither starts in the mask nor covers it. */
  lemma OccurrenceSkipsMask(rest: string, word: string, i: int)
    requires Maskable(word) && OccursAt(MASK + rest, word, i)
    ensures i >= 3 && OccursAt(rest, word, i - 3)
  {
    var whole := MASK + rest;
    assert word[0] == whole[i];
    assert whole[i..i + |word|] == rest[i - 3..i - 3 + |word|];
  }

  /** What starts the masked text, if the mask can take no part in it, starts the text itself. */
  lemma {:induction false} PrefixSurvives(text: string, word: string, q: string)
    requires word != "" && q <= Replace(text, word, MASK)
    requires q != "" ==> q[|q| - 1] != '*' && !Occurs(q, MASK)
    ensures q <= text
    decreases |text|
  {
    if q != "" && |text| >= |word| {
      if text[..|word|] == word {
        var r := Replace(text, word, MASK);
        assert r[0] == r[1] == r[2] == '*';
        if |q| >= 3 { MaskOccurs(q, 0); }
      } else {
        var rest := q[1..];
        assert !Occurs(rest, MASK) by { NoneInTail(q, MASK); }
        PrefixSurvives(text[1..], word, rest);
        assert q == [q[0]] + rest && text == [text[0]] + text[1..];
      }
    }
  }

  /** Masking one word makes no new occurrence of a maskable secret. */
  lemma {:induction false} MaskingMakesNone(text: string, word: string, secret: string, i: int)
    requires word != "" && Maskable(secret) && OccursAt(Replace(text, word, MASK), secret, i)
    ensures Occurs(text, secret)
    decreases |text|
  {
    if i == 0 {
      PrefixSurvives(text, word, secret);
      assert OccursAt(text, secret, 0);
    } else if |text| >= |word| {
      if text[..|word|] == word {
        var rest := text[|word|..];
        OccurrenceSkipsMask(Replace(rest, word, MASK), secret, i);
        MaskingMakesNone(rest, word, secret, i - 3);
        Shift(rest, text, |word|, secret);
      } else {
        var rest := text[1..];
        var tail := Replace(rest, word, MASK);
        assert Replace(text, word, MASK)[i..i + |secret|] == tail[i - 1..i - 1 + |secret|];
        MaskingMakesNone(rest, word, secret, i - 1);
        Shift(rest, text, 1, secret);
      }
    }
  }

  lemma Shift(rest: string, text: string, n: nat, secret: string)
    requires n <= |text| && rest == text[n..] && Occurs(rest, secret)
    ensures Occurs(text, secret)
  {
    var i :| OccursAt(rest, secret, i);
    assert text[n + i..n + i + |secret|] == rest[i..i + |secret|];
    assert OccursAt(text, secret, n + i);
  }

  lemma NoneInTail(text: string, secret: string)
    requires text != "" && !Occurs(text, secret)
    ensures !Occurs(text[1..], secret)
  {
    if Occurs(text[1..], secret) {
      Shift(text[1..], text, 1, secret);
    }
  }

  /** After masking a maskable word, it is nowhere left. */
  lemma {:induction false} MaskedIsGone(text: string, word: string, i: int)
    requires Maskable(word) && OccursAt(Replace(text, word, MASK), word, i)
    ensures false
    decreases |text|
  {
    if |text| >= |word| {
      if text[..|word|] == word {
        var rest := text[|word|..];
        OccurrenceSkipsMask(Replace(rest, word, MASK), word, i);
        MaskedIsGone(rest, word, i - 3);
      } else if i == 0 {
        PrefixSurvives(text, word, word);
        assert false;
      } else {
        var tail := Replace(text[1..], word, MASK);
        assert Replace(text, word, MASK)[i..i + |word|] == tail[i - 1..i - 1 + |word|];
        MaskedIsGone(text[1..], word, i - 1);
      }
    }
  }

  // -- and when it cannot ---------------------------------------------------

  lemma {:induction false} ReplaceAbsent(text: string, word: string)
    requires word != "" && !Occurs(text, word)
    ensures Replace(text, word, MASK) == text
  {
    if |text| >= |word| {
      assert !OccursAt(text, word, 0);
      NoneInTail(text, word);
      ReplaceAbsent(text[1..], word);
      assert text == [text[0]] + text[1..];
    }
  }

  /** The word does not occur in the text before position n. */
  ghost predicate FirstFrom(text: string, word: string, n: int) {
    forall i :: 0 <= i < n ==> !OccursAt(text, word, i)
  }

  lemma OccursAtTail(text: string, word: string, i: int)
    requires text != "" && i >= 0
    ensures OccursAt(text[1..], word, i) <==> OccursAt(text, word, i + 1)
  {
    if i + 1 + |word| <= |text| {
      assert text[1..][i..i + |word|] == text[i + 1..i + 1 + |word|];
    }
  }

  lemma FirstFromTail(text: string, word: string, n: int)
    requires text != "" && n > 0 && FirstFrom(text, word, n)
    ensures FirstFrom(text[1..], word, n - 1)
  {
    forall i | 0 <= i < n - 1 ensures !OccursAt(text[1..], word, i) {
      OccursAtTail(text, word, i);
    }
  }

  lemma ReplaceStep(text: string, word: string)
    requires word != "" && text != "" && !OccursAt(text, word, 0)
    ensures Replace(text, word, MASK) == [text[0]] + Replace(text[1..], word, MASK)
  {
    if |text| < |word| {
      assert text == [text[0]] + text[1..];
    }
  }

  /** When the word first occurs after `before`, that is copied and the mask follows. */
  lemma {:induction false} ReplaceFirst(before: string, word: string, after: string)
    requires word != "" && FirstFrom(before + (word + after), word, |before|)
    ensures Replace(before + (word + after), word, MASK) == before + (MASK + Replace(after, word, MASK))
    decreases |before|
  {
    var tail := word + after;
    if before == "" {
      assert before + tail == tail && tail[..|word|] == word && tail[|word|..] == after;
      assert before + (MASK + Replace(after, word, MASK)) == MASK + Replace(after, word, MASK);
    } else {
      var text := before + tail;
      var rest := before[1..];
      assert text[1..] == rest + tail && text[0] == before[0];
      assert !OccursAt(text, word, 0);
      FirstFromTail(text, word, |before|);
      ReplaceStep(text, word);
      ReplaceFirst(rest, word, after);
      Reattach(before, MASK + Replace(after, word, MASK));
    }
  }

  lemma Reattach(before: string, rest: string)
    requires before != ""
    ensures [before[0]] + (before[1..] + rest) == before + rest
  {
  }

  /** When the mask lines up with asterisks of the word, some text comes out of the masking with
      the word in it. */
  lemma UnmaskableSurvives(word: string) returns (text: string)
    requires word != "" && !Maskable(word)
    ensures Occurs(Replace(text, word, MASK), word)
  {
    if word[0] == '*' {
      text := LeadingAsterisk(word);
    } else if word[|word| - 1] == '*' {
      text := TrailingAsterisk(word);
    } else {
      text := InnerMask(word);
    }
  }

  /** `*u`: in `*uu` the occurrence becomes `***`, and its last asterisk meets the second u. */
  lemma LeadingAsterisk(word: string) returns (text: string)
    requires word != "" && word[0] == '*'
    ensures Occurs(Replace(text, word, MASK), word)
  {
    var u := word[1..];
    text := "" + (word + u);
    ReplaceFirst("", word, u);
    ReplaceAbsent(u, word);
    var masked := Replace(text, word, MASK);
    assert masked == MASK + u;
    assert masked[2..2 + |word|] == word;
    assert OccursAt(masked, word, 2);
  }

  lemma LettersOf(text: string, word: string, i: int, k: nat)
    requires OccursAt(text, word, i) && k < |word|
    ensures text[i + k] == word[k]
  {
    assert text[i..i + |word|][k] == text[i + k];
  }

  /** `u*` with no asterisk in front: `uu*` becomes `u***`. */
  lemma TrailingAsterisk(word: string) returns (text: string)
    requires word != "" && word[0] != '*' && word[|word| - 1] == '*'
    ensures Occurs(Replace(text, word, MASK), word)
  {
    var u := word[..|word| - 1];
    text := u + (word + "");
    assert text[|u|..|u| + |word|] == word;
    forall i | 0 <= i < |u| ensures !OccursAt(text, word, i) {
      if OccursAt(text, word, i) {
        EndIsStart(text, word, i);
      }
    }
    ReplaceFirst(u, word, "");
    var masked := Replace(text, word, MASK);
    assert masked[..|word|] == word;
    assert OccursAt(masked, word, 0);
  }

  /** Two occurrences at a distance of less than |word|: the later one's letter that is the
      earlier one's last. Here the later starts |word| - 1 after the start of the text. */
  lemma EndIsStart(text: string, word: string, i: nat)
    requires i < |word| - 1 && OccursAt(text, word, i) && OccursAt(text, word, |word| - 1)
    requires text[..|word| - 1] == word[..|word| - 1]
    ensures word[|word| - 1] == word[0]
  {
    var k: nat := |word| - 1;
    LettersOf(text, word, i, k);
    LettersOf(text, word, k, i);
    LettersOf(text, word, i, 0);
    assert text[..k][i] == word[..k][i];
  }

  /** `a***b`, split at the first such run: `aa***bb` becomes the word itself. */
  lemma InnerMask(word: string) returns (text: string)
    requires word != "" && Occurs(word, MASK)
    ensures Occurs(Replace(text, word, MASK), word)
  {
    var j :| OccursAt(word, MASK, j);
    var p := FirstOccurrence(word, MASK, j);
    var a, b := word[..p], word[p + 3..];
    assert word == a + (MASK + b) by { assert word[p..p + 3] == MASK; }
    text := InnerMaskOf(a, b, word);
  }

  lemma InnerMaskOf(a: string, b: string, word: string) returns (text: string)
    requires word == a + (MASK + b) && FirstFrom(word, MASK, |a|)
    ensures Occurs(Replace(text, word, MASK), word)
  {
    text := a + (word + b);
    assert OccursAt(text, word, |a|) by { assert text[|a|..|a| + |word|] == word; }
    assert OccursAt(word, MASK, |a|) by { assert word[|a|..|a| + 3] == MASK; }
    forall i | 0 <= i < |a| ensures !OccursAt(text, word, i) {
      if OccursAt(text, word, i) {
        EarlierRun(text, word, |a|, i);
      }
    }
    ReplaceFirst(a, word, b);
    ReplaceAbsent(b, word);
    assert Replace(text, word, MASK)[0..0 + |word|] == word;
    assert OccursAt(Replace(text, word, MASK), word, 0);
  }

  /** The word found at i < p in `a` followed by the word would put a run of the word at i. */
  lemma EarlierRun(text: string, word: string, p: nat, i: nat)
    requires i < p && OccursAt(word, MASK, p) && OccursAt(text, word, i)
    requires OccursAt(text, word, p)
    ensures OccursAt(word, MASK, i)
  {
    forall k | 0 <= k < 3 ensures word[i + k] == MASK[k] {
      LettersOf(word, MASK, p, k);
      LettersOf(text, word, i, p + k);
      LettersOf(text, word, p, i + k);
    }
    assert word[i..i + 3] == MASK;
  }

  lemma FirstOccurrence(text: string, word: string, j: int) returns (n: nat)
    requires OccursAt(text, word, j)
    ensures OccursAt(text, word, n) && FirstFrom(text, word, n)
  {
    n := 0;
    while !OccursAt(text, word, n)
      invariant n <= j && FirstFrom(text, word, n)
      decreases j - n
    {
      n := n + 1;
    }
  }

  ghost predicate MaskedAway(text: string, word: string)
    requires word != ""
  {
    !Occurs(Replace(text, word, MASK), word)
  }

  lemma MaskableIsMaskedAway(text: string, word: string)
    requires Maskable(word)
    ensures MaskedAway(text, word)
  {
    if Occurs(Replace(text, word, MASK), word) {
      var i :| OccursAt(Replace(text, word, MASK), word, i);
      MaskedIsGone(text, word, i);
    }
  }

  /** Replacing a word by the mask removes it from every text exactly when the word has no
      asterisk at either end and no run of three inside. */
  lemma MaskingWorksIff(word: string)
    requires word != ""
    ensures (forall text: string :: MaskedAway(text, word)) <==> Maskable(word)
  {
    if Maskable(word) {
      forall text: string ensures MaskedAway(text, word) {
        MaskableIsMaskedAway(text, word);
      }
    } else {
      var text := UnmaskableSurvives(word);
      assert !MaskedAway(text, word);
    }
  }

  // -- the whole of _scrub ---------------------------------------------------

  /** Stripping the ends uncovers no new occurrence. */
  lemma StripMakesNone(text: string, secret: string)
    requires Occurs(Strip(text, Space), secret)
    ensures Occurs(text, secret)
  {
    var left := StripLeft(text, Space);
    StripRightIsPrefix(left, Space);
    var i :| OccursAt(StripRight(left, Space), secret, i);
    assert left[i..i + |secret|] == StripRight(left, Space)[i..i + |secret|];
    var n := StripLeftIsSuffix(text, Space);
    assert OccursAt(left, secret, i);
    Shift(left, text, n, secret);
  }

  /** A maskable password is nowhere in the scrubbed text: masking the unquoted form second, of
      whatever shape that is, does not bring it back. */
  lemma ScrubRemovesPassword(text: string, dsn: string, redacted: string, password: string, unquoted: string)
    requires dsn != "" && Maskable(password) && unquoted != ""
    ensures !Occurs(ScrubText(text, dsn, redacted, Some(password), unquoted), password)
  {
    if text != "" {
      var first := Replace(text, dsn, redacted);
      var masked := Replace(first, password, MASK);
      var twice := Replace(masked, unquoted, MASK);
      MaskableIsMaskedAway(first, password);
      if Occurs(twice, password) {
        var i :| OccursAt(twice, password, i);
        MaskingMakesNone(masked, unquoted, password, i);
      }
      if Occurs(Strip(twice, Space), password) { StripMakesNone(twice, password); }
    }
  }

  /** And so is a maskable unquoted form, whatever the shape of the password as written. */
  lemma ScrubRemovesUnquoted(text: string, dsn: string, redacted: string, password: string, unquoted: string)
    requires dsn != "" && password != "" && Maskable(unquoted)
    ensures !Occurs(ScrubText(text, dsn, redacted, Some(password), unquoted), unquoted)
  {
    if text != "" {
      var masked := Replace(Replace(text, dsn, redacted), password, MASK);
      var twice := Replace(masked, unquoted, MASK);
      MaskableIsMaskedAway(masked, unquoted);
      if Occurs(Strip(twice, Space), unquoted) { StripMakesNone(twice, unquoted); }
    }
  }

  /** Stripping the ends keeps what neither begins nor ends in a space. */
  lemma StripKeeps(text: string, word: string)
    requires Occurs(text, word) && word != "" && !Space(word[0]) && !Space(word[|word| - 1])
    ensures Occurs(Strip(text, Space), word)
  {
    var i :| OccursAt(text, word, i);
    LettersOf(text, word, i, 0);
    LettersOf(text, word, i, |word| - 1);
    var n := StripLeftIsSuffix(text, Space);
    var left := StripLeft(text, Space);
    assert n <= i;
    assert left[i - n..i - n + |word|] == word;
    assert OccursAt(left, word, i - n);
    StripRightKeeps(left, word, i - n);
  }

  lemma {:induction false} StripRightKeeps(text: string, word: string, i: int)
    requires OccursAt(text, word, i) && word != "" && !Space(word[|word| - 1])
    ensures Occurs(StripRight(text, Space), word)
  {
    LettersOf(text, word, i, |word| - 1);
    if text != "" && Space(text[|text| - 1]) {
      assert text[..|text| - 1][i..i + |word|] == word;
      StripRightKeeps(text[..|text| - 1], word, i);
    } else {
      assert OccursAt(StripRight(text, Space), word, i);
    }
  }

  /** Nothing is left of the password, whatever the output, the DSN and the unquoted form. */
  ghost predicate NeverShown(password: string) {
    forall text: string, dsn: string, redacted: string, unquoted: string :: dsn != "" && unquoted != "" ==>
      !Occurs(ScrubText(text, dsn, redacted, Some(password), unquoted), password)
  }

  /** The scrubbing keeps a password out of every output exactly when it is maskable. */
  lemma ScrubWorksIff(password: string)
    requires password != "" && !Space(password[0]) && !Space(password[|password| - 1])
    ensures NeverShown(password) <==> Maskable(password)
  {
    if Maskable(password) {
      forall text: string, dsn: string, redacted: string, unquoted: string | dsn != "" && unquoted != ""
        ensures !Occurs(ScrubText(text, dsn, redacted, Some(password), unquoted), password)
      {
        ScrubRemovesPassword(text, dsn, redacted, password, unquoted);
      }
    } else {
      var text := UnmaskableSurvives(password);
      var masked := Replace(text, password, MASK);
      var dsn, unquoted := text + "x", masked + "x";
      StripKeeps(masked, password);
      assert Replace(text, dsn, "") == text && Replace(masked, unquoted, MASK) == masked;
      assert text != "" by { assert Occurs(masked, password); }
      assert Occurs(ScrubText(text, dsn, "", Some(password), unquoted), password);
    }
  }

  /** In `uuu*`, with u not beginning in an asterisk, `u*` occurs nowhere before the end: what is
      repeated has, where the asterisk would be, the letter that u begins with. */
  lemma OnlyAtTheEnd(u: string, word: string, before: string, after: string)
    requires word == u + "*" && u != "" && u[0] != '*' && (before == u || before == u + u)
    ensures FirstFrom(before + (word + after), word, |before|)
  {
    var text := before + (word + after);
    forall i | 0 <= i < |before| ensures !OccursAt(text, word, i) {
      if OccursAt(text, word, i) {
        LettersOf(text, word, i, 0);
        LettersOf(text, word, i, |u|);
        RepeatedLetter(u, text, before, word + after, i);
      }
    }
  }

  lemma RepeatedLetter(u: string, text: string, before: string, rest: string, i: nat)
    requires text == before + rest && (before == u || before == u + u) && u <= rest && i < |before|
    ensures i + |u| < |text| && text[i + |u|] == text[i]
  {
    assert forall k :: 0 <= k < |u| ==> rest[k] == u[k];
  }

  /** Neither end is a space, so nothing is stripped. */
  lemma NothingToStrip(text: string)
    requires text != "" && !Space(text[0]) && !Space(text[|text| - 1])
    ensures Strip(text, Space) == text
  {
  }

  /** A password that ends in an asterisk, and does not begin with one, can survive both
      maskings: of `uuu*` the first leaves `uu***` and the second `u*****`. */
  lemma StarredPasswordSurvives(dsn: string, redacted: string, u: string) returns (text: string)
    requires u != "" && u[0] != '*' && !Space(u[0]) && |dsn| > 3 * |u| + 1
    ensures Occurs(ScrubText(text, dsn, redacted, Some(u + "*"), u + "*"), u + "*")
  {
    var word := u + "*";
    text := u + u + (word + "");
    assert Replace(text, dsn, redacted) == text;
    var once := u + (word + "**");
    OnlyAtTheEnd(u, word, u + u, "");
    ReplaceFirst(u + u, word, "");
    assert Replace(text, word, MASK) == u + u + (MASK + "") == once;
    OnlyAtTheEnd(u, word, u, "**");
    ReplaceFirst(u, word, "**");
    assert !Occurs("**", word) by { assert word[0] != '*'; NoneInStars(word); }
    ReplaceAbsent("**", word);
    var twice := u + (MASK + "**");
    assert Replace(once, word, MASK) == twice;
    NothingToStrip(twice);
    assert twice[0..|word|] == word;
    assert OccursAt(twice, word, 0);
  }

  lemma NoneInStars(word: string)
    requires word != "" && word[0] != '*'
    ensures !Occurs("**", word)
  {
    forall i ensures !OccursAt("**", word, i) {
      if OccursAt("**", word, i) {
        LettersOf("**", word, i, 0);
      }
    }
  }

  /** `_scrub`, which rewrites one local string. */
  method ScrubOutput(text: string, dsn: string, redacted: string, password: Option<string>, unquoted: string)
    returns (scrubbed: string)
    requires dsn != ""
    requires password.Some? && password.value != "" ==> unquoted != ""
    ensures scrubbed == ScrubText(text, dsn, redacted, password, unquoted)
    ensures password.Some? && Maskable(password.value) ==> !Occurs(scrubbed, password.value)
    ensures password.Some? && password.value != "" && Maskable(unquoted) ==> !Occurs(scrubbed, unquoted)
  {
    if text == "" {
      scrubbed := "";
    } else {
      scrubbed := Replace(text, dsn, redacted);
      if password.Some? && password.value != "" {
        scrubbed := Replace(scrubbed, password.value, MASK);
        scrubbed := Replace(scrubbed, unquoted, MASK);
      }
      scrubbed := Strip(scrubbed, Space);
    }
    if password.Some? && password.value != "" {
      if Maskable(password.value) { ScrubRemovesPassword(text, dsn, redacted, password.value, unquoted); }
      if Maskable(unquoted) { ScrubRemovesUnquoted(text, dsn, redacted, password.value, unquoted); }
    }
  }
}
