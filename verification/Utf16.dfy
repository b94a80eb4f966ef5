/** UTF-16 (section 2.1 of RFC 2781): units, bytes, and back. */
module Utf16 {
  import opened Prelude

  const PLANE := 0x10000

  /** One unit, or a high and a low surrogate. */
  function Units(c: char): (r: seq<int>)
    ensures 1 <= |r| <= 2
  {
    var v := c as int;
    if v < PLANE then [v] else [0xD800 + (v - PLANE) / 0x400, 0xDC00 + (v - PLANE) % 0x400]
  }

  /** A character of the first plane is its own unit; any other has a surrogate pair, each with
      ten bits of what it is above that plane. */
  lemma UnitsAre(c: char)
    ensures c as int < 65536 ==> Units(c) == [c as int]
    ensures c as int >= 65536 ==>
              && |Units(c)| == 2 && 0xD800 <= Units(c)[0] < 0xDC00 && 0xDC00 <= Units(c)[1] < 0xE000
              && c as int == 65536 + (Units(c)[0] - 0xD800) * 1024 + (Units(c)[1] - 0xDC00)
  {
  }

  function Encode(text: string): seq<int> {
    if text == "" then [] else Units(text[0]) + Encode(text[1..])
  }

  /** `text.encode("utf-16-le")`. */
  function Bytes(text: string): seq<int> {
    if text == "" then [] else LittleEndian(Units(text[0])) + Bytes(text[1..])
  }

  function LittleEndian(units: seq<int>): seq<int> {
    if units == [] then [] else [units[0] % 256, units[0] / 256] + LittleEndian(units[1..])
  }

  /** `len(text.encode("utf-16-le")) // 2`. */
  function Length(text: string): int {
    |Bytes(text)| / 2
  }

  lemma {:induction false} LittleEndianLength(units: seq<int>)
    ensures |LittleEndian(units)| == 2 * |units|
  {
    if units != [] {
      LittleEndianLength(units[1..]);
    }
  }

  lemma {:induction false} LengthCountsUnits(text: string)
    ensures |Bytes(text)| == 2 * |Encode(text)| && Length(text) == |Encode(text)|
  {
    if text != "" {
      LengthCountsUnits(text[1..]);
      LittleEndianLength(Units(text[0]));
    }
  }

  /** Each unit is two bytes, the low one first. */
  lemma {:induction false} BytesOfUnit(units: seq<int>, i: nat)
    requires i < |units| && forall k :: 0 <= k < |units| ==> 0 <= units[k] < 65536
    ensures |LittleEndian(units)| == 2 * |units|
    ensures 0 <= LittleEndian(units)[2 * i] < 256 && 0 <= LittleEndian(units)[2 * i + 1] < 256
    ensures units[i] == LittleEndian(units)[2 * i] + 256 * LittleEndian(units)[2 * i + 1]
  {
    LittleEndianLength(units);
    LittleEndianLength(units[1..]);
    if i > 0 {
      BytesOfUnit(units[1..], i - 1);
    }
  }

  lemma EncodeCons(c: char, rest: string)
    ensures Encode([c] + rest) == Units(c) + Encode(rest)
  {
    assert ([c] + rest)[1..] == rest;
  }

  lemma Reassociate(a: seq<int>, b: seq<int>, c: seq<int>)
    ensures a + (b + c) == (a + b) + c
  {
  }

  lemma {:induction false} EncodeAppend(a: string, b: string)
    ensures Encode(a + b) == Encode(a) + Encode(b)
  {
    if a == "" {
      assert a + b == b;
    } else {
      var c, rest := a[0], a[1..];
      assert a == [c] + rest && a + b == [c] + (rest + b);
      EncodeAppend(rest, b);
      EncodeCons(c, rest);
      EncodeCons(c, rest + b);
      Reassociate(Units(c), Encode(rest), Encode(b));
    }
  }

  predicate High(u: int) { 0xD800 <= u < 0xDC00 }
  predicate Low(u: int) { 0xDC00 <= u < 0xE000 }

  function Scalar(v: int): Option<char> {
    if 0 <= v < 0xD800 || 0xE000 <= v < 0x11_0000 then Some(v as char) else None
  }

  /** Strict decoding; None on a lone surrogate or a unit out of range. */
  function Decode(units: seq<int>): Option<string> {
    if units == [] then Some("")
    else if High(units[0]) && |units| > 1 && Low(units[1]) then
      var c := Scalar(PLANE + (units[0] - 0xD800) * 0x400 + (units[1] - 0xDC00));
      var rest := Decode(units[2..]);
      if c.Some? && rest.Some? then Some([c.value] + rest.value) else None
    else
      var c := Scalar(units[0]);
      var rest := Decode(units[1..]);
      if c.Some? && units[0] < PLANE && rest.Some? then Some([c.value] + rest.value) else None
  }

  /** Nothing is lost: the text comes back. */
  lemma {:induction false} RoundTrip(text: string)
    ensures Decode(Encode(text)) == Some(text)
  {
    if text != "" {
      RoundTrip(text[1..]);
      var u, rest := Units(text[0]), Encode(text[1..]);
      var all := u + rest;
      if |u| == 2 {
        assert all[2..] == rest;
        var v := text[0] as int - PLANE;
        assert v == (v / 0x400) * 0x400 + v % 0x400;
      } else {
        assert all[1..] == rest;
      }
      assert text == [text[0]] + text[1..];
    }
  }

  /** Cutting the encoded text at a prefix's length yields the encoded middle. */
  lemma SliceOfMiddle(before: string, middle: string, after: string)
    ensures var whole := Encode(before + middle + after);
            var offset := Length(before);
            0 <= offset <= offset + Length(middle) <= |whole| &&
            whole[offset..offset + Length(middle)] == Encode(middle)
  {
    LengthCountsUnits(before);
    LengthCountsUnits(middle);
    EncodeAppend(before + middle, after);
    EncodeAppend(before, middle);
  }
}
