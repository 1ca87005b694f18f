/**
 The text conversion of the translation loader: UTF-16, big end first, to UTF-8. The
 standard's own encodings (Unicode, sections 3.9 and 3.10) are the reference.
 */
module Utf {
  import opened Formatting

  // ---------------------------------------------------------------- reference

  /** A Unicode scalar value: a code point that is no surrogate. */
  predicate IsScalar(v: nat) {
    v < 0xd800 || 0xe000 <= v < 0x110000
  }

  type Scalar = v: nat | IsScalar(v)

  function Byte(n: nat): (c: char)
    requires n < 256
    ensures IsByte(c) && c as int == n
  {
    n as char
  }

  function UnitBytes(u: nat): (s: Bytes)
    requires u < 0x10000
    ensures |s| == 2
  {
    [Byte(u / 256), Byte(u % 256)]
  }

  function EncodeScalar(v: Scalar): (s: Bytes)
    ensures |s| == 2 || |s| == 4
  {
    assert IsScalar(v);
    if v < 0x10000 then UnitBytes(v)
    else
      var excess: nat := v - 0x10000;
      UnitBytes(0xd800 + excess / 0x400) + UnitBytes(0xdc00 + excess % 0x400)
  }

  function EncodeUtf16(text: seq<Scalar>): (s: Bytes) {
    if text == [] then "" else EncodeScalar(text[0]) + EncodeUtf16(text[1..])
  }

  predicate IsTrail(c: char) {
    0x80 <= c as int < 0xc0
  }

  datatype Decoded = Malformed | Decoded(text: seq<Scalar>)

  function Prepend(v: nat, rest: Decoded): Decoded {
    if rest.Malformed? || !IsScalar(v) then Malformed else Decoded([v] + rest.text)
  }

  /** The text a UTF-8 string stands for; overlong forms and surrogates are malformed. */
  function DecodeUtf8(s: string): Decoded
    decreases |s|
  {
    if s == "" then Decoded([])
    else
      var a := s[0] as int;
      if a < 0x80 then Prepend(a, DecodeUtf8(s[1..]))
      else if 0xc0 <= a < 0xe0 && |s| >= 2 && IsTrail(s[1]) then
        var v := (a - 0xc0) * 0x40 + (s[1] as int - 0x80);
        if v < 0x80 then Malformed else Prepend(v, DecodeUtf8(s[2..]))
      else if 0xe0 <= a < 0xf0 && |s| >= 3 && IsTrail(s[1]) && IsTrail(s[2]) then
        var v := (a - 0xe0) * 0x1000 + (s[1] as int - 0x80) * 0x40 + (s[2] as int - 0x80);
        if v < 0x800 then Malformed else Prepend(v, DecodeUtf8(s[3..]))
      else if 0xf0 <= a < 0xf8 && |s| >= 4 && IsTrail(s[1]) && IsTrail(s[2]) && IsTrail(s[3]) then
        var v := (a - 0xf0) * 0x40000 + (s[1] as int - 0x80) * 0x1000
                 + (s[2] as int - 0x80) * 0x40 + (s[3] as int - 0x80);
        if v < 0x10000 then Malformed else Prepend(v, DecodeUtf8(s[4..]))
      else Malformed
  }

  // ---------------------------------------------------------------- the loader's conversion

  /** Two bytes of the input as one number. */
  function UnitAt(data: Bytes, i: nat): (u: nat)
    requires i + 2 <= |data|
    ensures u < 0x10000
  {
    assert IsByte(data[i]) && IsByte(data[i + 1]);
    data[i] as int * 256 + data[i + 1] as int
  }

  /** The end of the range of first units as it stands in the code, and as UTF-16 has it. */
  const CODED_BOUND := 0xdbfff
  const SURROGATE_BOUND := 0xdbff

  predicate IsPair(first: nat, second: nat, bound: nat) {
    0xd800 <= first <= bound && 0xdc00 <= second <= 0xdfff
  }

  function Combine(first: nat, second: nat): (code: nat)
    requires 0xd800 <= first < 0x10000 && 0xdc00 <= second <= 0xdfff
    ensures 0x10000 <= code < 0x1000000
  {
    first * 0x400 + second - 0x35dfc00
  }

  /**
   The bytes appended for one code. `0xf0 | x` keeps the low four bits of x, which
   matters only for codes past the end of Unicode.
   */
  function Utf8(code: nat): (s: Bytes)
    requires code < 0x1000000
    ensures 1 <= |s| <= 4
  {
    if code <= 0x7f then [Byte(code)]
    else if code <= 0x7ff then [Byte(0xc0 + code / 0x40), Byte(0x80 + code % 0x40)]
    else if code <= 0xffff then [Byte(0xe0 + code / 0x1000), Byte(0x80 + code / 0x40 % 0x40), Byte(0x80 + code % 0x40)]
    else [Byte(0xf0 + code / 0x40000 % 16), Byte(0x80 + code / 0x1000 % 0x40),
          Byte(0x80 + code / 0x40 % 0x40), Byte(0x80 + code % 0x40)]
  }

  function Transcode(data: Bytes, bound: nat): (s: Bytes)
    decreases |data|
  {
    if |data| < 2 then ""
    else
      var first := UnitAt(data, 0);
      if |data| >= 4 && IsPair(first, UnitAt(data, 2), bound)
      then Utf8(Combine(first, UnitAt(data, 2))) + Transcode(data[4..], bound)
      else Utf8(first) + Transcode(data[2..], bound)
  }

  /** `utf16`: two or four bytes at a time, as long as two are left. */
  method Utf16(data: Bytes) returns (s: Bytes)
    ensures s == Transcode(data, CODED_BOUND)
  {
    hide Utf8, Transcode, UnitAt, Combine;
    TranscodeAll(data);
    s := "";
    var i := 0;
    while |data| - i >= 2
      invariant 0 <= i <= |data|
      invariant Transcode(data, CODED_BOUND) == s + Transcode(data[i..], CODED_BOUND)
      decreases |data| - i
    {
      TranscodeNext(data, i, s);
      var code := UnitAt(data, i);
      i := i + 2;
      if code >= 0xd800 && code <= 0xdbfff && |data| - i >= 2 {
        var next := UnitAt(data, i);
        if next >= 0xdc00 && next <= 0xdfff {
          code := Combine(code, next);
          i := i + 2;
        }
      }
      s := s + Utf8(code);
    }
  }

  lemma {:induction false} TranscodeAll(data: Bytes)
    ensures Transcode(data[0..], CODED_BOUND) == Transcode(data, CODED_BOUND)
    ensures forall i | 0 <= i <= |data| && |data| - i < 2 :: Transcode(data[i..], CODED_BOUND) == ""
  {
    assert data[0..] == data;
  }

  lemma {:induction false} TranscodeNext(data: Bytes, i: nat, s: string)
    requires i + 2 <= |data|
    ensures var first := UnitAt(data, i);
            s + Transcode(data[i..], CODED_BOUND) ==
            if i + 4 <= |data| && IsPair(first, UnitAt(data, i + 2), CODED_BOUND)
            then s + Utf8(Combine(first, UnitAt(data, i + 2))) + Transcode(data[i + 4..], CODED_BOUND)
            else s + Utf8(first) + Transcode(data[i + 2..], CODED_BOUND)
  {
    hide Utf8, Combine;
    var rest := data[i..];
    assert UnitAt(rest, 0) == UnitAt(data, i);
    assert rest[2..] == data[i + 2..];
    if i + 4 <= |data| {
      assert UnitAt(rest, 2) == UnitAt(data, i + 2);
      assert rest[4..] == data[i + 4..];
    }
  }

  // ---------------------------------------------------------------- correctness

  lemma {:induction false} DecodeTwo(v: nat, rest: string)
    requires 0x80 <= v < 0x800
    ensures DecodeUtf8(Utf8(v) + rest) == Prepend(v, DecodeUtf8(rest))
  {
    var s := Utf8(v) + rest;
    assert s[2..] == rest;
    assert s[0] as int == 0xc0 + v / 0x40 && s[1] as int == 0x80 + v % 0x40;
  }

  lemma {:induction false} DecodeThree(v: nat, rest: string)
    requires 0x800 <= v < 0x10000
    ensures DecodeUtf8(Utf8(v) + rest) == Prepend(v, DecodeUtf8(rest))
  {
    var s := Utf8(v) + rest;
    assert s[3..] == rest;
    assert s[0] as int == 0xe0 + v / 0x1000 && s[1] as int == 0x80 + v / 0x40 % 0x40 && s[2] as int == 0x80 + v % 0x40;
    assert v / 0x1000 * 0x1000 + v / 0x40 % 0x40 * 0x40 + v % 0x40 == v;
  }

  lemma {:induction false} DecodeFour(v: nat, rest: string)
    requires 0x10000 <= v < 0x200000
    ensures DecodeUtf8(Utf8(v) + rest) == Prepend(v, DecodeUtf8(rest))
  {
    var s := Utf8(v) + rest;
    assert s[4..] == rest;
    assert s[0] as int == 0xf0 + v / 0x40000 by { FourParts(v); }
    assert s[1] as int == 0x80 + v / 0x1000 % 0x40;
    assert s[2] as int == 0x80 + v / 0x40 % 0x40 && s[3] as int == 0x80 + v % 0x40;
    FourParts(v);
  }

  lemma {:induction false} FourParts(v: nat)
    requires v < 0x200000
    ensures v / 0x40000 < 8
    ensures v / 0x40000 * 0x40000 + v / 0x1000 % 0x40 * 0x1000 + v / 0x40 % 0x40 * 0x40 + v % 0x40 == v
  {
    assert v / 0x40 / 0x40 == v / 0x1000;
    assert v / 0x1000 / 0x40 == v / 0x40000;
  }

  lemma {:induction false} DecodeOne(n: nat, rest: string)
    requires n < 0x200000
    ensures DecodeUtf8(Utf8(n) + rest) == Prepend(n, DecodeUtf8(rest))
  {
    if n < 0x80 {
      assert (Utf8(n) + rest)[1..] == rest;
    } else {
      hide DecodeUtf8, Utf8;
      if n < 0x800 { DecodeTwo(n, rest); }
      else if n < 0x10000 { DecodeThree(n, rest); }
      else { DecodeFour(n, rest); }
    }
  }

  /** What becomes of one character: the constant subtracted for a surrogate pair is 0x1e000 too small. */
  function Converted(v: Scalar): (code: nat)
    ensures code < 0x200000
  {
    assert IsScalar(v);
    if v < 0x10000 then v else v + 0x1e000
  }

  function Utf8Text(text: seq<Scalar>): Bytes {
    if text == [] then "" else Utf8(Converted(text[0])) + Utf8Text(text[1..])
  }

  /** The conversion of any encoded text, character by character. */
  lemma {:induction false} TranscodeText(text: seq<Scalar>, bound: nat)
    requires SURROGATE_BOUND <= bound
    ensures Transcode(EncodeUtf16(text), bound) == Utf8Text(text)
    decreases |text|
  {
    hide Utf8;
    if text != [] {
      TranscodeFirst(text, bound);
      TranscodeText(text[1..], bound);
    }
  }

  /** The conversion keeps a text exactly when no character lies beyond the basic plane. */
  lemma {:induction false} TranscodeKeepsText(text: seq<Scalar>)
    ensures DecodeUtf8(Transcode(EncodeUtf16(text), CODED_BOUND)) == Decoded(text) <==>
            forall i | 0 <= i < |text| :: text[i] < 0x10000
  {
    TranscodeText(text, CODED_BOUND);
    DecodeText(text);
  }

  lemma {:induction false} DecodeText(text: seq<Scalar>)
    ensures DecodeUtf8(Utf8Text(text)) == Decoded(text) <==> forall i | 0 <= i < |text| :: text[i] < 0x10000
    decreases |text|
  {
    if text != [] {
      hide Utf8, DecodeUtf8;
      var rest := text[1..];
      DecodeText(rest);
      DecodeOne(Converted(text[0]), Utf8Text(rest));
      assert text == [text[0]] + rest;
      assert forall i | 0 < i < |text| :: text[i] == rest[i - 1];
      assert forall i | 0 <= i < |rest| :: rest[i] == text[i + 1];
    }
  }

  /** U+1F600 comes out as U+3D600. */
  lemma {:induction false} FaceIsLost()
    ensures DecodeUtf8(Transcode(EncodeUtf16([0x1f600]), CODED_BOUND)) == Decoded([0x3d600])
  {
    var text: seq<Scalar> := [0x1f600];
    TranscodeText(text, CODED_BOUND);
    DecodeOne(0x3d600, "");
    assert text[1..] == [] && Utf8Text(text) == Utf8(0x3d600) + "";
  }

  /** No encoded text starts with a low surrogate. */
  lemma {:induction false} FirstUnit(text: seq<Scalar>)
    ensures |EncodeUtf16(text)| >= 2 ==> !(0xdc00 <= UnitAt(EncodeUtf16(text), 0) <= 0xdfff)
  {
  }

  lemma {:induction false} TranscodeFirst(text: seq<Scalar>, bound: nat)
    requires text != [] && SURROGATE_BOUND <= bound
    ensures Transcode(EncodeUtf16(text), bound) == Utf8(Converted(text[0])) + Transcode(EncodeUtf16(text[1..]), bound)
  {
    hide Utf8, Transcode, UnitAt, UnitBytes;
    var v: nat, rest := text[0], EncodeUtf16(text[1..]);
    if v < 0x10000 {
      FirstUnit(text[1..]);
      TranscodeUnit(v, rest, bound);
    } else {
      TranscodePair(v, rest, bound);
    }
  }

  lemma {:induction false} UnitRoundTrip(u: nat, rest: Bytes)
    requires u < 0x10000
    ensures UnitAt(UnitBytes(u) + rest, 0) == u
    ensures (UnitBytes(u) + rest)[2..] == rest
    ensures |rest| >= 2 ==> UnitAt(UnitBytes(u) + rest, 2) == UnitAt(rest, 0)
  {
  }

  lemma {:induction false} TranscodeUnit(v: nat, rest: Bytes, bound: nat)
    requires v < 0x10000 && (|rest| < 2 || !(0xdc00 <= UnitAt(rest, 0) <= 0xdfff))
    ensures Transcode(UnitBytes(v) + rest, bound) == Utf8(v) + Transcode(rest, bound)
  {
    hide Utf8, UnitAt, UnitBytes;
    UnitRoundTrip(v, rest);
  }

  lemma {:induction false} TranscodePair(v: nat, rest: Bytes, bound: nat)
    requires 0x10000 <= v < 0x110000 && SURROGATE_BOUND <= bound
    ensures Transcode(UnitBytes(0xd800 + (v - 0x10000) / 0x400) +
                      UnitBytes(0xdc00 + (v - 0x10000) % 0x400) + rest, bound) ==
            Utf8(v + 0x1e000) + Transcode(rest, bound)
  {
    hide Utf8, UnitAt, UnitBytes;
    var high, low := 0xd800 + (v - 0x10000) / 0x400, 0xdc00 + (v - 0x10000) % 0x400;
    var data := UnitBytes(high) + (UnitBytes(low) + rest);
    assert UnitBytes(high) + UnitBytes(low) + rest == data;
    UnitRoundTrip(high, UnitBytes(low) + rest);
    UnitRoundTrip(low, rest);
    assert data[4..] == data[2..][2..] == rest;
    assert Combine(high, low) == v + 0x1e000;
  }

  /** Read from the front, some unit past the high surrogates is followed by a low surrogate. */
  predicate Misread(data: Bytes)
    decreases |data|
  {
    |data| >= 4 &&
    var first, second := UnitAt(data, 0), UnitAt(data, 2);
    if IsPair(first, second, SURROGATE_BOUND) then Misread(data[4..])
    else IsPair(first, second, 0xffff) || Misread(data[2..])
  }

  /**
   The bound in the code has one digit too many. The conversion does what the right bound
   would make it do exactly on the inputs that are not misread.
   */
  lemma {:induction false} BoundMatters(data: Bytes)
    ensures Transcode(data, CODED_BOUND) == Transcode(data, SURROGATE_BOUND) <==> !Misread(data)
    decreases |data|
  {
    if |data| >= 2 {
      var first := UnitAt(data, 0);
      if |data| >= 4 && IsPair(first, UnitAt(data, 2), SURROGATE_BOUND) {
        BoundMatters(data[4..]);
        SamePrefix(Utf8(Combine(first, UnitAt(data, 2))),
                   Transcode(data[4..], CODED_BOUND), Transcode(data[4..], SURROGATE_BOUND));
      } else if |data| >= 4 && IsPair(first, UnitAt(data, 2), 0xffff) {
        var coded, right := Transcode(data, CODED_BOUND), Transcode(data, SURROGATE_BOUND);
        assert coded[0] == Utf8(Combine(first, UnitAt(data, 2)))[0];
        assert right[0] == Utf8(first)[0];
        assert coded[0] != right[0];
      } else {
        BoundMatters(data[2..]);
        SamePrefix(Utf8(first), Transcode(data[2..], CODED_BOUND), Transcode(data[2..], SURROGATE_BOUND));
      }
    }
  }

  /** U+E000 before a low surrogate that stands alone is misread. */
  lemma {:induction false} BoundFails()
    ensures var data: Bytes := [Byte(0xe0), Byte(0), Byte(0xdc), Byte(0)];
            && Misread(data)
            && Transcode(data, CODED_BOUND) == [Byte(0xf8), Byte(0xae), Byte(0x80), Byte(0x80)]
            && Transcode(data, SURROGATE_BOUND) ==
               [Byte(0xee), Byte(0x80), Byte(0x80), Byte(0xed), Byte(0xb0), Byte(0x80)]
  {
    var data: Bytes := [Byte(0xe0), Byte(0), Byte(0xdc), Byte(0)];
    assert UnitAt(data, 0) == 0xe000 && UnitAt(data, 2) == 0xdc00 && Combine(0xe000, 0xdc00) == 0x22e000;
    assert data[2..] == [Byte(0xdc), Byte(0)] && data[4..] == "" && data[2..][2..] == "";
    assert UnitAt(data[2..], 0) == 0xdc00;
  }

  lemma {:induction false} SamePrefix(a: string, b: string, c: string)
    ensures a + b == a + c <==> b == c
  {
    assert (a + b)[|a|..] == b;
    assert (a + c)[|a|..] == c;
  }
}
