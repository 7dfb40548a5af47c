/** File names that are UTF-8 are exactly the encodings of Unicode text (RFC 3629, section 3). */
module Utf8 {
  import opened Bytes
  import opened Trees

  /** Unicode scalar values: code points that are no surrogates. */
  predicate IsScalar(c: nat) { c < 0xD800 || 0xE000 <= c < 0x110000 }

  function Trail(c: nat): byte { 0x80 + c % 64 }

  function Encode(c: nat): (r: Text)
    requires IsScalar(c)
    ensures 1 <= |r| <= 4
  {
    if c < 0x80 then [c]
    else if c < 0x800 then [0xC0 + c / 64, Trail(c)]
    else if c < 0x10000 then [0xE0 + c / 4096, Trail(c / 64), Trail(c)]
    else [0xF0 + c / 262144, Trail(c / 4096), Trail(c / 64), Trail(c)]
  }

  predicate AllScalar(text: seq<nat>) { forall i :: 0 <= i < |text| ==> IsScalar(text[i]) }

  function EncodeAll(text: seq<nat>): Text
    requires AllScalar(text)
  {
    if text == [] then [] else Encode(text[0]) + EncodeAll(text[1..])
  }

  lemma Shifts(c: nat)
    ensures c / 4096 == c / 64 / 64 && c / 262144 == c / 4096 / 64
  {
  }

  lemma EncodeIsValid(c: nat, rest: Text)
    requires IsScalar(c)
    ensures ValidUtf8(Encode(c) + rest) <==> ValidUtf8(rest)
  {
    var s := Encode(c) + rest;
    Shifts(c);
    assert s[|Encode(c)|..] == rest;
  }

  lemma TwoDigits(h: nat, l: nat)
    requires l < 64
    ensures (64 * h + l) / 64 == h && (64 * h + l) % 64 == l
  {
  }

  /** Two, three and four bytes that are well-formed encode something. */
  lemma TwoBytes(b0: byte, b1: byte) returns (c: nat)
    requires 0xC2 <= b0 < 0xE0 && IsContinuation(b1)
    ensures IsScalar(c) && Encode(c) == [b0, b1]
  {
    var h: nat := b0 as int - 0xC0;
    var l: nat := b1 as int - 0x80;
    TwoDigits(h, l);
    c := 64 * h + l;
  }

  lemma ThreeBytes(b0: byte, b1: byte, b2: byte) returns (c: nat)
    requires 0xE0 <= b0 < 0xF0 && IsContinuation(b1) && IsContinuation(b2)
    requires (b0 == 0xE0 ==> b1 >= 0xA0) && (b0 == 0xED ==> b1 < 0xA0)
    ensures IsScalar(c) && Encode(c) == [b0, b1, b2]
  {
    var h: nat := b0 as int - 0xE0;
    var m: nat := b1 as int - 0x80;
    var l: nat := b2 as int - 0x80;
    TwoDigits(h, m);
    TwoDigits(64 * h + m, l);
    c := 64 * (64 * h + m) + l;
    Shifts(c);
  }

  lemma FourBytes(b0: byte, b1: byte, b2: byte, b3: byte) returns (c: nat)
    requires 0xF0 <= b0 < 0xF5 && IsContinuation(b1) && IsContinuation(b2) && IsContinuation(b3)
    requires (b0 == 0xF0 ==> b1 >= 0x90) && (b0 == 0xF4 ==> b1 < 0x90)
    ensures IsScalar(c) && Encode(c) == [b0, b1, b2, b3]
  {
    var h: nat := b0 as int - 0xF0;
    var m: nat := b1 as int - 0x80;
    var n: nat := b2 as int - 0x80;
    var l: nat := b3 as int - 0x80;
    TwoDigits(h, m);
    TwoDigits(64 * h + m, n);
    TwoDigits(64 * (64 * h + m) + n, l);
    c := 64 * (64 * (64 * h + m) + n) + l;
    Shifts(c);
  }

  /** The scalar value a valid string begins with. */
  lemma FirstScalar(s: Text) returns (c: nat)
    requires s != [] && ValidUtf8(s)
    ensures IsScalar(c) && Encode(c) <= s && ValidUtf8(s[|Encode(c)|..])
  {
    if s[0] < 0x80 {
      c := s[0];
    } else if s[0] < 0xE0 {
      c := TwoBytes(s[0], s[1]);
    } else if s[0] < 0xF0 {
      c := ThreeBytes(s[0], s[1], s[2]);
    } else {
      c := FourBytes(s[0], s[1], s[2], s[3]);
    }
  }

  lemma {:induction false} EncodingIsValid(text: seq<nat>)
    requires AllScalar(text)
    ensures ValidUtf8(EncodeAll(text))
  {
    if text != [] {
      EncodingIsValid(text[1..]);
      EncodeIsValid(text[0], EncodeAll(text[1..]));
    }
  }

  lemma {:induction false} ValidIsEncoding(s: Text) returns (text: seq<nat>)
    requires ValidUtf8(s)
    ensures AllScalar(text) && EncodeAll(text) == s
    decreases |s|
  {
    if s == [] {
      text := [];
    } else {
      var c := FirstScalar(s);
      var rest := ValidIsEncoding(s[|Encode(c)|..]);
      text := [c] + rest;
      assert text[1..] == rest;
      assert s == Encode(c) + s[|Encode(c)|..];
    }
  }

  /** The names a layer admits are exactly the encodings of text. */
  lemma ValidExactly(s: Text)
    ensures ValidUtf8(s) <==> exists text :: AllScalar(text) && EncodeAll(text) == s
  {
    if ValidUtf8(s) {
      var text := ValidIsEncoding(s);
    }
    if text :| AllScalar(text) && EncodeAll(text) == s {
      EncodingIsValid(text);
    }
  }
}
