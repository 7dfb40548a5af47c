/**
 The ustar writer of the packer, and a reader written from the "ustar
 Interchange Format" section of the pax utility in IEEE Std 1003.1.
 */
module Ustar {
  import opened Wrappers
  import opened Bytes

  const BLOCK: nat := 512

  const FILE: byte := 48        // typeflag '0'
  const DIRECTORY: byte := 53   // typeflag '5'

  // ----- numeric fields

  function Pow8(n: nat): (r: nat)
    ensures r > 0
  {
    if n == 0 then 1 else 8 * Pow8(n - 1)
  }

  const MODE_LIMIT: nat := 0x20_0000        // seven octal digits
  const SIZE_LIMIT: nat := 0x2_0000_0000    // eleven octal digits

  lemma FieldLimits()
    ensures Pow8(7) == MODE_LIMIT && Pow8(11) == SIZE_LIMIT
  {
  }

  /** `{value:0width$o}` for a value that fits. */
  function OctalDigits(value: nat, width: nat): (r: seq<byte>)
    ensures |r| == width
    ensures forall i :: 0 <= i < width ==> 48 <= r[i] < 56
  {
    if width == 0 then [] else OctalDigits(value / 8, width - 1) + [48 + value % 8]
  }

  function OctalValue(digits: seq<byte>): nat
    requires forall i :: 0 <= i < |digits| ==> 48 <= digits[i] < 56
  {
    if digits == [] then 0 else 8 * OctalValue(digits[..|digits| - 1]) + (digits[|digits| - 1] - 48)
  }

  lemma {:induction false} OctalRoundTrip(value: nat, width: nat)
    requires value < Pow8(width)
    ensures OctalValue(OctalDigits(value, width)) == value
  {
    if width > 0 {
      OctalRoundTrip(value / 8, width - 1);
      assert OctalDigits(value, width)[..width - 1] == OctalDigits(value / 8, width - 1);
    }
  }

  function OctalField(value: nat, width: nat): (r: seq<byte>)
    requires width > 0
    ensures |r| == width
  {
    OctalDigits(value, width - 1) + [0]
  }

  /** `octal`: digits and a terminating NUL. The source panics on a value that
      does not fit, so fitting is the caller's duty. */
  method Octal(block: array<byte>, lo: nat, hi: nat, value: nat)
    requires lo < hi <= block.Length && value < Pow8(hi - lo - 1)
    modifies block
    ensures block[..] == Overlay(old(block[..]), lo, OctalField(value, hi - lo))
  {
    var digits := OctalDigits(value, hi - lo - 1);
    CopyInto(block, lo, digits);
    block[lo + |digits|] := 0;
  }

  // ----- splitting a path over name and prefix

  predicate LegalSplit(path: Text, i: int) {
    0 <= i < |path| && path[i] == SLASH && i <= 155 && |path| - i - 1 <= 100 && i + 1 < |path|
  }

  /** The rightmost legal split below `end`. */
  function LastSplit(path: Text, end: nat): (r: Option<nat>)
    requires end <= |path|
    ensures r.Some? ==> r.value < end && LegalSplit(path, r.value)
    ensures r.Some? ==> forall j :: r.value < j < end ==> !LegalSplit(path, j)
    ensures r.None? ==> forall j :: 0 <= j < end ==> !LegalSplit(path, j)
  {
    if end == 0 then None
    else if LegalSplit(path, end - 1) then Some(end - 1)
    else LastSplit(path, end - 1)
  }

  datatype Split = Split(prefix: Text, name: Text)

  function SplitPath(path: Text): (r: Option<Split>)
    ensures r.Some? ==> |r.value.prefix| <= 155 && |r.value.name| <= 100
  {
    if |path| <= 100 then Some(Split([], path))
    else
      match LastSplit(path, |path|)
      case None => None
      case Some(i) => Some(Split(path[..i], path[i + 1..]))
  }

  /** `split_name`, with its scanning loop: it fails exactly when a long path has
      no legal split, and otherwise splits at the rightmost one. */
  method SplitName(path: Text) returns (r: Option<Split>)
    ensures r == SplitPath(path)
    ensures r.None? <==> |path| > 100 && forall i :: !LegalSplit(path, i)
    ensures r.Some? && |path| > 100 ==>
      && LegalSplit(path, |r.value.prefix|)
      && path == r.value.prefix + [SLASH] + r.value.name
      && forall j :: |r.value.prefix| < j ==> !LegalSplit(path, j)
  {
    if |path| <= 100 {
      return Some(Split([], path));
    }
    var split: Option<nat> := None;
    for index := 0 to |path|
      invariant split == LastSplit(path, index)
    {
      if path[index] == SLASH && index <= 155 && |path| - index - 1 <= 100 && index + 1 < |path| {
        split := Some(index);
      }
    }
    match split
    case Some(index) => r := Some(Split(path[..index], path[index + 1..]));
    case None => r := None;
  }

  /** How a reader puts the two fields back together. */
  function Rejoin(s: Split): Text {
    if s.prefix == [] then s.name else s.prefix + [SLASH] + s.name
  }

  /** The one family of paths a split does not preserve: 101 bytes, rooted, and
      with no slash to split at other than the leading one. */
  predicate LosesRoot(path: Text) {
    |path| == 101 && path[0] == SLASH && forall i :: 1 <= i < 100 ==> path[i] != SLASH
  }

  /** The reader recovers a path exactly when it is not in that family. */
  lemma SplitPreservesExactly(path: Text)
    requires SplitPath(path).Some?
    ensures Rejoin(SplitPath(path).value) == path <==> !LosesRoot(path)
  {
    if |path| > 100 {
      var i := LastSplit(path, |path|).value;
      assert path[..i] + [SLASH] + path[i + 1..] == path;
      if i == 0 {
        assert |path| == 101;
        forall j | 1 <= j < 100
          ensures path[j] != SLASH
        {
          assert !LegalSplit(path, j);
        }
        assert |Rejoin(SplitPath(path).value)| == 100;
      }
    }
  }

  // ----- headers

  const MAGIC: seq<byte> := [117, 115, 116, 97, 114, 0]   // "ustar" NUL
  const VERSION: seq<byte> := [48, 48]

  /** Mode, uid, gid, size and mtime. */
  function Numbered(b: seq<byte>, mode: nat, size: nat): (r: seq<byte>)
    requires |b| == BLOCK
    ensures |r| == BLOCK
  {
    var b := Overlay(b, 100, OctalField(mode, 8));
    var b := Overlay(b, 108, OctalField(0, 8));
    var b := Overlay(b, 116, OctalField(0, 8));
    var b := Overlay(b, 124, OctalField(size, 12));
    Overlay(b, 136, OctalField(0, 12))
  }

  /** Blank checksum, type, magic and version. */
  function Marked(b: seq<byte>, typeflag: byte): (r: seq<byte>)
    requires |b| == BLOCK
    ensures |r| == BLOCK
  {
    var b := Overlay(b, 148, Spaces(8));
    var b := Overlay(b, 156, [typeflag]);
    var b := Overlay(b, 257, MAGIC);
    Overlay(b, 263, VERSION)
  }

  /** The header while its checksum field still counts as spaces. */
  function Unsummed(s: Split, mode: nat, size: nat, typeflag: byte): (b: seq<byte>)
    requires |s.prefix| <= 155 && |s.name| <= 100
    ensures |b| == BLOCK
  {
    Overlay(Marked(Numbered(Overlay(Zeros(BLOCK), 0, s.name), mode, size), typeflag), 345, s.prefix)
  }

  /** `format!("{sum:06o}\0 ")`. */
  function ChecksumField(sum: nat): (r: seq<byte>)
    ensures |r| == 8
  {
    OctalDigits(sum, 6) + [0, 32]
  }

  function HeaderBlock(s: Split, mode: nat, size: nat, typeflag: byte): (b: seq<byte>)
    requires |s.prefix| <= 155 && |s.name| <= 100
    ensures |b| == BLOCK
  {
    var b := Unsummed(s, mode, size, typeflag);
    Overlay(b, 148, ChecksumField(Sum(b)))
  }

  /** `header`. Modes and sizes that overrun their fields make the source panic. */
  method Header(path: Text, mode: nat, size: nat, typeflag: byte) returns (r: Option<array<byte>>)
    requires mode < MODE_LIMIT && size < SIZE_LIMIT
    ensures r.None? <==> SplitPath(path).None?
    ensures r.Some? ==> fresh(r.value) && r.value[..] == HeaderBlock(SplitPath(path).value, mode, size, typeflag)
  {
    var split := SplitName(path);
    if split.None? {
      return None;
    }
    var block := new byte[BLOCK](_ => 0);
    assert block[..] == Zeros(BLOCK);
    CopyInto(block, 0, split.value.name);
    FillNumbers(block, mode, size);
    FillConstants(block, typeflag);
    CopyInto(block, 345, split.value.prefix);
    CopyInto(block, 148, ChecksumField(Sum(block[..])));
    return Some(block);
  }

  method FillNumbers(block: array<byte>, mode: nat, size: nat)
    requires block.Length == BLOCK && mode < MODE_LIMIT && size < SIZE_LIMIT
    modifies block
    ensures block[..] == Numbered(old(block[..]), mode, size)
  {
    FieldLimits();
    Octal(block, 100, 108, mode);
    Octal(block, 108, 116, 0);
    Octal(block, 116, 124, 0);
    Octal(block, 124, 136, size);
    Octal(block, 136, 148, 0);
  }

  method FillConstants(block: array<byte>, typeflag: byte)
    requires block.Length == BLOCK
    modifies block
    ensures block[..] == Marked(old(block[..]), typeflag)
  {
    CopyInto(block, 148, Spaces(8));
    CopyInto(block, 156, [typeflag]);
    CopyInto(block, 257, MAGIC);
    CopyInto(block, 263, VERSION);
  }

  // ----- the reader of the standard

  predicate IsOctalDigit(b: byte) { 48 <= b < 56 }

  predicate IsTerminator(b: byte) { b == 0 || b == 32 }

  function LeadingDigits(field: seq<byte>): (n: nat)
    ensures n <= |field| && forall i :: 0 <= i < n ==> IsOctalDigit(field[i])
    ensures n < |field| ==> !IsOctalDigit(field[n])
  {
    if field == [] || !IsOctalDigit(field[0]) then 0 else 1 + LeadingDigits(field[1..])
  }

  /** Octal digits ended by one or more NULs or spaces. */
  function ReadNumber(field: seq<byte>): Option<nat> {
    var n := LeadingDigits(field);
    if n < |field| && forall i :: n <= i < |field| ==> IsTerminator(field[i])
    then Some(OctalValue(field[..n])) else None
  }

  /** A NUL-terminated string, or the whole field when it is full. */
  function ReadText(field: seq<byte>): Text {
    if field == [] || field[0] == 0 then [] else [field[0]] + ReadText(field[1..])
  }

  datatype Member = Member(path: Text, typeflag: byte, mode: nat, size: nat)

  function ReadHeader(b: seq<byte>): Option<Member>
    requires |b| == BLOCK
  {
    if b[257..262] != Ascii("ustar") || b[262] != 0 || b[263..265] != Ascii("00") then None
    else
      match ReadNumber(b[148..156])
      case None => None
      case Some(stated) =>
        if Sum(Overlay(b, 148, Spaces(8))) != stated then None
        else
          match (ReadNumber(b[100..108]), ReadNumber(b[124..136]))
          case (Some(mode), Some(size)) =>
            Some(Member(Rejoin(Split(ReadText(b[345..500]), ReadText(b[0..100]))), b[156], mode, size))
          case _ => None
  }

  // ----- reading back a header

  lemma {:induction false} DigitsLead(digits: seq<byte>, rest: seq<byte>)
    requires forall i :: 0 <= i < |digits| ==> IsOctalDigit(digits[i])
    requires rest != [] && !IsOctalDigit(rest[0])
    ensures LeadingDigits(digits + rest) == |digits|
  {
    if digits == [] {
      assert digits + rest == rest;
    } else {
      assert (digits + rest)[1..] == digits[1..] + rest;
      DigitsLead(digits[1..], rest);
    }
  }

  lemma NumberRoundTrip(value: nat, width: nat, rest: seq<byte>)
    requires value < Pow8(width)
    requires rest != [] && forall i :: 0 <= i < |rest| ==> IsTerminator(rest[i])
    ensures ReadNumber(OctalDigits(value, width) + rest) == Some(value)
  {
    var digits := OctalDigits(value, width);
    DigitsLead(digits, rest);
    OctalRoundTrip(value, width);
    assert (digits + rest)[..width] == digits;
  }

  lemma {:induction false} TextRoundTrip(text: Text, n: nat)
    requires 0 !in text
    ensures ReadText(text + Zeros(n)) == text
  {
    if text == [] {
      assert text + Zeros(n) == Zeros(n);
    } else {
      assert (text + Zeros(n))[1..] == text[1..] + Zeros(n);
      TextRoundTrip(text[1..], n);
    }
  }

  /** Six octal digits always hold the checksum. */
  lemma ChecksumFits(b: seq<byte>)
    requires |b| == BLOCK
    ensures Sum(b) <= 130560 < Pow8(6)
  {
    assert Pow8(6) == 262144;
  }

  lemma NumericFields(s: Split, mode: nat, size: nat, typeflag: byte)
    requires |s.prefix| <= 155 && |s.name| <= 100
    ensures var b := Unsummed(s, mode, size, typeflag);
      && b[100..108] == OctalField(mode, 8)
      && b[124..136] == OctalField(size, 12)
      && b[148..156] == Spaces(8)
      && b[156] == typeflag
      && b[257..263] == MAGIC
      && b[263..265] == VERSION
  {
    var b0 := Overlay(Zeros(BLOCK), 0, s.name);
    var b1 := Numbered(b0, mode, size);
    assert b1[100..108] == OctalField(mode, 8) && b1[124..136] == OctalField(size, 12);
    var b2 := Marked(b1, typeflag);
    assert b2[100..108] == b1[100..108] && b2[124..136] == b1[124..136];
    OutsideUnchanged(b2, 345, s.prefix, 100, 108);
    OutsideUnchanged(b2, 345, s.prefix, 124, 136);
  }

  lemma TextFields(s: Split, mode: nat, size: nat, typeflag: byte)
    requires |s.prefix| <= 155 && |s.name| <= 100
    ensures var b := Unsummed(s, mode, size, typeflag);
      && b[0..100] == s.name + Zeros(100 - |s.name|)
      && b[345..500] == s.prefix + Zeros(155 - |s.prefix|)
  {
  }

  /** The checksum field reads back, and blanking it restores what was summed. */
  lemma ChecksumReadsBack(b: seq<byte>)
    requires |b| == BLOCK && b[148..156] == Spaces(8)
    ensures var h := Overlay(b, 148, ChecksumField(Sum(b)));
      && ReadNumber(h[148..156]) == Some(Sum(b))
      && Overlay(h, 148, Spaces(8)) == b
  {
    var h := Overlay(b, 148, ChecksumField(Sum(b)));
    ChecksumFits(b);
    NumberRoundTrip(Sum(b), 6, [0, 32]);
    assert h[148..156] == ChecksumField(Sum(b));
    assert forall i :: 148 <= i < 156 ==> b[i] == b[148..156][i - 148];
    assert Overlay(h, 148, Spaces(8)) == b;
  }

  lemma OutsideUnchanged(b: seq<byte>, at: nat, data: seq<byte>, lo: nat, hi: nat)
    requires at + |data| <= |b| && lo <= hi <= |b| && (hi <= at || at + |data| <= lo)
    ensures Overlay(b, at, data)[lo..hi] == b[lo..hi]
  {
  }

  /** The fields of a finished header, as a reader slices them. */
  lemma HeaderFields(s: Split, mode: nat, size: nat, typeflag: byte)
    requires |s.prefix| <= 155 && |s.name| <= 100
    ensures var h := HeaderBlock(s, mode, size, typeflag);
      && h[0..100] == s.name + Zeros(100 - |s.name|)
      && h[100..108] == OctalField(mode, 8)
      && h[124..136] == OctalField(size, 12)
      && h[156] == typeflag
      && h[257..263] == MAGIC
      && h[263..265] == VERSION
      && h[345..500] == s.prefix + Zeros(155 - |s.prefix|)
  {
    var b := Unsummed(s, mode, size, typeflag);
    var sum := ChecksumField(Sum(b));
    NumericFields(s, mode, size, typeflag);
    TextFields(s, mode, size, typeflag);
    OutsideUnchanged(b, 148, sum, 0, 100);
    OutsideUnchanged(b, 148, sum, 100, 108);
    OutsideUnchanged(b, 148, sum, 124, 136);
    OutsideUnchanged(b, 148, sum, 257, 263);
    OutsideUnchanged(b, 148, sum, 263, 265);
    OutsideUnchanged(b, 148, sum, 345, 500);
  }

  lemma HeaderChecksum(s: Split, mode: nat, size: nat, typeflag: byte)
    requires |s.prefix| <= 155 && |s.name| <= 100
    ensures var h := HeaderBlock(s, mode, size, typeflag);
      ReadNumber(h[148..156]) == Some(Sum(Overlay(h, 148, Spaces(8))))
  {
    NumericFields(s, mode, size, typeflag);
    ChecksumReadsBack(Unsummed(s, mode, size, typeflag));
  }

  lemma FieldsReadAsNumbers(mode: nat, size: nat)
    requires mode < MODE_LIMIT && size < SIZE_LIMIT
    ensures ReadNumber(OctalField(mode, 8)) == Some(mode) && ReadNumber(OctalField(size, 12)) == Some(size)
  {
    FieldLimits();
    NumberRoundTrip(mode, 7, [0]);
    NumberRoundTrip(size, 11, [0]);
  }

  lemma MagicReads(h: seq<byte>)
    requires |h| == BLOCK && h[257..263] == MAGIC && h[263..265] == VERSION
    ensures h[257..262] == Ascii("ustar") && h[262] == 0 && h[263..265] == Ascii("00")
  {
    var magic := Ascii("ustar");
    assert magic == [117, 115, 116, 97, 114];
    assert h[257..262] == h[257..263][..5] && h[262] == h[257..263][5];
    assert Ascii("00") == [48, 48];
  }

  lemma FieldsRead(h: seq<byte>, s: Split, mode: nat, size: nat, typeflag: byte)
    requires |h| == BLOCK && |s.prefix| <= 155 && |s.name| <= 100 && 0 !in s.prefix && 0 !in s.name
    requires mode < MODE_LIMIT && size < SIZE_LIMIT
    requires h[0..100] == s.name + Zeros(100 - |s.name|) && h[345..500] == s.prefix + Zeros(155 - |s.prefix|)
    requires h[100..108] == OctalField(mode, 8) && h[124..136] == OctalField(size, 12)
    requires h[156] == typeflag && h[257..263] == MAGIC && h[263..265] == VERSION
    requires ReadNumber(h[148..156]) == Some(Sum(Overlay(h, 148, Spaces(8))))
    ensures ReadHeader(h) == Some(Member(Rejoin(s), typeflag, mode, size))
  {
    FieldsReadAsNumbers(mode, size);
    MagicReads(h);
    TextRoundTrip(s.name, 100 - |s.name|);
    TextRoundTrip(s.prefix, 155 - |s.prefix|);
  }

  /** Reading a written header gives back the mode, size, type and rejoined path. */
  lemma HeaderRoundTrip(s: Split, mode: nat, size: nat, typeflag: byte)
    requires |s.prefix| <= 155 && |s.name| <= 100 && 0 !in s.prefix && 0 !in s.name
    requires mode < MODE_LIMIT && size < SIZE_LIMIT
    ensures ReadHeader(HeaderBlock(s, mode, size, typeflag)) == Some(Member(Rejoin(s), typeflag, mode, size))
  {
    HeaderFields(s, mode, size, typeflag);
    HeaderChecksum(s, mode, size, typeflag);
    FieldsRead(HeaderBlock(s, mode, size, typeflag), s, mode, size, typeflag);
  }

  lemma FixedNumbers(b: seq<byte>, mode: nat, size: nat)
    requires |b| == BLOCK
    ensures var n := Numbered(b, mode, size);
      n[108..116] == OctalField(0, 8) && n[116..124] == OctalField(0, 8) && n[136..148] == OctalField(0, 12)
  {
    var b1 := Overlay(b, 100, OctalField(mode, 8));
    var b2 := Overlay(b1, 108, OctalField(0, 8));
    var b3 := Overlay(b2, 116, OctalField(0, 8));
    var b4 := Overlay(b3, 124, OctalField(size, 12));
    OutsideUnchanged(b2, 116, OctalField(0, 8), 108, 116);
    OutsideUnchanged(b3, 124, OctalField(size, 12), 108, 116);
    OutsideUnchanged(b3, 124, OctalField(size, 12), 116, 124);
    OutsideUnchanged(b4, 136, OctalField(0, 12), 108, 116);
    OutsideUnchanged(b4, 136, OctalField(0, 12), 116, 124);
  }

  lemma MarkedKeeps(b: seq<byte>, typeflag: byte, lo: nat, hi: nat)
    requires |b| == BLOCK && lo <= hi <= 148
    ensures Marked(b, typeflag)[lo..hi] == b[lo..hi]
  {
  }

  lemma FixedFields(s: Split, mode: nat, size: nat, typeflag: byte, lo: nat, hi: nat)
    requires |s.prefix| <= 155 && |s.name| <= 100 && lo <= hi <= 148
    ensures HeaderBlock(s, mode, size, typeflag)[lo..hi]
         == Numbered(Overlay(Zeros(BLOCK), 0, s.name), mode, size)[lo..hi]
  {
    var n := Numbered(Overlay(Zeros(BLOCK), 0, s.name), mode, size);
    var b := Unsummed(s, mode, size, typeflag);
    MarkedKeeps(n, typeflag, lo, hi);
    OutsideUnchanged(Marked(n, typeflag), 345, s.prefix, lo, hi);
    OutsideUnchanged(b, 148, ChecksumField(Sum(b)), lo, hi);
  }

  /** Every header says owner 0, group 0 and time 0, so none of them can make two layers
      of one tree differ. */
  lemma OwnerAndTimeAreZero(s: Split, mode: nat, size: nat, typeflag: byte)
    requires |s.prefix| <= 155 && |s.name| <= 100
    ensures var h := HeaderBlock(s, mode, size, typeflag);
      ReadNumber(h[108..116]) == Some(0) && ReadNumber(h[116..124]) == Some(0) && ReadNumber(h[136..148]) == Some(0)
  {
    FixedNumbers(Overlay(Zeros(BLOCK), 0, s.name), mode, size);
    FixedFields(s, mode, size, typeflag, 108, 116);
    FixedFields(s, mode, size, typeflag, 116, 124);
    FixedFields(s, mode, size, typeflag, 136, 148);
    FieldsReadAsNumbers(0, 0);
  }
}
