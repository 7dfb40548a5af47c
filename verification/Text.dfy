/**
 Strings as the source sees them: sequences of Unicode scalar values whose
 length is counted in UTF-8 bytes, with the character classes and the splitting
 operations of the Rust standard library that the validators rely on.
 */
module Text {
  import opened Wrappers

  function Utf8Len(c: char): (n: nat)
    ensures 1 <= n <= 4
  {
    var code := c as int;
    if code < 0x80 then 1 else if code < 0x800 then 2 else if code < 0x10000 then 3 else 4
  }

  /** `str::len`. */
  function ByteLen(s: string): (n: nat)
    ensures n >= |s|
  {
    if s == [] then 0 else Utf8Len(s[0]) + ByteLen(s[1..])
  }

  predicate IsAscii(s: string) {
    forall i :: 0 <= i < |s| ==> s[i] as int < 0x80
  }

  lemma {:induction false} ByteLenConcat(a: string, b: string)
    ensures ByteLen(a + b) == ByteLen(a) + ByteLen(b)
  {
    if a == [] {
      assert a + b == b;
    } else {
      assert (a + b)[1..] == a[1..] + b;
      ByteLenConcat(a[1..], b);
    }
  }

  lemma {:induction false} ByteLenAscii(s: string)
    requires IsAscii(s)
    ensures ByteLen(s) == |s|
  {
    if s != [] {
      ByteLenAscii(s[1..]);
    }
  }

  /** `char::is_whitespace`: the Unicode property White_Space. */
  predicate IsWhitespace(c: char) {
    var u := c as int;
    || 0x09 <= u <= 0x0D || u == 0x20 || u == 0x85 || u == 0xA0 || u == 0x1680
    || 0x2000 <= u <= 0x200A || u == 0x2028 || u == 0x2029 || u == 0x202F || u == 0x205F || u == 0x3000
  }

  /** `char::is_control`: the general category Cc. */
  predicate IsControl(c: char) {
    var u := c as int;
    u < 0x20 || 0x7F <= u < 0xA0
  }

  function TrimStart(s: string): string {
    if s != "" && IsWhitespace(s[0]) then TrimStart(s[1..]) else s
  }

  function TrimEnd(s: string): string {
    if s != "" && IsWhitespace(s[|s| - 1]) then TrimEnd(s[..|s| - 1]) else s
  }

  /** `str::trim`. */
  function Trim(s: string): string { TrimEnd(TrimStart(s)) }

  predicate Blank(s: string) { forall i :: 0 <= i < |s| ==> IsWhitespace(s[i]) }

  predicate Trimmed(s: string) { s != "" ==> !IsWhitespace(s[0]) && !IsWhitespace(s[|s| - 1]) }

  lemma {:induction false} TrimStartAfter(before: string, rest: string)
    requires Blank(before)
    ensures TrimStart(before + rest) == TrimStart(rest)
    decreases |before|
  {
    if before == "" {
      assert before + rest == rest;
    } else {
      assert (before + rest)[1..] == before[1..] + rest;
      TrimStartAfter(before[1..], rest);
    }
  }

  lemma {:induction false} TrimEndBefore(rest: string, after: string)
    requires Blank(after)
    ensures TrimEnd(rest + after) == TrimEnd(rest)
    decreases |after|
  {
    if after == "" {
      assert rest + after == rest;
    } else {
      assert (rest + after)[..|rest + after| - 1] == rest + after[..|after| - 1];
      TrimEndBefore(rest, after[..|after| - 1]);
    }
  }

  lemma BlankTrims(s: string)
    requires Blank(s)
    ensures Trim(s) == ""
  {
    TrimStartAfter(s, "");
    assert s + "" == s;
  }

  /** Trimming undoes any blank text put around a string that neither begins nor ends blank. */
  lemma TrimUndoes(before: string, s: string, after: string)
    requires Blank(before) && Blank(after) && Trimmed(s)
    ensures Trim(before + s + after) == s
  {
    if s == "" {
      assert Blank(before + s + after);
      BlankTrims(before + s + after);
    } else {
      assert before + s + after == before + (s + after);
      TrimStartAfter(before, s + after);
      TrimEndBefore(s, after);
    }
  }

  predicate NoWhitespace(s: string) { forall i :: 0 <= i < |s| ==> !IsWhitespace(s[i]) }

  predicate NoControl(s: string) { forall i :: 0 <= i < |s| ==> !IsControl(s[i]) }

  lemma PlainAsciiConcat(a: string, b: string)
    requires IsAscii(a) && IsAscii(b) && NoControl(a) && NoControl(b)
    ensures IsAscii(a + b) && NoControl(a + b)
  {
    var s := a + b;
    assert forall i :: 0 <= i < |a| ==> s[i] == a[i];
    assert forall i :: 0 <= i < |b| ==> s[|a| + i] == b[i];
  }

  predicate IsLower(c: char) { 'a' <= c <= 'z' }

  predicate IsUpper(c: char) { 'A' <= c <= 'Z' }

  predicate IsDigit(c: char) { '0' <= c <= '9' }

  predicate IsAlphanumeric(c: char) { IsLower(c) || IsUpper(c) || IsDigit(c) }

  predicate IsLowerHex(c: char) { IsDigit(c) || 'a' <= c <= 'f' }

  function LowerChar(c: char): char {
    if IsUpper(c) then (c as int + 32) as char else c
  }

  /** `to_ascii_lowercase`. */
  function Lower(s: string): (r: string)
    ensures |r| == |s| && forall i :: 0 <= i < |s| ==> r[i] == LowerChar(s[i])
  {
    seq(|s|, i requires 0 <= i < |s| => LowerChar(s[i]))
  }

  predicate MatchAt(s: string, pattern: string, i: nat) {
    i + |pattern| <= |s| && s[i..i + |pattern|] == pattern
  }

  /** The last match starting below `end`. */
  function RFindBelow(s: string, pattern: string, end: nat): (r: Option<nat>)
    ensures r.Some? ==> r.value < end && MatchAt(s, pattern, r.value)
    ensures r.Some? ==> forall j :: r.value < j < end ==> !MatchAt(s, pattern, j)
    ensures r.None? ==> forall j :: 0 <= j < end ==> !MatchAt(s, pattern, j)
  {
    if end == 0 then None
    else if MatchAt(s, pattern, end - 1) then Some(end - 1)
    else RFindBelow(s, pattern, end - 1)
  }

  /** `str::rsplit_once`. */
  function RSplitOnce(s: string, pattern: string): (r: Option<(string, string)>)
    ensures r.Some? ==> s == r.value.0 + pattern + r.value.1
  {
    match RFindBelow(s, pattern, |s| + 1)
    case None => None
    case Some(i) => Some((s[..i], s[i + |pattern|..]))
  }

  /** The right part returned by `RSplitOnce` is fixed by where the pattern can still match. */
  lemma RSplitOnceAt(left: string, pattern: string, right: string)
    requires pattern != [] && forall i :: 0 <= i < |right| ==> right[i] != pattern[0]
    requires forall i :: 0 < i < |pattern| ==> pattern[i] != pattern[0]
    ensures RSplitOnce(left + pattern + right, pattern) == Some((left, right))
  {
    var s := left + pattern + right;
    assert s[|left|..|left| + |pattern|] == pattern;
    assert MatchAt(s, pattern, |left|);
    forall j: nat | |left| < j
      ensures !MatchAt(s, pattern, j)
    {
      if j + |pattern| <= |s| {
        assert s[j] == if j < |left| + |pattern| then pattern[j - |left|] else right[j - |left| - |pattern|];
        assert s[j..j + |pattern|][0] == s[j] != pattern[0];
      }
    }
    var r := RFindBelow(s, pattern, |s| + 1);
    assert r == Some(|left|);
    assert s[..|left|] == left;
    assert s[|left| + |pattern|..] == right;
  }

  function Find(s: string, c: char): (r: Option<nat>)
    ensures r.Some? ==> r.value < |s| && s[r.value] == c
    ensures r.Some? ==> forall j :: 0 <= j < r.value ==> s[j] != c
    ensures r.None? <==> c !in s
  {
    if s == [] then None
    else if s[0] == c then Some(0)
    else match Find(s[1..], c) case None => None case Some(i) => Some(i + 1)
  }

  /** `str::split_once` on one character. */
  function SplitOnce(s: string, c: char): (r: Option<(string, string)>)
    ensures r.Some? ==> s == r.value.0 + [c] + r.value.1 && c !in r.value.0
    ensures r.None? <==> c !in s
  {
    match Find(s, c)
    case None => None
    case Some(i) => Some((s[..i], s[i + 1..]))
  }

  lemma SplitOnceAt(left: string, c: char, right: string)
    requires c !in left
    ensures SplitOnce(left + [c] + right, c) == Some((left, right))
  {
    var s := left + [c] + right;
    assert s[|left|] == c;
    assert forall j :: 0 <= j < |left| ==> s[j] == left[j];
    assert Find(s, c) == Some(|left|);
    assert s[..|left|] == left && s[|left| + 1..] == right;
  }

  /** `str::split` on one character; always at least one part. */
  function Split(s: string, c: char): (parts: seq<string>)
    ensures |parts| >= 1
    ensures forall i :: 0 <= i < |parts| ==> c !in parts[i]
    decreases |s|
  {
    match Find(s, c)
    case None => [s]
    case Some(i) => [s[..i]] + Split(s[i + 1..], c)
  }

  lemma SplitFirst(left: string, c: char, right: string)
    requires c !in left
    ensures Split(left + [c] + right, c) == [left] + Split(right, c)
  {
    SplitOnceAt(left, c, right);
    var s := left + [c] + right;
    assert Find(s, c).Some?;
    assert s[..Find(s, c).value] == left;
  }

  lemma SplitNone(s: string, c: char)
    requires c !in s
    ensures Split(s, c) == [s]
  {
  }

  function Join(parts: seq<string>, c: char): string
    requires parts != []
  {
    if |parts| == 1 then parts[0] else parts[0] + [c] + Join(parts[1..], c)
  }

  /** Splitting loses nothing. */
  lemma {:induction false} JoinSplit(s: string, c: char)
    ensures Join(Split(s, c), c) == s
    decreases |s|
  {
    match Find(s, c)
    case None =>
    case Some(i) =>
      JoinSplit(s[i + 1..], c);
      assert Split(s, c)[1..] == Split(s[i + 1..], c);
      assert s == s[..i] + [c] + s[i + 1..];
  }

  predicate InSome(parts: seq<string>, x: char) { exists i :: 0 <= i < |parts| && x in parts[i] }

  lemma InSomeCons(head: string, rest: seq<string>, x: char)
    ensures InSome([head] + rest, x) <==> x in head || InSome(rest, x)
  {
    var parts := [head] + rest;
    if k :| 0 <= k < |rest| && x in rest[k] {
      assert parts[k + 1] == rest[k];
    }
    if x in head {
      assert x in parts[0];
    }
  }

  /** Every character of a part is a character of the whole, and conversely
      apart from the separator. */
  lemma {:induction false} SplitChars(s: string, c: char, x: char)
    requires x != c
    ensures x in s <==> InSome(Split(s, c), x)
    decreases |s|
  {
    match Find(s, c)
    case None =>
      InSomeCons(s, [], x);
    case Some(i) =>
      SplitChars(s[i + 1..], c, x);
      InSomeCons(s[..i], Split(s[i + 1..], c), x);
      assert s == s[..i] + [c] + s[i + 1..];
  }
}
