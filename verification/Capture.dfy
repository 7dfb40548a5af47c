/** Bounded capture of a child's output: one buffer, whatever the chunking. */
module Capture {
  import opened Wrappers
  import opened Bytes

  datatype Retention = Head | Tail

  datatype Captured = Captured(bytes: seq<byte>, truncated: bool)

  /** What one `read` returns: some bytes, none at the end of the stream, or an error. */
  datatype Read = Chunk(bytes: seq<byte>) | Failed

  /** Everything read before the end of the stream or the first error. */
  function Stream(input: seq<Read>): seq<byte> {
    if input == [] || input[0].Failed? || input[0].bytes == [] then []
    else input[0].bytes + Stream(input[1..])
  }

  predicate Fails(input: seq<Read>) {
    input != [] && (input[0].Failed? || (input[0].bytes != [] && Fails(input[1..])))
  }

  function Min(a: nat, b: nat): nat { if a <= b then a else b }

  /** The first `n` bytes, and the last `n`. */
  function Take(s: seq<byte>, n: nat): (r: seq<byte>)
    ensures r <= s && |r| == Min(|s|, n)
  {
    s[..Min(|s|, n)]
  }

  function Suffix(s: seq<byte>, n: nat): (r: seq<byte>)
    ensures |r| == Min(|s|, n) && s[..|s| - |r|] + r == s
  {
    s[|s| - Min(|s|, n)..]
  }

  /** Which bytes are to be kept of a whole stream. */
  function Kept(retention: Retention, s: seq<byte>, n: nat): seq<byte> {
    if retention.Head? then Take(s, n) else Suffix(s, n)
  }

  /** Dropping from the front first makes no difference to the last bytes. */
  lemma SuffixOfSuffix(s: seq<byte>, dropped: nat, n: nat)
    requires dropped <= |s| && |s| - dropped >= Min(|s|, n)
    ensures Suffix(s[dropped..], n) == Suffix(s, n)
  {
  }

  /** After `k` reads, `seen` is what the stream gave so far. */
  ghost predicate SoFar(input: seq<Read>, k: nat, seen: seq<byte>) {
    k <= |input| && seen + Stream(input[k..]) == Stream(input) && (Fails(input[k..]) <==> Fails(input))
  }

  lemma SoFarStarts(input: seq<Read>)
    ensures SoFar(input, 0, [])
  {
    assert input[0..] == input;
  }

  lemma SoFarStep(input: seq<Read>, k: nat, seen: seq<byte>)
    requires SoFar(input, k, seen) && k < |input| && input[k].Chunk? && input[k].bytes != []
    ensures SoFar(input, k + 1, seen + input[k].bytes)
  {
    assert input[k..][1..] == input[k + 1..];
    Associates(seen, input[k].bytes, Stream(input[k + 1..]));
  }

  lemma SoFarEnds(input: seq<Read>, k: nat, seen: seq<byte>)
    requires SoFar(input, k, seen)
    ensures k == |input| || input[k] == Chunk([]) ==> seen == Stream(input) && !Fails(input)
    ensures k < |input| && input[k].Failed? ==> Fails(input)
  {
    assert seen + [] == seen;
  }

  /** What the buffer is after reading `seen`: for the head the answer so far, for
      the tail a suffix that is at most two windows long and at least one. */
  predicate Window(retention: Retention, seen: seq<byte>, held: Captured, max: nat) {
    match retention
    case Head => held.bytes == Take(seen, max) && (held.truncated <==> |seen| > max)
    case Tail =>
      && |held.bytes| <= 2 * max && |held.bytes| <= |seen| && held.bytes == seen[|seen| - |held.bytes|..]
      && (held.truncated <==> |held.bytes| < |seen|)
      && (held.truncated ==> |held.bytes| >= max && |seen| > max)
  }

  lemma HeadGrows(seen: seq<byte>, more: seq<byte>, max: nat)
    ensures Take(seen + more, max) == Take(seen, max) + more[..Min(|more|, max - |Take(seen, max)|)]
  {
  }

  lemma TailGrows(seen: seq<byte>, more: seq<byte>, n: nat)
    requires n <= |seen|
    ensures seen[|seen| - n..] + more == (seen + more)[|seen + more| - (n + |more|)..]
  {
  }

  lemma TailDrops(seen: seq<byte>, n: nat, m: nat)
    requires m <= n <= |seen|
    ensures seen[|seen| - n..][n - m..] == seen[|seen| - m..]
  {
  }

  method AbsorbHead(held: Captured, read: seq<byte>, max: nat, ghost seen: seq<byte>) returns (r: Captured)
    requires Window(Head, seen, held, max)
    ensures Window(Head, seen + read, r, max) && |r.bytes| <= max
  {
    var remaining := if max >= |held.bytes| then max - |held.bytes| else 0;
    HeadGrows(seen, read, max);
    r := Captured(held.bytes + read[..Min(|read|, remaining)], held.truncated || |read| > remaining);
  }

  lemma TailIsWindow(all: seq<byte>, bytes: seq<byte>, truncated: bool, max: nat)
    requires max <= |bytes| <= 2 * max || (|bytes| <= 2 * max && !truncated)
    requires |bytes| <= |all| && bytes == all[|all| - |bytes|..]
    requires (truncated <==> |bytes| < |all|) && (truncated ==> |all| > max)
    ensures Window(Tail, all, Captured(bytes, truncated), max)
  {
  }

  method AbsorbTail(held: Captured, read: seq<byte>, max: nat, ghost seen: seq<byte>)
    returns (r: Captured, ghost peak: nat)
    requires Window(Tail, seen, held, max)
    ensures Window(Tail, seen + read, r, max)
    ensures |held.bytes| <= peak <= 2 * max + |read| && |r.bytes| <= peak
  {
    ghost var all := seen + read;
    assert |all| == |seen| + |read|;
    TailGrows(seen, read, |held.bytes|);
    var bytes := held.bytes + read;
    peak := |bytes|;
    if |bytes| > 2 * max {
      TailDrops(all, |bytes|, max);
      var excess := |bytes| - max;
      r := Captured(bytes[excess..], true);
      assert |r.bytes| == max < |all|;
      TailIsWindow(all, r.bytes, true, max);
    } else {
      r := Captured(bytes, held.truncated);
      TailIsWindow(all, bytes, held.truncated, max);
    }
  }

  /** One chunk. */
  method Absorb(retention: Retention, held: Captured, read: seq<byte>, max: nat, ghost seen: seq<byte>)
    returns (r: Captured, ghost peak: nat)
    requires Window(retention, seen, held, max)
    ensures Window(retention, seen + read, r, max)
    ensures |r.bytes| <= peak <= Bound(retention, max, |read|)
  {
    match retention
    case Head =>
      r := AbsorbHead(held, read, max, seen);
      peak := |r.bytes|;
    case Tail =>
      r, peak := AbsorbTail(held, read, max, seen);
  }

  /** The last trim of a tail. */
  method Finish(retention: Retention, held: Captured, max: nat, ghost seen: seq<byte>) returns (r: Captured)
    requires Window(retention, seen, held, max)
    ensures r.bytes == Kept(retention, seen, max)
    ensures r.truncated <==> |seen| > max
  {
    r := held;
    if retention.Tail? {
      SuffixOfSuffix(seen, |seen| - |held.bytes|, max);
      if |held.bytes| > max {
        var excess := |held.bytes| - max;
        r := Captured(held.bytes[excess..], true);
      }
    }
  }

  function Bound(retention: Retention, max: nat, chunk: nat): nat {
    if retention.Head? then max else 2 * max + chunk
  }

  /** `capture_output`. The source's bound is one mebibyte and its chunks are at
      most 8192 bytes; both are parameters here. `peak` is the largest buffer held. */
  method CaptureOutput(input: seq<Read>, retention: Retention, max: nat, chunk: nat)
    returns (r: Option<Captured>, ghost peak: nat)
    requires forall i :: 0 <= i < |input| && input[i].Chunk? ==> |input[i].bytes| <= chunk
    ensures r.None? <==> Fails(input)
    ensures r.Some? ==> r.value.bytes == Kept(retention, Stream(input), max)
    ensures r.Some? ==> (r.value.truncated <==> |Stream(input)| > max)
    ensures peak <= if retention.Head? then max else 2 * max + chunk
  {
    var held := Captured([], false);
    ghost var seen: seq<byte> := [];
    peak := 0;
    var k := 0;
    SoFarStarts(input);
    while k < |input| && input[k] != Chunk([])
      invariant SoFar(input, k, seen)
      invariant Window(retention, seen, held, max)
      invariant peak <= Bound(retention, max, chunk)
    {
      if input[k].Failed? {
        SoFarEnds(input, k, seen);
        return None, peak;
      }
      SoFarStep(input, k, seen);
      ghost var now;
      held, now := Absorb(retention, held, input[k].bytes, max, seen);
      peak := if now > peak then now else peak;
      seen := seen + input[k].bytes;
      k := k + 1;
    }
    SoFarEnds(input, k, seen);
    held := Finish(retention, held, max, seen);
    return Some(held), peak;
  }
}
