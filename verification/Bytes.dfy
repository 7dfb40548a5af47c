/** Byte strings, as the packer and the staging walk see paths and file contents. */
module Bytes {

  type byte = x: int | 0 <= x < 256

  type Text = seq<byte>

  const SLASH: byte := 47

  function Zeros(n: nat): (r: seq<byte>)
    ensures |r| == n && forall i :: 0 <= i < n ==> r[i] == 0
  {
    seq(n, _ => 0)
  }

  function Spaces(n: nat): (r: seq<byte>)
    ensures |r| == n && forall i :: 0 <= i < n ==> r[i] == 32
  {
    seq(n, _ => 32)
  }

  /** The bytes of an ASCII literal. */
  function Ascii(s: string): (r: seq<byte>)
    requires forall i :: 0 <= i < |s| ==> s[i] as int < 128
    ensures |r| == |s| && forall i :: 0 <= i < |r| ==> r[i] == s[i] as int
  {
    seq(|s|, i requires 0 <= i < |s| => s[i] as int)
  }

  /** `slice[at..at + data.len()].copy_from_slice(data)` as a value. */
  function Overlay(block: seq<byte>, at: nat, data: seq<byte>): (r: seq<byte>)
    requires at + |data| <= |block|
    ensures |r| == |block|
    ensures forall i :: 0 <= i < |block| ==> r[i] == if at <= i < at + |data| then data[i - at] else block[i]
  {
    seq(|block|, i requires 0 <= i < |block| => if at <= i < at + |data| then data[i - at] else block[i])
  }

  method CopyInto(block: array<byte>, at: nat, data: seq<byte>)
    requires at + |data| <= block.Length
    modifies block
    ensures block[..] == Overlay(old(block[..]), at, data)
  {
    forall i | 0 <= i < |data| {
      block[at + i] := data[i];
    }
  }

  function Sum(bytes: seq<byte>): (n: nat)
    ensures n <= 255 * |bytes|
  {
    if bytes == [] then 0 else bytes[0] + Sum(bytes[1..])
  }
}
