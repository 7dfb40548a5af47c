/** Whole layers: the `LayerWriter` of the packer and the archive reader. */
module Archive {
  import opened Wrappers
  import opened Bytes
  import opened Ustar

  datatype Entry = Directory(path: Text) | File(path: Text, mode: nat, data: seq<byte>)

  const DIRECTORY_MODE: nat := 0x1ED   // 0o755

  /** Directories are stored with a trailing slash. */
  function Stored(e: Entry): Text {
    if e.Directory? then e.path + [SLASH] else e.path
  }

  function Data(e: Entry): seq<byte> { if e.Directory? then [] else e.data }

  function Mode(e: Entry): nat { if e.Directory? then DIRECTORY_MODE else e.mode }

  function Typeflag(e: Entry): byte { if e.Directory? then DIRECTORY else FILE }

  /** What the header fields can hold; the packer's budgets keep sizes far below. */
  predicate Fits(e: Entry) { Mode(e) < MODE_LIMIT && |Data(e)| < SIZE_LIMIT }

  function Padding(size: nat): (n: nat)
    ensures n < 512
  {
    (512 - size % 512) % 512
  }

  function EntryBytes(e: Entry): (r: seq<byte>)
    requires SplitPath(Stored(e)).Some?
    ensures |r| == 512 + |Data(e)| + Padding(|Data(e)|)
  {
    HeaderBlock(SplitPath(Stored(e)).value, Mode(e), |Data(e)|, Typeflag(e))
      + (Data(e) + Zeros(Padding(|Data(e)|)))
  }

  predicate Writable(entries: seq<Entry>) {
    forall i :: 0 <= i < |entries| ==> Fits(entries[i]) && SplitPath(Stored(entries[i])).Some?
  }

  function Body(entries: seq<Entry>): (r: seq<byte>)
    requires Writable(entries)
  {
    if entries == [] then []
    else
      var init := entries[..|entries| - 1];
      Body(init) + EntryBytes(entries[|entries| - 1])
  }

  function Finished(body: seq<byte>): seq<byte> { body + Zeros(2 * BLOCK) }

  lemma AppendedInOrder<T>(a: seq<T>, b: seq<T>, c: seq<T>, d: seq<T>)
    ensures a + b + c + d == a + (b + (c + d))
  {
  }

  /** `LayerWriter`: the tar grows in place and stays a whole number of blocks. */
  class LayerWriter {
    var tar: seq<byte>

    constructor ()
      ensures tar == []
    {
      tar := [];
    }

    method Append(e: Entry) returns (ok: bool)
      requires Fits(e)
      modifies this
      ensures ok <==> SplitPath(Stored(e)).Some?
      ensures tar == if ok then old(tar) + EntryBytes(e) else old(tar)
    {
      var header := Header(Stored(e), Mode(e), |Data(e)|, Typeflag(e));
      if header.None? {
        return false;
      }
      tar := tar + header.value[..];
      tar := tar + Data(e);
      tar := tar + Zeros(Padding(|Data(e)|));
      AppendedInOrder(old(tar), header.value[..], Data(e), Zeros(Padding(|Data(e)|)));
      return true;
    }

    method Finish()
      modifies this
      ensures tar == Finished(old(tar))
    {
      tar := tar + Zeros(2 * BLOCK);
    }
  }

  // ----- reading

  function AsEntry(m: Member, data: seq<byte>): Entry {
    if m.typeflag == DIRECTORY then
      Directory(if m.path != [] && m.path[|m.path| - 1] == SLASH then m.path[..|m.path| - 1] else m.path)
    else File(m.path, m.mode, data)
  }

  /** Members until two zero blocks; a truncated or damaged archive reads as nothing. */
  function Read(bytes: seq<byte>): Option<seq<Entry>>
    decreases |bytes|
  {
    if |bytes| < 2 * BLOCK then None
    else if bytes[..2 * BLOCK] == Zeros(2 * BLOCK) then Some([])
    else
      match ReadHeader(bytes[..BLOCK])
      case None => None
      case Some(m) =>
        var next := BLOCK + m.size + Padding(m.size);
        if |bytes| < next then None
        else
          match Read(bytes[next..])
          case None => None
          case Some(rest) => Some([AsEntry(m, bytes[BLOCK..BLOCK + m.size])] + rest)
  }

  /** What a reader makes of one written entry. */
  function Reread(e: Entry): Entry
    requires SplitPath(Stored(e)).Some?
  {
    AsEntry(Member(Rejoin(SplitPath(Stored(e)).value), Typeflag(e), Mode(e), |Data(e)|), Data(e))
  }

  function RereadAll(entries: seq<Entry>): (r: seq<Entry>)
    requires Writable(entries)
    ensures |r| == |entries| && forall i :: 0 <= i < |r| ==> r[i] == Reread(entries[i])
  {
    seq(|entries|, i requires 0 <= i < |entries| => Reread(entries[i]))
  }

  lemma MemberSlices(header: seq<byte>, data: seq<byte>, pad: seq<byte>, rest: seq<byte>)
    requires |header| == 512
    ensures var bytes := header + (data + pad) + rest;
      && bytes[..512] == header
      && bytes[512..512 + |data|] == data
      && bytes[512 + |data| + |pad|..] == rest
      && bytes[257] == header[257]
  {
    var bytes := header + (data + pad) + rest;
    assert bytes == header + (data + (pad + rest));
  }

  lemma MemberReadsBack(header: seq<byte>, m: Member, data: seq<byte>, rest: seq<byte>)
    requires |header| == BLOCK && header[257] != 0 && ReadHeader(header) == Some(m) && m.size == |data|
    requires Read(rest).Some?
    ensures Read(header + (data + Zeros(Padding(|data|))) + rest) == Some([AsEntry(m, data)] + Read(rest).value)
  {
    var bytes := header + (data + Zeros(Padding(|data|))) + rest;
    MemberSlices(header, data, Zeros(Padding(|data|)), rest);
    ReadsNonEmpty(rest);
    assert bytes[..2 * BLOCK][257] == bytes[257];
    assert bytes[..2 * BLOCK] != Zeros(2 * BLOCK);
  }

  lemma ReadsNonEmpty(bytes: seq<byte>)
    requires Read(bytes).Some?
    ensures |bytes| >= 2 * BLOCK
  {
  }

  lemma EntryReadsBack(e: Entry, rest: seq<byte>)
    requires SplitPath(Stored(e)).Some? && Fits(e) && 0 !in e.path && Read(rest).Some?
    ensures Read(EntryBytes(e) + rest) == Some([Reread(e)] + Read(rest).value)
  {
    var split := SplitPath(Stored(e)).value;
    SplitKeepsBytes(Stored(e), 0);
    HeaderRoundTrip(split, Mode(e), |Data(e)|, Typeflag(e));
    MagicIsThere(split, Mode(e), |Data(e)|, Typeflag(e));
    MemberReadsBack(HeaderBlock(split, Mode(e), |Data(e)|, Typeflag(e)),
                    Member(Rejoin(split), Typeflag(e), Mode(e), |Data(e)|), Data(e), rest);
  }

  lemma EntrySlices(e: Entry)
    requires SplitPath(Stored(e)).Some?
    ensures |EntryBytes(e)| >= 512 + |Data(e)|
    ensures EntryBytes(e)[..512] == HeaderBlock(SplitPath(Stored(e)).value, Mode(e), |Data(e)|, Typeflag(e))
    ensures EntryBytes(e)[512..512 + |Data(e)|] == Data(e)
  {
    var header := HeaderBlock(SplitPath(Stored(e)).value, Mode(e), |Data(e)|, Typeflag(e));
    var pad := Zeros(Padding(|Data(e)|));
    assert EntryBytes(e) == header + (Data(e) + pad);
    assert (Data(e) + pad)[..|Data(e)|] == Data(e);
  }

  /** What any reader finds in the header of a written entry, and the data after it: a
      directory is mode 0755 and of type '5', a file has its own mode and type '0'. */
  lemma HeaderTells(e: Entry)
    requires SplitPath(Stored(e)).Some? && Fits(e) && 0 !in e.path
    ensures |EntryBytes(e)| >= 512 && ReadHeader(EntryBytes(e)[..512]).Some?
    ensures var m := ReadHeader(EntryBytes(e)[..512]).value;
      match e
      case Directory(_) => m.typeflag == '5' as int && m.mode == 493 && m.size == 0
      case File(_, mode, data) =>
        && m.typeflag == '0' as int && m.mode == mode && m.size == |data|
        && |EntryBytes(e)| >= 512 + |data| && EntryBytes(e)[512..512 + |data|] == data
  {
    SplitKeepsBytes(Stored(e), 0);
    HeaderRoundTrip(SplitPath(Stored(e)).value, Mode(e), |Data(e)|, Typeflag(e));
    EntrySlices(e);
  }

  lemma SplitKeepsBytes(path: Text, b: byte)
    requires SplitPath(path).Some? && b !in path
    ensures b !in SplitPath(path).value.prefix && b !in SplitPath(path).value.name
  {
  }

  lemma MagicIsThere(s: Split, mode: nat, size: nat, typeflag: byte)
    requires |s.prefix| <= 155 && |s.name| <= 100
    ensures HeaderBlock(s, mode, size, typeflag)[257] == 117
  {
  }

  lemma RereadLast(entries: seq<Entry>)
    requires Writable(entries) && entries != []
    ensures RereadAll(entries) == RereadAll(entries[..|entries| - 1]) + [Reread(entries[|entries| - 1])]
  {
  }

  lemma {:induction false} BodyReadsBack(entries: seq<Entry>, tail: seq<byte>)
    requires Writable(entries) && Read(tail).Some?
    requires forall i :: 0 <= i < |entries| ==> 0 !in entries[i].path
    ensures Read(Body(entries) + tail) == Some(RereadAll(entries) + Read(tail).value)
  {
    if entries == [] {
      assert Body(entries) + tail == tail;
      assert RereadAll(entries) + Read(tail).value == Read(tail).value;
    } else {
      var init, last := entries[..|entries| - 1], entries[|entries| - 1];
      EntryReadsBack(last, tail);
      BodyReadsBack(init, EntryBytes(last) + tail);
      RereadLast(entries);
      Associates(Body(init), EntryBytes(last), tail);
      Associates(RereadAll(init), [Reread(last)], Read(tail).value);
    }
  }

  /** An entry survives exactly when its stored path does. */
  lemma RereadExactly(e: Entry)
    requires SplitPath(Stored(e)).Some?
    ensures Reread(e) == e <==> !LosesRoot(Stored(e))
  {
    SplitPreservesExactly(Stored(e));
    var path := Rejoin(SplitPath(Stored(e)).value);
    if e.Directory? {
      assert Stored(e)[..|Stored(e)| - 1] == e.path;
      if path != Stored(e) {
        assert |path| == 100;
        assert |Reread(e).path| <= 100 && |e.path| == 100;
        assert path == Stored(e)[1..];
      }
    }
  }

  function DataBlocks(size: nat): nat { (size + 511) / 512 }

  function BodyBlocks(entries: seq<Entry>): nat {
    if entries == [] then 0
    else BodyBlocks(entries[..|entries| - 1]) + 1 + DataBlocks(|Data(entries[|entries| - 1])|)
  }

  lemma PaddingFills(size: nat)
    ensures size + Padding(size) == 512 * DataBlocks(size)
  {
  }

  lemma {:induction false} BodyLength(entries: seq<Entry>)
    requires Writable(entries)
    ensures |Body(entries)| == 512 * BodyBlocks(entries)
  {
    if entries != [] {
      BodyLength(entries[..|entries| - 1]);
      PaddingFills(|Data(entries[|entries| - 1])|);
    }
  }

  /** A layer is a whole number of blocks: a header and the padded data for each
      entry, then two more. */
  lemma LayerIsWholeBlocks(entries: seq<Entry>)
    requires Writable(entries)
    ensures |Finished(Body(entries))| == 512 * (BodyBlocks(entries) + 2)
  {
    BodyLength(entries);
  }

  lemma EndReads(tail: seq<byte>)
    requires |tail| == 2 * BLOCK && tail == Zeros(|tail|)
    ensures Read(tail) == Some([])
  {
    assert tail[..2 * BLOCK] == tail;
  }

  lemma BodyAndEndReadBack(entries: seq<Entry>, tail: seq<byte>)
    requires Writable(entries) && forall i :: 0 <= i < |entries| ==> 0 !in entries[i].path
    requires |tail| == 2 * BLOCK && tail == Zeros(|tail|)
    ensures Read(Body(entries) + tail) == Some(RereadAll(entries))
  {
    EndReads(tail);
    BodyReadsBack(entries, tail);
    assert RereadAll(entries) + [] == RereadAll(entries);
  }

  lemma RereadAllExactly(entries: seq<Entry>)
    requires Writable(entries)
    ensures RereadAll(entries) == entries <==> forall i :: 0 <= i < |entries| ==> !LosesRoot(Stored(entries[i]))
  {
    var r := RereadAll(entries);
    forall i | 0 <= i < |entries|
      ensures r[i] == entries[i] <==> !LosesRoot(Stored(entries[i]))
    {
      RereadExactly(entries[i]);
    }
    assert r == entries <==> forall i :: 0 <= i < |entries| ==> r[i] == entries[i];
  }

  /** The layer round trip: any NUL-free, writable entry list reads back as
      itself exactly when no stored path is in the family that loses its root. */
  lemma LayerRoundTrip(entries: seq<Entry>)
    requires Writable(entries) && forall i :: 0 <= i < |entries| ==> 0 !in entries[i].path
    ensures Read(Finished(Body(entries))) == Some(entries)
       <==> forall i :: 0 <= i < |entries| ==> !LosesRoot(Stored(entries[i]))
  {
    BodyAndEndReadBack(entries, Zeros(2 * BLOCK));
    RereadAllExactly(entries);
  }

  /** Paths that do not start with a slash always survive. */
  lemma UnrootedSurvives(entries: seq<Entry>)
    requires Writable(entries) && forall i :: 0 <= i < |entries| ==> 0 !in entries[i].path
    requires forall i :: 0 <= i < |entries| ==> entries[i].path != [] && entries[i].path[0] != SLASH
    ensures Read(Finished(Body(entries))) == Some(entries)
  {
    forall i | 0 <= i < |entries|
      ensures !LosesRoot(Stored(entries[i]))
    {
      assert Stored(entries[i])[0] == entries[i].path[0];
    }
    LayerRoundTrip(entries);
  }

  /** The family is not empty: a rooted path of 101 bytes without another slash is
      written, and comes back without its leading one. */
  lemma RootIsLost(name: Text, mode: nat)
    requires |name| == 100 && SLASH !in name && 0 !in name && mode < MODE_LIMIT
    ensures var e := File([SLASH] + name, mode, []);
      && Writable([e]) && LosesRoot(Stored(e))
      && Read(Finished(Body([e]))) == Some([File(name, mode, [])])
  {
    var e := File([SLASH] + name, mode, []);
    var path := Stored(e);
    assert LegalSplit(path, 0);
    assert SplitPath(path).Some?;
    assert [e][0] == e && Writable([e]);
    var split := LastSplit(path, |path|).value;
    assert split == 0;
    assert path[..0] == [] && path[1..] == name;
    BodyAndEndReadBack([e], Zeros(2 * BLOCK));
    assert Reread(e) == File(name, mode, []);
    assert RereadAll([e]) == [File(name, mode, [])];
  }
}
