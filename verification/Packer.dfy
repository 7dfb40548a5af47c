/** The packer itself: the walk that charges the budget and grows the tar in place. */
module Packer {
  import opened Wrappers
  import opened Bytes
  import opened Ustar
  import opened Archive
  import opened Trees
  import opened Budgets
  import opened Packing

  /** One step of the walk over a sorted listing. */
  lemma VisitStep(dir: Node, sorted: seq<Named>, k: nat, path: Text, includeVcs: bool)
    requires dir.Dir? && (forall e :: e in sorted ==> e in dir.listing) && k < |sorted|
    ensures VisitAll(dir, sorted[..k + 1], path, includeVcs)
         == Plus(VisitAll(dir, sorted[..k], path, includeVcs), VisitOne(dir, sorted[k], path, includeVcs))
  {
    assert sorted[..k + 1][..k] == sorted[..k];
  }

  /** What is refused early stays refused. */
  lemma {:induction false} RefusalIsFinal(dir: Node, sorted: seq<Named>, k: nat,
                                          path: Text, includeVcs: bool, p: Progress)
    requires dir.Dir? && (forall e :: e in sorted ==> e in dir.listing) && k <= |sorted|
    requires Accepts(VisitAll(dir, sorted, path, includeVcs), p)
    ensures Accepts(VisitAll(dir, sorted[..k], path, includeVcs), p)
    decreases |sorted| - k
  {
    if k == |sorted| {
      assert sorted[..k] == sorted;
    } else {
      RefusalIsFinal(dir, sorted, k + 1, path, includeVcs, p);
      VisitStep(dir, sorted, k, path, includeVcs);
      RefusedPrefix(p, VisitAll(dir, sorted[..k], path, includeVcs), VisitOne(dir, sorted[k], path, includeVcs));
    }
  }

  /** A child taken on top of its predecessors extends what is accepted. */
  lemma AcceptedChild(dir: Node, sorted: seq<Named>, k: nat, path: Text, includeVcs: bool, p: Progress)
    requires dir.Dir? && (forall e :: e in sorted ==> e in dir.listing) && k < |sorted|
    requires Accepts(VisitAll(dir, sorted[..k], path, includeVcs), p)
    requires var before := VisitAll(dir, sorted[..k], path, includeVcs);
      Accepts(VisitOne(dir, sorted[k], path, includeVcs), Charge(p, before))
    ensures var before, here, after := VisitAll(dir, sorted[..k], path, includeVcs),
                VisitOne(dir, sorted[k], path, includeVcs), VisitAll(dir, sorted[..k + 1], path, includeVcs);
      && Accepts(after, p) && Charge(Charge(p, before), here) == Charge(p, after)
      && after.skipped == before.skipped + here.skipped
  {
    var before, here := VisitAll(dir, sorted[..k], path, includeVcs), VisitOne(dir, sorted[k], path, includeVcs);
    VisitStep(dir, sorted, k, path, includeVcs);
    AcceptsPlus(p, before, here);
    ChargePlus(p, before, here);
  }

  lemma RefusedChild(dir: Node, sorted: seq<Named>, k: nat, path: Text, includeVcs: bool, p: Progress)
    requires dir.Dir? && (forall e :: e in sorted ==> e in dir.listing) && k < |sorted|
    requires Accepts(VisitAll(dir, sorted[..k], path, includeVcs), p)
    requires var before := VisitAll(dir, sorted[..k], path, includeVcs);
      !Accepts(VisitOne(dir, sorted[k], path, includeVcs), Charge(p, before))
    ensures !Accepts(VisitAll(dir, sorted, path, includeVcs), p)
  {
    VisitStep(dir, sorted, k, path, includeVcs);
    AcceptsPlus(p, VisitAll(dir, sorted[..k], path, includeVcs), VisitOne(dir, sorted[k], path, includeVcs));
    if Accepts(VisitAll(dir, sorted, path, includeVcs), p) {
      RefusalIsFinal(dir, sorted, k + 1, path, includeVcs, p);
    }
  }

  ghost function Now(writer: LayerWriter, budget: Budget): Progress
    reads writer, budget
  {
    Progress(writer.tar, budget.entries, budget.bytes)
  }

  /** A single directory entry, and a single file entry. */
  lemma SingleEntry(e: Entry, p: Progress)
    ensures var v := Visit(true, [e], []);
      && DataBytes([e]) == |Data(e)|
      && (Writable([e]) <==> Fits(e) && SplitPath(Stored(e)).Some?)
      && (Writable([e]) ==> Charge(p, v) == Progress(p.tar + EntryBytes(e), p.entries + 1, p.bytes + |Data(e)|))
  {
    assert [e][..0] == [];
    assert Writable([e]) <==> Fits([e][0]) && SplitPath(Stored([e][0])).Some?;
    if Writable([e]) {
      assert Body([]) + EntryBytes(e) == EntryBytes(e);
    }
  }

  /** `pack_directory`. It succeeds exactly when the visit is acceptable on top
      of what was charged, and then leaves exactly the visit's effects. */
  method PackDirectory(dir: Node, path: Text, includeVcs: bool, writer: LayerWriter, budget: Budget)
    returns (ok: bool, skipped: seq<Text>)
    requires dir.Dir? && Within(budget.entries, budget.bytes)
    modifies writer, budget
    ensures ok <==> Accepts(VisitDir(dir, path, includeVcs), old(Now(writer, budget)))
    ensures ok ==> Now(writer, budget) == Charge(old(Now(writer, budget)), VisitDir(dir, path, includeVcs))
    ensures ok ==> skipped == VisitDir(dir, path, includeVcs).skipped
    decreases dir, 2
  {
    if !AllUtf8(dir.listing) {
      return false, [];
    }
    SortedMembers(dir.listing);
    ok, skipped := PackChildren(dir, SortByName(dir.listing), path, includeVcs, writer, budget);
  }

  /** The loop over the sorted names. */
  method PackChildren(dir: Node, sorted: seq<Named>, path: Text, includeVcs: bool, writer: LayerWriter, budget: Budget)
    returns (ok: bool, skipped: seq<Text>)
    requires dir.Dir? && (forall e :: e in sorted ==> e in dir.listing) && Within(budget.entries, budget.bytes)
    modifies writer, budget
    ensures ok <==> Accepts(VisitAll(dir, sorted, path, includeVcs), old(Now(writer, budget)))
    ensures ok ==> Now(writer, budget) == Charge(old(Now(writer, budget)), VisitAll(dir, sorted, path, includeVcs))
    ensures ok ==> skipped == VisitAll(dir, sorted, path, includeVcs).skipped
    decreases dir, 1
  {
    skipped := [];
    ghost var p := Now(writer, budget);
    assert p.tar + [] == p.tar;
    for k := 0 to |sorted|
      invariant Accepts(VisitAll(dir, sorted[..k], path, includeVcs), p)
      invariant Now(writer, budget) == Charge(p, VisitAll(dir, sorted[..k], path, includeVcs))
      invariant skipped == VisitAll(dir, sorted[..k], path, includeVcs).skipped
    {
      var more;
      ok, more := PackChild(dir, sorted[k], path, includeVcs, writer, budget);
      if !ok {
        RefusedChild(dir, sorted, k, path, includeVcs, p);
        return false, [];
      }
      AcceptedChild(dir, sorted, k, path, includeVcs, p);
      skipped := skipped + more;
    }
    assert sorted[..|sorted|] == sorted;
    ok := true;
  }

  /** One name of the sorted listing. */
  method PackChild(dir: Node, e: Named, path: Text, includeVcs: bool, writer: LayerWriter, budget: Budget)
    returns (ok: bool, skipped: seq<Text>)
    requires dir.Dir? && e in dir.listing && Within(budget.entries, budget.bytes)
    modifies writer, budget
    ensures ok <==> Accepts(VisitOne(dir, e, path, includeVcs), old(Now(writer, budget)))
    ensures ok ==> Now(writer, budget) == Charge(old(Now(writer, budget)), VisitOne(dir, e, path, includeVcs))
    ensures ok ==> skipped == VisitOne(dir, e, path, includeVcs).skipped
    decreases dir, 0
  {
    skipped := [];
    var child := Child(path, e.name);
    ghost var p := Now(writer, budget);
    match e.node
    case Dir(_) =>
      if IsSkipped(e, includeVcs) {
        assert p.tar + [] == p.tar;
        return true, [child];
      }
      ok := PackEntry(Directory(child), writer, budget);
      ghost var v := VisitDir(e.node, child, includeVcs);
      ghost var head := Visit(true, [Directory(child)], []);
      if !ok {
        if Accepts(Plus(head, v), p) {
          RefusedPrefix(p, head, v);
        }
        return false, [];
      }
      AcceptsPlus(p, head, v);
      ok, skipped := PackDirectory(e.node, child, includeVcs, writer, budget);
      if ok {
        ChargePlus(p, head, v);
      }
    case File(mode, data) =>
      ok := PackEntry(Entry.File(child, PackedMode(mode), data), writer, budget);
    case Symlink => return false, [];
    case Special => return false, [];
  }

  /** Charge one entry, then its bytes if it is a file, then write it. */
  method PackEntry(e: Entry, writer: LayerWriter, budget: Budget) returns (ok: bool)
    requires Within(budget.entries, budget.bytes) && Mode(e) < MODE_LIMIT
    modifies writer, budget
    ensures ok <==> Accepts(Visit(true, [e], []), old(Now(writer, budget)))
    ensures ok ==> Now(writer, budget) == Charge(old(Now(writer, budget)), Visit(true, [e], []))
  {
    SingleEntry(e, Now(writer, budget));
    ok := budget.ChargeEntry();
    if !ok {
      return false;
    }
    if e.File? {
      ok := budget.ChargeBytes(|e.data|);
      if !ok {
        return false;
      }
    }
    ok := writer.Append(e);
  }

  // ----- whole layers

  datatype Layer = Layer(tar: seq<byte>, entries: nat, bytes: nat, skipped: seq<Text>, hasLock: bool)

  const FLAKE: Text := Ascii("flake.nix")
  const LOCK: Text := Ascii("flake.lock")
  const ETC: Text := Ascii("etc")

  const SCAFFOLD: seq<Entry> := [Directory(ETC), Directory(LAYER_ROOT)]

  predicate HasFile(listing: seq<Named>, name: Text) {
    exists i :: 0 <= i < |listing| && listing[i].name == name && listing[i].node.File?
  }

  /** The tree root is charged one entry; `etc` around it costs nothing. */
  function AfterScaffold(): Progress
    requires Writable(SCAFFOLD)
  {
    Progress(Body(SCAFFOLD), 1, 0)
  }

  lemma ScaffoldIsWritable()
    ensures Writable(SCAFFOLD)
    ensures Body(SCAFFOLD) == EntryBytes(Directory(ETC)) + EntryBytes(Directory(LAYER_ROOT))
  {
    assert SCAFFOLD[..1] == [Directory(ETC)];
    assert Writable(SCAFFOLD[..1]);
    SingleEntry(Directory(ETC), Progress([], 0, 0));
    assert [] + EntryBytes(Directory(ETC)) == EntryBytes(Directory(ETC));
  }

  function Sealed(p: Progress, skipped: seq<Text>, hasLock: bool): Layer {
    Layer(Finished(p.tar), p.entries, p.bytes, skipped, hasLock)
  }

  /** What packing a tree comes to, as a value. */
  function PackedTree(root: Node, includeVcs: bool): Option<Layer> {
    if !root.Dir? || !HasFile(root.listing, FLAKE) then None
    else
      ScaffoldIsWritable();
      var v := VisitDir(root, LAYER_ROOT, includeVcs);
      if !Accepts(v, AfterScaffold()) then None
      else Some(Sealed(Charge(AfterScaffold(), v), v.skipped, HasFile(root.listing, LOCK)))
  }

  method WriteScaffold(writer: LayerWriter, budget: Budget)
    requires writer.tar == [] && budget.entries == 0 && budget.bytes == 0
    modifies writer, budget
    ensures Writable(SCAFFOLD) && Now(writer, budget) == AfterScaffold()
  {
    ScaffoldIsWritable();
    var ok := writer.Append(Directory(ETC));
    ok := budget.ChargeEntry();
    ok := writer.Append(Directory(LAYER_ROOT));
    assert [] + EntryBytes(Directory(ETC)) == EntryBytes(Directory(ETC));
  }

  /** `pack_source`. */
  method PackSource(root: Node, includeVcs: bool) returns (r: Option<Layer>)
    ensures r == PackedTree(root, includeVcs)
  {
    if !root.Dir? || !HasFile(root.listing, FLAKE) {
      return None;
    }
    var hasLock := HasFile(root.listing, LOCK);
    var writer := new LayerWriter();
    var budget := new Budget();
    WriteScaffold(writer, budget);
    var ok, skipped := PackDirectory(root, LAYER_ROOT, includeVcs, writer, budget);
    if !ok {
      return None;
    }
    writer.Finish();
    return Some(Layer(writer.tar, budget.entries, budget.bytes, skipped, hasLock));
  }

  // ----- layers made from memory

  /** A synthesized file: a name directly under the root. */
  datatype GeneratedFile = GeneratedFile(name: Text, mode: nat, data: seq<byte>)

  function AsListing(files: seq<GeneratedFile>): (r: seq<Named>)
    ensures |r| == |files|
    ensures forall i :: 0 <= i < |r| ==> r[i] == Named(files[i].name, Node.File(files[i].mode, files[i].data))
  {
    seq(|files|, i requires 0 <= i < |files| => Named(files[i].name, Node.File(files[i].mode, files[i].data)))
  }

  function GeneratedEntry(e: Named): Entry
    requires e.node.File?
  {
    Entry.File(Child(LAYER_ROOT, e.name), e.node.mode, e.node.data)
  }

  function GeneratedEntries(sorted: seq<Named>): (r: seq<Entry>)
    requires forall i :: 0 <= i < |sorted| ==> sorted[i].node.File?
    ensures |r| == |sorted| && forall i :: 0 <= i < |r| ==> r[i] == GeneratedEntry(sorted[i])
  {
    seq(|sorted|, i requires 0 <= i < |sorted| => GeneratedEntry(sorted[i]))
  }

  predicate NoAdjacentTwins(sorted: seq<Named>) {
    forall i :: 0 <= i < |sorted| - 1 ==> sorted[i].name != sorted[i + 1].name
  }

  /** What packing synthesized files comes to, as a value. */
  function PackedGenerated(files: seq<GeneratedFile>): Option<Layer> {
    var sorted := SortByName(AsListing(files));
    GeneratedAreFiles(files);
    if !NoAdjacentTwins(sorted) then None
    else
      ScaffoldIsWritable();
      var v := Flat(sorted, |sorted|);
      if !Accepts(v, AfterScaffold()) then None
      else Some(Sealed(Charge(AfterScaffold(), v), [], HasFile(AsListing(files), LOCK)))
  }

  lemma GeneratedAreFiles(files: seq<GeneratedFile>)
    ensures forall e :: e in SortByName(AsListing(files)) ==>
      e.node.File? && exists f :: f in files && e == Named(f.name, Node.File(f.mode, f.data))
    ensures forall i :: 0 <= i < |SortByName(AsListing(files))| ==> SortByName(AsListing(files))[i].node.File?
  {
    SortedMembers(AsListing(files));
    forall e | e in AsListing(files)
      ensures e.node.File? && exists f :: f in files && e == Named(f.name, Node.File(f.mode, f.data))
    {
      var i :| 0 <= i < |files| && AsListing(files)[i] == e;
      assert files[i] in files;
    }
  }

  lemma GeneratedModes(files: seq<GeneratedFile>)
    requires forall f :: f in files ==> f.mode < MODE_LIMIT
    ensures forall i :: 0 <= i < |SortByName(AsListing(files))| ==>
      SortByName(AsListing(files))[i].node.File? && SortByName(AsListing(files))[i].node.mode < MODE_LIMIT
  {
    var sorted := SortByName(AsListing(files));
    GeneratedAreFiles(files);
    forall i | 0 <= i < |sorted|
      ensures sorted[i].node.File? && sorted[i].node.mode < MODE_LIMIT
    {
      assert sorted[i] in sorted;
    }
  }

  /** The visit that writes the first `k` synthesized files. */
  function Flat(sorted: seq<Named>, k: nat): Visit
    requires (forall i :: 0 <= i < |sorted| ==> sorted[i].node.File?) && k <= |sorted|
  {
    Visit(true, GeneratedEntries(sorted[..k]), [])
  }

  lemma FlatStep(sorted: seq<Named>, k: nat, n: nat)
    requires (forall i :: 0 <= i < |sorted| ==> sorted[i].node.File?) && k <= n <= |sorted|
    ensures Flat(sorted, n) == Plus(Flat(sorted, k), Visit(true, GeneratedEntries(sorted[k..n]), []))
  {
    assert GeneratedEntries(sorted[..n]) == GeneratedEntries(sorted[..k]) + GeneratedEntries(sorted[k..n]);
  }

  lemma FlatOne(sorted: seq<Named>, k: nat)
    requires (forall i :: 0 <= i < |sorted| ==> sorted[i].node.File?) && k < |sorted|
    ensures GeneratedEntries(sorted[k..k + 1]) == [GeneratedEntry(sorted[k])]
  {
  }

  lemma AcceptedFile(sorted: seq<Named>, k: nat, p: Progress)
    requires (forall i :: 0 <= i < |sorted| ==> sorted[i].node.File?) && k < |sorted|
    requires Accepts(Flat(sorted, k), p)
    requires Accepts(Visit(true, [GeneratedEntry(sorted[k])], []), Charge(p, Flat(sorted, k)))
    ensures Accepts(Flat(sorted, k + 1), p)
    ensures Charge(p, Flat(sorted, k + 1))
         == Charge(Charge(p, Flat(sorted, k)), Visit(true, [GeneratedEntry(sorted[k])], []))
  {
    var here := Visit(true, [GeneratedEntry(sorted[k])], []);
    FlatStep(sorted, k, k + 1);
    FlatOne(sorted, k);
    AcceptsPlus(p, Flat(sorted, k), here);
    ChargePlus(p, Flat(sorted, k), here);
  }

  lemma RefusedFile(sorted: seq<Named>, k: nat, p: Progress)
    requires (forall i :: 0 <= i < |sorted| ==> sorted[i].node.File?) && k < |sorted|
    requires Accepts(Flat(sorted, k), p)
    requires !Accepts(Visit(true, [GeneratedEntry(sorted[k])], []), Charge(p, Flat(sorted, k)))
    ensures !Accepts(Flat(sorted, |sorted|), p)
  {
    var here := Visit(true, [GeneratedEntry(sorted[k])], []);
    var after := Visit(true, GeneratedEntries(sorted[k + 1..|sorted|]), []);
    FlatStep(sorted, k, k + 1);
    FlatOne(sorted, k);
    FlatStep(sorted, k + 1, |sorted|);
    RefusedMiddle(p, Flat(sorted, k), here, after);
  }

  /** The loop over the sorted files. */
  method PackFiles(sorted: seq<Named>, writer: LayerWriter, budget: Budget) returns (ok: bool)
    requires forall i :: 0 <= i < |sorted| ==> sorted[i].node.File? && sorted[i].node.mode < MODE_LIMIT
    requires Within(budget.entries, budget.bytes)
    modifies writer, budget
    ensures ok <==> Accepts(Flat(sorted, |sorted|), old(Now(writer, budget)))
    ensures ok ==> Now(writer, budget) == Charge(old(Now(writer, budget)), Flat(sorted, |sorted|))
  {
    ghost var p := Now(writer, budget);
    assert p.tar + [] == p.tar;
    for k := 0 to |sorted|
      invariant Accepts(Flat(sorted, k), p)
      invariant Now(writer, budget) == Charge(p, Flat(sorted, k))
    {
      ok := PackEntry(GeneratedEntry(sorted[k]), writer, budget);
      if !ok {
        RefusedFile(sorted, k, p);
        return false;
      }
      AcceptedFile(sorted, k, p);
    }
    ok := true;
  }

  /** `pack_generated`. The source panics on a mode beyond seven octal digits. */
  method PackGenerated(files: seq<GeneratedFile>) returns (r: Option<Layer>)
    requires forall f :: f in files ==> f.mode < MODE_LIMIT
    ensures r == PackedGenerated(files)
  {
    var sorted := SortByName(AsListing(files));
    GeneratedModes(files);
    if !NoAdjacentTwins(sorted) {
      return None;
    }
    var writer := new LayerWriter();
    var budget := new Budget();
    WriteScaffold(writer, budget);
    var ok := PackFiles(sorted, writer, budget);
    if !ok {
      return None;
    }
    writer.Finish();
    return Some(Layer(writer.tar, budget.entries, budget.bytes, [], HasFile(AsListing(files), LOCK)));
  }
}
