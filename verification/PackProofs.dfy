/** What packing guarantees about whole trees. */
module PackProofs {
  import opened Wrappers
  import opened Bytes
  import opened Order
  import opened Ustar
  import opened Archive
  import opened Trees
  import opened Budgets
  import opened Packing
  import opened Packer

  // ----- the enumeration order does not matter

  /** Neighbours in name order are the same file on both sides. */
  lemma SortedPairsAgree(a: Node, b: Node, i: nat)
    requires a.Dir? && WellFormed(a) && WellFormed(b) && SameTree(a, b) && i < |a.listing|
    ensures |SortByName(a.listing)| == |SortByName(b.listing)| == |a.listing|
    ensures var x, y := SortByName(a.listing)[i], SortByName(b.listing)[i];
      && x in a.listing && y in b.listing && x.name == y.name
      && SameTree(x.node, y.node) && WellFormed(x.node) && WellFormed(y.node)
  {
    var x, y := SortByName(a.listing), SortByName(b.listing);
    SortedMembers(a.listing);
    SortedMembers(b.listing);
    SortedNamesAgree(a, b);
    assert NamesOf(x)[i] == NamesOf(y)[i];
    assert x[i] in x && y[i] in y;
  }

  lemma SameUtf8(a: Node, b: Node)
    requires a.Dir? && SameTree(a, b)
    ensures AllUtf8(a.listing) <==> AllUtf8(b.listing)
  {
    forall i | 0 <= i < |a.listing| && AllUtf8(b.listing)
      ensures ValidUtf8(a.listing[i].name)
    {
      assert Names(b.listing, a.listing[i].name);
    }
    forall i | 0 <= i < |b.listing| && AllUtf8(a.listing)
      ensures ValidUtf8(b.listing[i].name)
    {
      assert Names(a.listing, b.listing[i].name);
    }
  }

  /** A directory's visit, with the loop run to its end. */
  lemma VisitDirWhole(dir: Node, path: Text, includeVcs: bool)
    requires dir.Dir?
    ensures |SortByName(dir.listing)| == |dir.listing|
    ensures forall e :: e in SortByName(dir.listing) ==> e in dir.listing
    ensures VisitDir(dir, path, includeVcs)
         == var v := VisitAll(dir, SortByName(dir.listing)[..|dir.listing|], path, includeVcs);
            v.(clean := AllUtf8(dir.listing) && v.clean)
  {
    SortedMembers(dir.listing);
    var sorted := SortByName(dir.listing);
    assert sorted[..|dir.listing|] == sorted;
  }

  lemma {:induction false} SameTreeSameVisit(a: Node, b: Node, path: Text, includeVcs: bool)
    requires a.Dir? && WellFormed(a) && WellFormed(b) && SameTree(a, b)
    ensures VisitDir(a, path, includeVcs) == VisitDir(b, path, includeVcs)
    decreases a, 1, 0
  {
    VisitDirWhole(a, path, includeVcs);
    VisitDirWhole(b, path, includeVcs);
    SameLength(a, b);
    SameUtf8(a, b);
    SamePrefixVisit(a, b, |a.listing|, path, includeVcs);
  }

  lemma SameLength(a: Node, b: Node)
    requires a.Dir? && WellFormed(a) && WellFormed(b) && SameTree(a, b)
    ensures |SortByName(a.listing)| == |SortByName(b.listing)| == |a.listing| == |b.listing|
  {
    SortedMembers(a.listing);
    SortedMembers(b.listing);
    SortedNamesAgree(a, b);
    assert |NamesOf(SortByName(a.listing))| == |NamesOf(SortByName(b.listing))|;
  }

  lemma {:induction false} SamePrefixVisit(a: Node, b: Node, k: nat, path: Text, includeVcs: bool)
    requires a.Dir? && WellFormed(a) && WellFormed(b) && SameTree(a, b)
    requires k <= |SortByName(a.listing)| == |SortByName(b.listing)|
    requires forall e :: e in SortByName(a.listing) ==> e in a.listing
    requires forall e :: e in SortByName(b.listing) ==> e in b.listing
    ensures VisitAll(a, SortByName(a.listing)[..k], path, includeVcs)
         == VisitAll(b, SortByName(b.listing)[..k], path, includeVcs)
    decreases a, 0, k
  {
    if k > 0 {
      var x, y := SortByName(a.listing), SortByName(b.listing);
      SamePrefixVisit(a, b, k - 1, path, includeVcs);
      SortedMembers(a.listing);
      SortedPairsAgree(a, b, k - 1);
      if x[k - 1].node.Dir? {
        SameTreeSameVisit(x[k - 1].node, y[k - 1].node, Child(path, x[k - 1].name), includeVcs);
      }
      SameOneVisit(a, x[k - 1], b, y[k - 1], path, includeVcs);
      SameStep(a, x, b, y, k - 1, path, includeVcs);
    }
  }

  lemma SameStep(a: Node, x: seq<Named>, b: Node, y: seq<Named>, k: nat, path: Text, includeVcs: bool)
    requires a.Dir? && b.Dir? && k < |x| == |y|
    requires (forall e :: e in x ==> e in a.listing) && (forall e :: e in y ==> e in b.listing)
    requires VisitAll(a, x[..k], path, includeVcs) == VisitAll(b, y[..k], path, includeVcs)
    requires VisitOne(a, x[k], path, includeVcs) == VisitOne(b, y[k], path, includeVcs)
    ensures VisitAll(a, x[..k + 1], path, includeVcs) == VisitAll(b, y[..k + 1], path, includeVcs)
  {
    VisitStep(a, x, k, path, includeVcs);
    VisitStep(b, y, k, path, includeVcs);
  }

  lemma SameOneVisit(a: Node, x: Named, b: Node, y: Named, path: Text, includeVcs: bool)
    requires a.Dir? && b.Dir? && x in a.listing && y in b.listing && x.name == y.name && SameTree(x.node, y.node)
    requires x.node.Dir? ==>
      VisitDir(x.node, Child(path, x.name), includeVcs) == VisitDir(y.node, Child(path, y.name), includeVcs)
    ensures VisitOne(a, x, path, includeVcs) == VisitOne(b, y, path, includeVcs)
  {
  }

  lemma SameFiles(a: Node, b: Node, name: Text)
    requires a.Dir? && SameTree(a, b)
    ensures HasFile(a.listing, name) <==> HasFile(b.listing, name)
  {
    if i :| 0 <= i < |a.listing| && a.listing[i].name == name && a.listing[i].node.File? {
      assert a.listing[i] in a.listing && Names(b.listing, name);
      var j :| 0 <= j < |b.listing| && b.listing[j].name == name;
      assert SameTree(a.listing[i].node, b.listing[j].node);
    }
    if i :| 0 <= i < |b.listing| && b.listing[i].name == name && b.listing[i].node.File? {
      assert b.listing[i] in b.listing && Names(a.listing, name);
      var j :| 0 <= j < |a.listing| && a.listing[j].name == name;
      assert SameTree(a.listing[j].node, b.listing[i].node);
    }
  }

  /** Packing is a function of the tree: however each directory is enumerated,
      and whatever mode bits other than execution say, the layer is the same. */
  lemma PackingIgnoresOrder(a: Node, b: Node, includeVcs: bool)
    requires WellFormed(a) && WellFormed(b) && SameTree(a, b)
    ensures PackedTree(a, includeVcs) == PackedTree(b, includeVcs)
  {
    if a.Dir? {
      SameFiles(a, b, FLAKE);
      SameFiles(a, b, LOCK);
      SameTreeSameVisit(a, b, LAYER_ROOT, includeVcs);
    }
  }

  // ----- layers made from memory

  /** Insertion keeps equal names next to each other. */
  ghost predicate WeaklyAscending(sorted: seq<Named>) {
    forall i, j :: 0 <= i < j < |sorted| ==> LexLe(sorted[i].name, sorted[j].name)
  }

  lemma SortWeaklyAscends(listing: seq<Named>)
    ensures WeaklyAscending(SortByName(listing))
  {
    SortOrders(listing, ByName);
    var sorted := SortByName(listing);
    forall i, j | 0 <= i < j < |sorted|
      ensures LexLe(sorted[i].name, sorted[j].name)
    {
      assert LexLe(ByName(sorted[i]), ByName(sorted[j]));
    }
  }

  lemma UntwinnedIsDistinct(sorted: seq<Named>)
    requires WeaklyAscending(sorted) && NoAdjacentTwins(sorted)
    ensures DistinctNames(sorted)
  {
    forall i, j | 0 <= i < j < |sorted|
      ensures sorted[i].name != sorted[j].name
    {
      if sorted[i].name == sorted[j].name {
        LexAntisymmetric(sorted[i].name, sorted[i + 1].name);
      }
    }
  }

  /** The neighbour test finds every duplicate. */
  lemma TwinsAreRefused(files: seq<GeneratedFile>)
    ensures NoAdjacentTwins(SortByName(AsListing(files))) <==> DistinctNames(AsListing(files))
    ensures !DistinctNames(AsListing(files)) ==> PackedGenerated(files) == None
  {
    var listing := AsListing(files);
    var sorted := SortByName(listing);
    SortWeaklyAscends(listing);
    if NoAdjacentTwins(sorted) {
      UntwinnedIsDistinct(sorted);
      DistinctPermutes(sorted, listing);
    }
    if DistinctNames(listing) {
      DistinctPermutes(listing, sorted);
    }
  }

  predicate Collapsed(mode: nat) { mode == 0x1ED || mode == 0x1A4 }

  lemma {:induction false} FlatVisit(dir: Node, sorted: seq<Named>, k: nat, includeVcs: bool)
    requires dir.Dir? && (forall e :: e in sorted ==> e in dir.listing) && k <= |sorted|
    requires forall i :: 0 <= i < |sorted| ==> sorted[i].node.File? && Collapsed(sorted[i].node.mode)
    ensures VisitAll(dir, sorted[..k], LAYER_ROOT, includeVcs) == Flat(sorted, k)
  {
    if k > 0 {
      FlatVisit(dir, sorted, k - 1, includeVcs);
      VisitStep(dir, sorted, k - 1, LAYER_ROOT, includeVcs);
      FlatStep(sorted, k - 1, k);
      FlatOne(sorted, k - 1);
      CollapsedVisit(dir, sorted[k - 1], includeVcs);
    }
  }

  lemma CollapsedVisit(dir: Node, e: Named, includeVcs: bool)
    requires dir.Dir? && e in dir.listing && e.node.File? && Collapsed(e.node.mode)
    ensures VisitOne(dir, e, LAYER_ROOT, includeVcs) == Visit(true, [GeneratedEntry(e)], [])
  {
    assert PackedMode(e.node.mode) == e.node.mode;
  }

  lemma GeneratedAreCollapsed(files: seq<GeneratedFile>)
    requires forall f :: f in files ==> Collapsed(f.mode) && ValidUtf8(f.name)
    ensures var sorted := SortByName(AsListing(files));
      forall i :: 0 <= i < |sorted| ==> sorted[i].node.File? && Collapsed(sorted[i].node.mode)
    ensures AllUtf8(AsListing(files))
  {
    var sorted := SortByName(AsListing(files));
    GeneratedAreFiles(files);
    forall i | 0 <= i < |sorted|
      ensures sorted[i].node.File? && Collapsed(sorted[i].node.mode)
    {
      assert sorted[i] in sorted;
    }
  }

  lemma GeneratedVisit(files: seq<GeneratedFile>, includeVcs: bool)
    requires forall f :: f in files ==> Collapsed(f.mode) && ValidUtf8(f.name)
    ensures var sorted := SortByName(AsListing(files));
      && (forall i :: 0 <= i < |sorted| ==> sorted[i].node.File?)
      && VisitDir(Dir(AsListing(files)), LAYER_ROOT, includeVcs) == Flat(sorted, |sorted|)
  {
    var sorted := SortByName(AsListing(files));
    GeneratedAreCollapsed(files);
    SortedMembers(AsListing(files));
    FlatVisit(Dir(AsListing(files)), sorted, |sorted|, includeVcs);
    assert sorted[..|sorted|] == sorted;
  }

  lemma GeneratedTree(files: seq<GeneratedFile>, includeVcs: bool)
    requires forall f :: f in files ==> Collapsed(f.mode) && ValidUtf8(f.name)
    requires NoAdjacentTwins(SortByName(AsListing(files))) && HasFile(AsListing(files), FLAKE)
    ensures PackedGenerated(files) == PackedTree(Dir(AsListing(files)), includeVcs)
  {
    GeneratedVisit(files, includeVcs);
  }

  /** A generated layer is the layer of any directory holding those files: same
      bytes, entries, byte count and lock flag. */
  lemma GeneratedAgrees(files: seq<GeneratedFile>, tree: Node, includeVcs: bool)
    requires forall f :: f in files ==> Collapsed(f.mode) && ValidUtf8(f.name)
    requires DistinctNames(AsListing(files)) && HasFile(AsListing(files), FLAKE)
    requires WellFormed(tree) && SameTree(Dir(AsListing(files)), tree)
    ensures PackedGenerated(files) == PackedTree(tree, includeVcs)
  {
    TwinsAreRefused(files);
    GeneratedTree(files, includeVcs);
    var dir := Dir(AsListing(files));
    forall e | e in dir.listing
      ensures e.name != [] && SLASH !in e.name && 0 !in e.name && WellFormed(e.node)
    {
      assert Names(tree.listing, e.name);
      var j :| 0 <= j < |tree.listing| && tree.listing[j].name == e.name;
      assert tree.listing[j] in tree.listing;
    }
    PackingIgnoresOrder(dir, tree, includeVcs);
  }

  // ----- the layer read back

  /** Paths that a reader recovers unchanged. */
  predicate Plain(path: Text) { path != [] && path[0] != SLASH && 0 !in path }

  predicate PlainPaths(entries: seq<Entry>) { forall i :: 0 <= i < |entries| ==> Plain(entries[i].path) }

  lemma PlainChild(path: Text, name: Text)
    requires Plain(path) && 0 !in name
    ensures Plain(Child(path, name))
  {
  }

  lemma PlainAppend(a: seq<Entry>, b: seq<Entry>)
    requires PlainPaths(a) && PlainPaths(b)
    ensures PlainPaths(a + b)
  {
  }

  lemma {:induction false} VisitIsPlain(dir: Node, rest: seq<Named>, path: Text, includeVcs: bool)
    requires dir.Dir? && WellFormed(dir) && Plain(path) && forall e :: e in rest ==> e in dir.listing
    ensures PlainPaths(VisitAll(dir, rest, path, includeVcs).entries)
    decreases dir, 1, |rest|
  {
    if rest != [] {
      var init, e := rest[..|rest| - 1], rest[|rest| - 1];
      assert e in rest;
      VisitIsPlain(dir, init, path, includeVcs);
      VisitOneIsPlain(dir, e, path, includeVcs);
      PlainAppend(VisitAll(dir, init, path, includeVcs).entries, VisitOne(dir, e, path, includeVcs).entries);
    }
  }

  lemma {:induction false} VisitDirIsPlain(dir: Node, path: Text, includeVcs: bool)
    requires dir.Dir? && WellFormed(dir) && Plain(path)
    ensures PlainPaths(VisitDir(dir, path, includeVcs).entries)
    decreases dir, 2, 0
  {
    SortedMembers(dir.listing);
    VisitIsPlain(dir, SortByName(dir.listing), path, includeVcs);
  }

  lemma {:induction false} VisitOneIsPlain(dir: Node, e: Named, path: Text, includeVcs: bool)
    requires dir.Dir? && WellFormed(dir) && Plain(path) && e in dir.listing
    ensures PlainPaths(VisitOne(dir, e, path, includeVcs).entries)
    decreases dir, 0, 0
  {
    PlainChild(path, e.name);
    if e.node.Dir? && !IsSkipped(e, includeVcs) {
      VisitDirIsPlain(e.node, Child(path, e.name), includeVcs);
    }
  }

  /** The entries a layer must hold: the scaffold, then the visit. */
  function LayerEntries(root: Node, includeVcs: bool): seq<Entry>
    requires root.Dir?
  {
    SCAFFOLD + VisitDir(root, LAYER_ROOT, includeVcs).entries
  }

  lemma LayerEntriesAreWritable(root: Node, includeVcs: bool)
    requires root.Dir? && Writable(VisitDir(root, LAYER_ROOT, includeVcs).entries)
    ensures var entries := LayerEntries(root, includeVcs); var v := VisitDir(root, LAYER_ROOT, includeVcs);
      && Writable(SCAFFOLD) && Writable(entries)
      && Body(SCAFFOLD) + Body(v.entries) == Body(entries)
      && DataBytes(entries) == DataBytes(v.entries)
  {
    var v := VisitDir(root, LAYER_ROOT, includeVcs);
    ScaffoldIsWritable();
    WritableAppend(SCAFFOLD, v.entries);
    BodyAppend(SCAFFOLD, v.entries);
    DataBytesAppend(SCAFFOLD, v.entries);
    ScaffoldHoldsNoData();
  }

  lemma DirectoriesHoldNoData(a: Entry, b: Entry)
    requires a.Directory? && b.Directory?
    ensures DataBytes([a, b]) == 0
  {
    SingleEntry(a, Progress([], 0, 0));
    SingleEntry(b, Progress([], 0, 0));
    DataBytesAppend([a], [b]);
    assert [a, b] == [a] + [b];
  }

  lemma ScaffoldHoldsNoData()
    ensures DataBytes(SCAFFOLD) == 0
  {
    DirectoriesHoldNoData(Directory(ETC), Directory(LAYER_ROOT));
  }

  lemma ScaffoldIsPlain()
    ensures Plain(LAYER_ROOT) && PlainPaths(SCAFFOLD)
  {
    assert Plain(ETC);
  }

  lemma LayerEntriesArePlain(root: Node, includeVcs: bool)
    requires root.Dir? && WellFormed(root)
    ensures PlainPaths(LayerEntries(root, includeVcs))
  {
    ScaffoldIsPlain();
    VisitDirIsPlain(root, LAYER_ROOT, includeVcs);
    PlainAppend(SCAFFOLD, VisitDir(root, LAYER_ROOT, includeVcs).entries);
  }

  /** Every packed layer is a whole number of blocks and reads back as the scaffold and
      exactly the visited entries; its totals are theirs, plus one for the root. */
  lemma PackedTreeReadsBack(root: Node, includeVcs: bool)
    requires WellFormed(root) && PackedTree(root, includeVcs).Some?
    ensures var layer := PackedTree(root, includeVcs).value; var entries := LayerEntries(root, includeVcs);
      && Read(layer.tar) == Some(entries)
      && |layer.tar| == 512 * (BodyBlocks(entries) + 2)
      && layer.entries == |entries| - 1
      && layer.bytes == DataBytes(entries)
  {
    var entries := LayerEntries(root, includeVcs);
    LayerEntriesAreWritable(root, includeVcs);
    LayerEntriesArePlain(root, includeVcs);
    PlainReadsBack(entries);
    LayerIsWholeBlocks(entries);
  }

  lemma PlainReadsBack(entries: seq<Entry>)
    requires Writable(entries) && PlainPaths(entries)
    ensures Read(Finished(Body(entries))) == Some(entries)
  {
    UnrootedSurvives(entries);
  }
}
