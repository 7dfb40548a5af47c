/**
 What a layer says about the tree it came from: it determines that tree, and the
 node can stage whatever the packer accepted.
 */
module LayerTrees {
  import opened Wrappers
  import opened Bytes
  import opened Ustar
  import opened Archive
  import opened Trees
  import opened Budgets
  import opened Packing
  import opened Packer
  import opened PackProofs
  import opened Staging
  import opened Pruning

  // ----- paths below a path

  /** `path` lies strictly below `top`. */
  predicate Below(path: Text, top: Text) { top + [SLASH] <= path }

  lemma BelowChild(path: Text, top: Text, name: Text)
    requires path == Child(top, name) || Below(path, Child(top, name))
    ensures Below(path, top)
  {
    assert Child(top, name)[..|top| + 1] == top + [SLASH];
  }

  /** A path lies at or below at most one child. */
  lemma OneChild(path: Text, top: Text, m: Text, n: Text)
    requires SLASH !in m && SLASH !in n
    requires path == Child(top, m) || Below(path, Child(top, m))
    requires path == Child(top, n) || Below(path, Child(top, n))
    ensures m == n
  {
    var x, y := Child(top, m), Child(top, n);
    assert forall i :: 0 <= i < |m| ==> x[|top| + 1 + i] == m[i] && path[|top| + 1 + i] == m[i];
    assert forall i :: 0 <= i < |n| ==> y[|top| + 1 + i] == n[i] && path[|top| + 1 + i] == n[i];
    assert |x| < |path| ==> path[|x|] == SLASH;
    assert |y| < |path| ==> path[|y|] == SLASH;
    assert |m| == |n|;
  }

  /** Different names without slashes open disjoint subtrees. */
  lemma DisjointChildren(path: Text, top: Text, m: Text, n: Text)
    requires SLASH !in m && SLASH !in n && m != n
    requires path == Child(top, m) || Below(path, Child(top, m))
    ensures path != Child(top, n) && !Below(path, Child(top, n))
  {
    if path == Child(top, n) || Below(path, Child(top, n)) {
      OneChild(path, top, m, n);
    }
  }

  predicate AllBelow(entries: seq<Entry>, top: Text) {
    forall i :: 0 <= i < |entries| ==> Below(entries[i].path, top)
  }

  function HeadEntry(e: Named, path: Text): Entry {
    if e.node.File? then Entry.File(Child(path, e.name), PackedMode(e.node.mode), e.node.data)
    else Directory(Child(path, e.name))
  }

  /** One child's entries: its own, then those below it. */
  function TailEntries(e: Named, path: Text): seq<Entry> {
    if e.node.Dir? then VisitDir(e.node, Child(path, e.name), true).entries else []
  }

  lemma OneIsHeadAndTail(dir: Node, e: Named, path: Text)
    requires dir.Dir? && e in dir.listing && Regular(e.node)
    ensures VisitOne(dir, e, path, true).entries == [HeadEntry(e, path)] + TailEntries(e, path)
  {
  }

  lemma {:induction false} VisitAllBelow(dir: Node, rest: seq<Named>, path: Text)
    requires dir.Dir? && forall e :: e in rest ==> e in dir.listing
    ensures AllBelow(VisitAll(dir, rest, path, true).entries, path)
    decreases dir, 0, |rest|
  {
    if rest != [] {
      var init, e := rest[..|rest| - 1], rest[|rest| - 1];
      assert e in rest && e in dir.listing;
      VisitAllBelow(dir, init, path);
      var here := VisitOne(dir, e, path, true).entries;
      if e.node.Dir? {
        VisitBelow(e.node, Child(path, e.name));
      }
      forall i | 0 <= i < |here|
        ensures Below(here[i].path, path)
      {
        BelowChild(here[i].path, path, e.name);
      }
    }
  }

  lemma {:induction false} VisitBelow(dir: Node, path: Text)
    requires dir.Dir?
    ensures AllBelow(VisitDir(dir, path, true).entries, path)
    decreases dir, 1, 0
  {
    SortedMembers(dir.listing);
    VisitAllBelow(dir, SortByName(dir.listing), path);
  }

  /** The entries below a path, in order. */
  function Under(entries: seq<Entry>, top: Text): seq<Entry> {
    if entries == [] then []
    else
      var last := entries[|entries| - 1];
      Under(entries[..|entries| - 1], top) + if Below(last.path, top) then [last] else []
  }

  lemma {:induction false} UnderAppend(a: seq<Entry>, b: seq<Entry>, top: Text)
    ensures Under(a + b, top) == Under(a, top) + Under(b, top)
    decreases |b|
  {
    if b == [] {
      assert a + b == a;
    } else {
      SameInit(a, b);
      UnderAppend(a, b[..|b| - 1], top);
    }
  }

  lemma {:induction false} UnderAll(entries: seq<Entry>, top: Text)
    requires AllBelow(entries, top)
    ensures Under(entries, top) == entries
  {
    if entries != [] {
      UnderAll(entries[..|entries| - 1], top);
      assert entries == entries[..|entries| - 1] + [entries[|entries| - 1]];
    }
  }

  lemma {:induction false} UnderNone(entries: seq<Entry>, top: Text)
    requires forall i :: 0 <= i < |entries| ==> !Below(entries[i].path, top)
    ensures Under(entries, top) == []
  {
    if entries != [] {
      UnderNone(entries[..|entries| - 1], top);
    }
  }

  /** A child's entries all carry its name. */
  lemma OneCarriesName(dir: Node, e: Named, path: Text, x: Entry)
    requires dir.Dir? && e in dir.listing && Regular(e.node) && x in VisitOne(dir, e, path, true).entries
    ensures x.path == Child(path, e.name) || Below(x.path, Child(path, e.name))
    ensures x.path == Child(path, e.name) ==> x == HeadEntry(e, path)
  {
    OneIsHeadAndTail(dir, e, path);
    if e.node.Dir? {
      VisitBelow(e.node, Child(path, e.name));
    }
  }

  ghost predicate PlainNames(rest: seq<Named>) { forall e :: e in rest ==> SLASH !in e.name }

  /** The entry at a child's path is that child's own. */
  lemma {:induction false} HeadOf(dir: Node, rest: seq<Named>, path: Text, name: Text, x: Entry) returns (e: Named)
    requires dir.Dir? && (forall e :: e in rest ==> e in dir.listing) && AllRegular(rest) && PlainNames(rest)
    requires SLASH !in name && x.path == Child(path, name) && x in VisitAll(dir, rest, path, true).entries
    ensures e in rest && e.name == name && x == HeadEntry(e, path)
    decreases |rest|
  {
    var init, last := rest[..|rest| - 1], rest[|rest| - 1];
    assert last in rest;
    if x in VisitAll(dir, init, path, true).entries {
      e := HeadOf(dir, init, path, name, x);
    } else {
      e := last;
      OneCarriesName(dir, last, path, x);
      if last.name != name {
        DisjointChildren(x.path, path, last.name, name);
      }
    }
  }

  lemma {:induction false} HeadIsThere(dir: Node, rest: seq<Named>, path: Text, e: Named)
    requires dir.Dir? && (forall e :: e in rest ==> e in dir.listing) && AllRegular(rest) && e in rest
    ensures HeadEntry(e, path) in VisitAll(dir, rest, path, true).entries
    decreases |rest|
  {
    var init, last := rest[..|rest| - 1], rest[|rest| - 1];
    assert last in rest;
    if e == last {
      OneIsHeadAndTail(dir, last, path);
    } else {
      assert e in init;
      HeadIsThere(dir, init, path, e);
    }
  }

  lemma UnderOther(dir: Node, e: Named, path: Text, name: Text)
    requires dir.Dir? && e in dir.listing && Regular(e.node) && SLASH !in e.name && SLASH !in name && e.name != name
    ensures Under(VisitOne(dir, e, path, true).entries, Child(path, name)) == []
  {
    var here := VisitOne(dir, e, path, true).entries;
    forall i | 0 <= i < |here|
      ensures !Below(here[i].path, Child(path, name))
    {
      OneCarriesName(dir, e, path, here[i]);
      DisjointChildren(here[i].path, path, e.name, name);
    }
    UnderNone(here, Child(path, name));
  }

  lemma UnderOwn(dir: Node, e: Named, path: Text)
    requires dir.Dir? && e in dir.listing && Regular(e.node)
    ensures Under(VisitOne(dir, e, path, true).entries, Child(path, e.name)) == TailEntries(e, path)
  {
    var top := Child(path, e.name);
    OneIsHeadAndTail(dir, e, path);
    UnderAppend([HeadEntry(e, path)], TailEntries(e, path), top);
    UnderNone([HeadEntry(e, path)], top);
    if e.node.Dir? {
      VisitBelow(e.node, top);
    }
    UnderAll(TailEntries(e, path), top);
  }

  lemma {:induction false} UnderMissing(dir: Node, rest: seq<Named>, path: Text, name: Text)
    requires dir.Dir? && (forall e :: e in rest ==> e in dir.listing) && AllRegular(rest) && PlainNames(rest)
    requires SLASH !in name && forall e :: e in rest ==> e.name != name
    ensures Under(VisitAll(dir, rest, path, true).entries, Child(path, name)) == []
    decreases |rest|
  {
    if rest != [] {
      var init, last := rest[..|rest| - 1], rest[|rest| - 1];
      assert last in rest;
      UnderMissing(dir, init, path, name);
      UnderOther(dir, last, path, name);
      UnderAppend(VisitAll(dir, init, path, true).entries, VisitOne(dir, last, path, true).entries, Child(path, name));
    }
  }

  /** What lies below a child's path is that child's own visit. */
  lemma {:induction false} UnderChild(dir: Node, rest: seq<Named>, path: Text, e: Named)
    requires dir.Dir? && (forall e :: e in rest ==> e in dir.listing) && AllRegular(rest) && PlainNames(rest)
    requires DistinctNames(rest) && e in rest
    ensures Under(VisitAll(dir, rest, path, true).entries, Child(path, e.name)) == TailEntries(e, path)
    decreases |rest|
  {
    var init, last := rest[..|rest| - 1], rest[|rest| - 1];
    assert last in rest;
    UnderAppend(VisitAll(dir, init, path, true).entries, VisitOne(dir, last, path, true).entries, Child(path, e.name));
    if e == last {
      UnderMissing(dir, init, path, e.name);
      UnderOwn(dir, e, path);
    } else {
      assert e in init;
      UnderChild(dir, init, path, e);
      UnderOther(dir, last, path, e.name);
    }
  }

  // ----- a layer determines its tree

  lemma SortedIsOrdinary(dir: Node)
    requires dir.Dir? && WellFormed(dir) && Regular(dir)
    ensures var sorted := SortByName(dir.listing);
      && (forall e :: e in sorted <==> e in dir.listing)
      && AllRegular(sorted) && PlainNames(sorted) && DistinctNames(sorted)
  {
    SortedMembers(dir.listing);
    DistinctPermutes(dir.listing, SortByName(dir.listing));
  }

  lemma SameChild(a: Node, b: Node, path: Text, e: Named) returns (e': Named)
    requires a.Dir? && b.Dir? && WellFormed(a) && WellFormed(b) && Regular(a) && Regular(b)
    requires VisitDir(a, path, true).entries == VisitDir(b, path, true).entries
    requires e in a.listing
    ensures e' in b.listing && e'.name == e.name && HeadEntry(e', path) == HeadEntry(e, path)
    ensures TailEntries(e', path) == TailEntries(e, path)
  {
    SortedIsOrdinary(a);
    SortedIsOrdinary(b);
    HeadIsThere(a, SortByName(a.listing), path, e);
    e' := HeadOf(b, SortByName(b.listing), path, e.name, HeadEntry(e, path));
    UnderChild(a, SortByName(a.listing), path, e);
    UnderChild(b, SortByName(b.listing), path, e');
  }

  lemma OneName(listing: seq<Named>, x: Named, y: Named)
    requires DistinctNames(listing) && x in listing && y in listing && x.name == y.name
    ensures x == y
  {
  }

  lemma SameHead(e: Named, e': Named, path: Text)
    requires Regular(e.node) && Regular(e'.node) && HeadEntry(e, path) == HeadEntry(e', path)
    ensures e.node.Dir? <==> e'.node.Dir?
    ensures e.node.File? ==> SameTree(e.node, e'.node)
  {
  }

  /** Two trees that are visited alike are the same tree. */
  lemma {:induction false} VisitDetermines(a: Node, b: Node, path: Text)
    requires a.Dir? && b.Dir? && WellFormed(a) && WellFormed(b) && Regular(a) && Regular(b)
    requires VisitDir(a, path, true).entries == VisitDir(b, path, true).entries
    ensures SameTree(a, b)
    decreases a
  {
    forall e | e in b.listing
      ensures Names(a.listing, e.name)
    {
      var e' := SameChild(b, a, path, e);
    }
    forall e | e in a.listing
      ensures Names(b.listing, e.name)
    {
      var e' := SameChild(a, b, path, e);
    }
    forall e, e' | e in a.listing && e' in b.listing && e.name == e'.name
      ensures SameTree(e.node, e'.node)
    {
      var x := SameChild(a, b, path, e);
      OneName(b.listing, x, e');
      SameHead(e, e', path);
      if e.node.Dir? {
        VisitDetermines(e.node, e'.node, Child(path, e.name));
      }
    }
  }

  /** Two packed layers have the same bytes exactly when they hold the same tree. */
  lemma LayersDetermineTrees(a: Node, b: Node)
    requires WellFormed(a) && WellFormed(b) && PackedTree(a, true).Some? && PackedTree(b, true).Some?
    ensures PackedTree(a, true).value.tar == PackedTree(b, true).value.tar <==> SameTree(a, b)
  {
    if PackedTree(a, true).value.tar == PackedTree(b, true).value.tar {
      PackedTreeReadsBack(a, true);
      PackedTreeReadsBack(b, true);
      VisitClean(a, LAYER_ROOT);
      VisitClean(b, LAYER_ROOT);
      SameTails(SCAFFOLD, VisitDir(a, LAYER_ROOT, true).entries, VisitDir(b, LAYER_ROOT, true).entries);
      VisitDetermines(a, b, LAYER_ROOT);
    }
    if SameTree(a, b) {
      PackingIgnoresOrder(a, b, true);
    }
  }

  lemma SameTails<T>(head: seq<T>, a: seq<T>, b: seq<T>)
    requires head + a == head + b
    ensures a == b
  {
    assert a == (head + a)[|head|..] && b == (head + b)[|head|..];
  }

  // ----- the two budgets

  /** Every path of the visit can be written into a header. */
  predicate PathsFit(root: Node)
    requires root.Dir?
  {
    var entries := VisitDir(root, LAYER_ROOT, true).entries;
    forall i :: 0 <= i < |entries| ==> SplitPath(Stored(entries[i])).Some?
  }

  lemma AcceptsExactly(v: Visit)
    requires PackedModes(v.entries) && Writable(SCAFFOLD)
    ensures Accepts(v, AfterScaffold()) <==>
      && v.clean && Within(1 + |v.entries|, DataBytes(v.entries))
      && forall i :: 0 <= i < |v.entries| ==> SplitPath(Stored(v.entries[i])).Some?
  {
    if DataBytes(v.entries) <= MAX_STAGED_SOURCE_BYTES {
      OnlyPathsMatter(v.entries);
    }
  }

  lemma DirModes(dir: Node, path: Text, includeVcs: bool)
    requires dir.Dir?
    ensures PackedModes(VisitDir(dir, path, includeVcs).entries)
  {
    SortedMembers(dir.listing);
    VisitModes(dir, SortByName(dir.listing), path, includeVcs);
  }

  lemma AcceptsStageable(t: Node, v: Visit)
    requires t.Dir? && PackedModes(v.entries) && Writable(SCAFFOLD)
    requires v.entries == VisitDir(t, LAYER_ROOT, true).entries && v.clean == VisitDir(t, LAYER_ROOT, true).clean
    ensures Accepts(v, AfterScaffold()) <==> Stageable(t) && Utf8Names(t) && PathsFit(t)
    ensures Accepts(v, AfterScaffold()) ==> NodesOf(t) == 1 + |v.entries| && BytesOf(t) == DataBytes(v.entries)
  {
    AcceptsExactly(v);
    VisitClean(t, LAYER_ROOT);
    if Regular(t) {
      VisitCounts(t, LAYER_ROOT);
    }
  }

  /** The client packs exactly the trees that the node can stage, apart from names
      that are not UTF-8 and paths too long for a header; and it counts what the
      node will count. */
  lemma BudgetsAgree(root: Node, includeVcs: bool)
    requires root.Dir? && HasFile(root.listing, FLAKE)
    ensures Source(root, includeVcs).Dir?
    ensures PackedTree(root, includeVcs).Some? <==>
      var t := Source(root, includeVcs);
      && Regular(t) && NodesOf(t) <= 4096 && BytesOf(t) <= 16 * 1024 * 1024
      && Utf8Names(t) && PathsFit(t)
    ensures PackedTree(root, includeVcs).Some? ==>
      && Stageable(Source(root, includeVcs))
      && NodesOf(Source(root, includeVcs)) == PackedTree(root, includeVcs).value.entries
      && BytesOf(Source(root, includeVcs)) == PackedTree(root, includeVcs).value.bytes
  {
    var t := Source(root, includeVcs);
    var v := VisitDir(root, LAYER_ROOT, includeVcs);
    SourceVisit(root, LAYER_ROOT, includeVcs);
    DirModes(root, LAYER_ROOT, includeVcs);
    ScaffoldIsWritable();
    AcceptsStageable(t, v);
  }

  lemma SourceIsWellFormed(root: Node, includeVcs: bool)
    requires WellFormed(root)
    ensures WellFormed(Source(root, includeVcs))
  {
    PrunedWellFormed(root);
  }

  lemma PackedIs(root: Node, includeVcs: bool)
    requires PackedTree(root, includeVcs).Some?
    ensures root.Dir? && HasFile(root.listing, FLAKE) && Writable(SCAFFOLD)
    ensures var v := VisitDir(root, LAYER_ROOT, includeVcs);
      && Accepts(v, AfterScaffold())
      && PackedTree(root, includeVcs).value.tar == Finished(Charge(AfterScaffold(), v).tar)
  {
  }

  lemma PackedWhen(root: Node, v: Visit)
    requires root.Dir? && HasFile(root.listing, FLAKE) && Writable(SCAFFOLD)
    requires v.entries == VisitDir(root, LAYER_ROOT, true).entries && v.clean == VisitDir(root, LAYER_ROOT, true).clean
    requires Accepts(v, AfterScaffold())
    ensures PackedTree(root, true).Some? && PackedTree(root, true).value.tar == Finished(Charge(AfterScaffold(), v).tar)
  {
  }

  /** Packing the pruned tree gives the same layer as pruning while packing. */
  lemma SourcePacksAlike(root: Node, includeVcs: bool)
    requires PackedTree(root, includeVcs).Some?
    ensures PackedTree(Source(root, includeVcs), true).Some?
    ensures PackedTree(Source(root, includeVcs), true).value.tar == PackedTree(root, includeVcs).value.tar
  {
    PackedIs(root, includeVcs);
    SourceVisit(root, LAYER_ROOT, includeVcs);
    SourceHasFlake(root, includeVcs);
    PackedWhen(Source(root, includeVcs), VisitDir(root, LAYER_ROOT, includeVcs));
  }

  lemma SourceHasFlake(root: Node, includeVcs: bool)
    requires root.Dir? && HasFile(root.listing, FLAKE)
    ensures Source(root, includeVcs).Dir? && HasFile(Source(root, includeVcs).listing, FLAKE)
  {
    if !includeVcs {
      var i :| 0 <= i < |root.listing| && root.listing[i].name == FLAKE && root.listing[i].node.File?;
      var e := root.listing[i];
      PrunedMember(root.listing, Named(e.name, Pruned(e.node)));
    }
  }
}
