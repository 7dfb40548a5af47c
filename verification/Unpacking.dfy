/**
 Unpacking a layer the way an archiver does: entry by entry, in order, into an empty
 file system. Nothing here looks at how the packer walks; that a packed layer unpacks
 to the packed tree is a theorem.
 */
module Unpacking {
  import opened Wrappers
  import opened Bytes
  import opened Ustar
  import opened Archive
  import opened Trees
  import opened Budgets
  import opened Packing
  import opened Packer
  import opened PackProofs
  import opened Staging
  import opened Pruning
  import opened LayerTrees

  datatype Content = DirectoryAt | FileAt(mode: nat, data: seq<byte>)

  type Image = map<Text, Content>

  function ContentOf(e: Entry): Content {
    if e.Directory? then DirectoryAt else FileAt(e.mode, e.data)
  }

  /** The directory that `path` is in, if it is not at the top, is there already. */
  ghost predicate ParentIsThere(image: Image, path: Text) {
    forall parent, name :: path == Child(parent, name) && SLASH !in name ==>
      parent in image && image[parent] == DirectoryAt
  }

  /** One entry. Its parent must exist, and a path is never a file and a directory. */
  ghost function Place(image: Image, e: Entry): Option<Image> {
    if !ParentIsThere(image, e.path) || (e.path in image && (image[e.path] == DirectoryAt) != e.Directory?) then None
    else Some(image[e.path := ContentOf(e)])
  }

  ghost function Extract(entries: seq<Entry>): Option<Image> {
    if entries == [] then Some(map[])
    else
      match Extract(entries[..|entries| - 1])
      case None => None
      case Some(image) => Place(image, entries[|entries| - 1])
  }

  /** What a walk of the file system from `path` finds. */
  ghost predicate Holds(image: Image, path: Text, node: Node)
    decreases node
  {
    path in image &&
    match node
    case File(mode, data) => image[path] == FileAt(mode, data)
    case Dir(listing) =>
      && image[path] == DirectoryAt
      && (forall e :: e in listing ==> Holds(image, Child(path, e.name), e.node))
      && (forall name :: SLASH !in name && Child(path, name) in image ==> Names(listing, name))
    case _ => false
  }

  /** The tree found at the layer's root after unpacking the archive. */
  ghost predicate Unpacks(tar: seq<byte>, found: Node) {
    && found.Dir? && WellFormed(found)
    && Read(tar).Some? && Extract(Read(tar).value).Some?
    && Holds(Extract(Read(tar).value).value, LAYER_ROOT, found)
  }

  // ----- layers are orderly: every path once, every directory before what is in it

  ghost predicate DistinctPaths(entries: seq<Entry>) {
    forall i, j :: 0 <= i < j < |entries| ==> entries[i].path != entries[j].path
  }

  /** Entry i is directly in `base`, or in a directory listed before it. */
  ghost predicate Sheltered(entries: seq<Entry>, base: Text, i: nat)
    requires i < |entries|
  {
    exists parent, name :: && entries[i].path == Child(parent, name) && SLASH !in name
                           && (parent == base || exists j :: 0 <= j < i && entries[j] == Directory(parent))
  }

  ghost predicate AllSheltered(entries: seq<Entry>, base: Text) {
    forall i :: 0 <= i < |entries| ==> Sheltered(entries, base, i)
  }

  lemma ChildInjective(p: Text, m: Text, q: Text, n: Text)
    requires Child(p, m) == Child(q, n) && SLASH !in m && SLASH !in n
    ensures p == q && m == n
  {
    var x := Child(p, m);
    assert x[|p|] == SLASH && x[|q|] == SLASH;
    assert forall i :: |p| < i < |x| ==> x[i] == m[i - |p| - 1];
    assert forall i :: |q| < i < |x| ==> x[i] == n[i - |q| - 1];
    assert x[..|p|] == p && x[..|q|] == q;
    assert x[|p| + 1..] == m && x[|q| + 1..] == n;
  }

  lemma ShelteredAppend(a: seq<Entry>, b: seq<Entry>, base: Text)
    requires AllSheltered(a, base) && AllSheltered(b, base)
    ensures AllSheltered(a + b, base)
  {
    var all := a + b;
    forall i | 0 <= i < |all|
      ensures Sheltered(all, base, i)
    {
      if i < |a| {
        assert Sheltered(a, base, i);
        assert forall j :: 0 <= j < i ==> all[j] == a[j];
      } else {
        assert Sheltered(b, base, i - |a|);
        assert forall j :: 0 <= j < i - |a| ==> all[|a| + j] == b[j];
      }
    }
  }

  /** What is sheltered below a directory is sheltered once that directory is listed. */
  lemma ShelteredBelow(base: Text, name: Text, entries: seq<Entry>)
    requires SLASH !in name && AllSheltered(entries, Child(base, name))
    ensures AllSheltered([Directory(Child(base, name))] + entries, base)
  {
    var head := Directory(Child(base, name));
    var all := [head] + entries;
    forall i | 0 <= i < |all|
      ensures Sheltered(all, base, i)
    {
      if i == 0 {
        assert all[0].path == Child(base, name);
      } else {
        assert Sheltered(entries, Child(base, name), i - 1);
        var parent, n :|
          && entries[i - 1].path == Child(parent, n) && SLASH !in n
          && (parent == Child(base, name) || exists j :: 0 <= j < i - 1 && entries[j] == Directory(parent));
        assert all[i].path == Child(parent, n);
        if parent == Child(base, name) {
          assert all[0] == Directory(parent);
        } else {
          var j :| 0 <= j < i - 1 && entries[j] == Directory(parent);
          assert all[j + 1] == Directory(parent);
        }
      }
    }
  }

  lemma {:induction false} VisitAllSheltered(dir: Node, rest: seq<Named>, path: Text)
    requires dir.Dir? && (forall e :: e in rest ==> e in dir.listing) && AllRegular(rest) && PlainNames(rest)
    requires forall e :: e in rest ==> WellFormed(e.node)
    ensures AllSheltered(VisitAll(dir, rest, path, true).entries, path)
    decreases dir, 0, |rest|
  {
    if rest != [] {
      var init, e := rest[..|rest| - 1], rest[|rest| - 1];
      assert e in rest && e in dir.listing;
      VisitAllSheltered(dir, init, path);
      OneIsHeadAndTail(dir, e, path);
      if e.node.Dir? {
        VisitSheltered(e.node, Child(path, e.name));
        ShelteredBelow(path, e.name, TailEntries(e, path));
      } else {
        assert VisitOne(dir, e, path, true).entries == [HeadEntry(e, path)];
      }
      ShelteredAppend(VisitAll(dir, init, path, true).entries, VisitOne(dir, e, path, true).entries, path);
    }
  }

  lemma {:induction false} VisitSheltered(dir: Node, path: Text)
    requires dir.Dir? && WellFormed(dir) && Regular(dir)
    ensures AllSheltered(VisitDir(dir, path, true).entries, path)
    decreases dir, 1, 0
  {
    SortedIsOrdinary(dir);
    VisitAllSheltered(dir, SortByName(dir.listing), path);
  }

  lemma {:induction false} Owner(dir: Node, rest: seq<Named>, path: Text, x: Entry) returns (e: Named)
    requires dir.Dir? && (forall d :: d in rest ==> d in dir.listing) && x in VisitAll(dir, rest, path, true).entries
    ensures e in rest && x in VisitOne(dir, e, path, true).entries
    decreases |rest|
  {
    var init, last := rest[..|rest| - 1], rest[|rest| - 1];
    assert last in rest;
    if x in VisitAll(dir, init, path, true).entries {
      e := Owner(dir, init, path, x);
    } else {
      e := last;
    }
  }

  lemma DistinctAppend(a: seq<Entry>, b: seq<Entry>)
    requires DistinctPaths(a) && DistinctPaths(b)
    requires forall x, y :: x in a && y in b ==> x.path != y.path
    ensures DistinctPaths(a + b)
  {
  }

  lemma {:induction false} VisitAllDistinct(dir: Node, rest: seq<Named>, path: Text)
    requires dir.Dir? && (forall e :: e in rest ==> e in dir.listing) && AllRegular(rest) && PlainNames(rest)
    requires DistinctNames(rest) && forall e :: e in rest ==> WellFormed(e.node)
    ensures DistinctPaths(VisitAll(dir, rest, path, true).entries)
    decreases dir, 0, |rest|
  {
    if rest != [] {
      var init, last := rest[..|rest| - 1], rest[|rest| - 1];
      assert last in rest && last in dir.listing;
      VisitAllDistinct(dir, init, path);
      VisitOneDistinct(dir, last, path);
      var before, here := VisitAll(dir, init, path, true).entries, VisitOne(dir, last, path, true).entries;
      forall x, y | x in before && y in here
        ensures x.path != y.path
      {
        var e := Owner(dir, init, path, x);
        OneCarriesName(dir, e, path, x);
        OneCarriesName(dir, last, path, y);
        if x.path == y.path {
          OneChild(x.path, path, e.name, last.name);
        }
      }
      DistinctAppend(before, here);
    }
  }

  lemma {:induction false} VisitOneDistinct(dir: Node, e: Named, path: Text)
    requires dir.Dir? && e in dir.listing && Regular(e.node) && WellFormed(e.node)
    ensures DistinctPaths(VisitOne(dir, e, path, true).entries)
    decreases dir, 0, 0
  {
    OneIsHeadAndTail(dir, e, path);
    if e.node.Dir? {
      VisitDistinct(e.node, Child(path, e.name));
      VisitBelow(e.node, Child(path, e.name));
      DistinctAppend([HeadEntry(e, path)], TailEntries(e, path));
    }
  }

  lemma {:induction false} VisitDistinct(dir: Node, path: Text)
    requires dir.Dir? && WellFormed(dir) && Regular(dir)
    ensures DistinctPaths(VisitDir(dir, path, true).entries)
    decreases dir, 1, 0
  {
    SortedIsOrdinary(dir);
    VisitAllDistinct(dir, SortByName(dir.listing), path);
  }

  // ----- orderly entries unpack, each to its own place

  ghost predicate Pictures(image: Image, entries: seq<Entry>) {
    && (forall e :: e in entries ==> e.path in image && image[e.path] == ContentOf(e))
    && (forall p :: p in image ==> exists e :: e in entries && e.path == p)
  }

  /** In a whole archive, an entry at the top is in no directory. */
  ghost predicate AtTop(path: Text) { SLASH !in path }

  ghost predicate Orderly(entries: seq<Entry>) {
    DistinctPaths(entries) && forall i :: 0 <= i < |entries| ==> AtTop(entries[i].path) || Preceded(entries, i)
  }

  ghost predicate Preceded(entries: seq<Entry>, i: nat)
    requires i < |entries|
  {
    exists parent, name :: entries[i].path == Child(parent, name) && SLASH !in name && Directory(parent) in entries[..i]
  }

  lemma OrderlyInit(entries: seq<Entry>)
    requires Orderly(entries) && entries != []
    ensures Orderly(entries[..|entries| - 1])
  {
    var init := entries[..|entries| - 1];
    forall i | 0 <= i < |init|
      ensures AtTop(init[i].path) || Preceded(init, i)
    {
      assert init[..i] == entries[..i];
      assert AtTop(entries[i].path) || Preceded(entries, i);
    }
  }

  lemma LastHasParent(image: Image, entries: seq<Entry>)
    requires entries != [] && Orderly(entries) && Pictures(image, entries[..|entries| - 1])
    ensures ParentIsThere(image, entries[|entries| - 1].path)
  {
    var last := |entries| - 1;
    var path := entries[last].path;
    forall parent, name | path == Child(parent, name) && SLASH !in name
      ensures parent in image && image[parent] == DirectoryAt
    {
      assert path[|parent|] == SLASH;
      assert Preceded(entries, last);
      var p, n :| path == Child(p, n) && SLASH !in n && Directory(p) in entries[..last];
      ChildInjective(p, n, parent, name);
    }
  }

  lemma {:induction false} OrderlyExtracts(entries: seq<Entry>)
    requires Orderly(entries)
    ensures Extract(entries).Some? && Pictures(Extract(entries).value, entries)
  {
    if entries != [] {
      var init, last := entries[..|entries| - 1], entries[|entries| - 1];
      OrderlyInit(entries);
      OrderlyExtracts(init);
      var image := Extract(init).value;
      LastHasParent(image, entries);
      assert forall e :: e in init ==> e.path != last.path;
      assert last.path !in image;
      assert forall e :: e in entries <==> e in init || e == last;
    }
  }

  lemma ScaffoldIsOrderly(layer: seq<Entry>, root: Text, top: Text, name: Text)
    requires root == Child(top, name) && SLASH !in top && SLASH !in name
    requires DistinctPaths(layer) && AllSheltered(layer, root) && AllBelow(layer, root)
    ensures Orderly([Directory(top), Directory(root)] + layer)
  {
    var all := [Directory(top), Directory(root)] + layer;
    DistinctAppend([Directory(top), Directory(root)], layer);
    forall i | 0 <= i < |all|
      ensures AtTop(all[i].path) || Preceded(all, i)
    {
      if i == 1 {
        assert all[..1][0] == Directory(top);
        assert all[1].path == Child(top, name);
      } else if i > 1 {
        assert all[i] == layer[i - 2] && Sheltered(layer, root, i - 2);
        var parent, n :| && layer[i - 2].path == Child(parent, n) && SLASH !in n
                         && (parent == root || exists j :: 0 <= j < i - 2 && layer[j] == Directory(parent));
        if parent == root {
          assert all[..i][1] == Directory(root);
        } else {
          var j :| 0 <= j < i - 2 && layer[j] == Directory(parent);
          assert all[..i][j + 2] == Directory(parent);
        }
        assert all[i].path == Child(parent, n);
      }
    }
  }

  lemma RootName() returns (name: Text)
    ensures LAYER_ROOT == Child(ETC, name) && SLASH !in name && SLASH !in ETC
  {
    name := Ascii("imageless");
    assert LAYER_ROOT[..3] == ETC && LAYER_ROOT[4..] == name;
  }

  /** Every packed layer unpacks: paths are distinct and parents come first. */
  lemma LayerExtracts(t: Node)
    requires t.Dir? && WellFormed(t) && Regular(t)
    ensures Extract(LayerEntries(t, true)).Some?
    ensures Pictures(Extract(LayerEntries(t, true)).value, LayerEntries(t, true))
  {
    var name := RootName();
    VisitDistinct(t, LAYER_ROOT);
    VisitSheltered(t, LAYER_ROOT);
    VisitBelow(t, LAYER_ROOT);
    ScaffoldIsOrderly(VisitDir(t, LAYER_ROOT, true).entries, LAYER_ROOT, ETC, name);
    OrderlyExtracts(LayerEntries(t, true));
  }

  // ----- what is found there is the packed tree

  /** Below `path` the image shows the visit of `t`, and nothing else. */
  ghost predicate Shows(image: Image, path: Text, t: Node)
    requires t.Dir?
  {
    var entries := VisitDir(t, path, true).entries;
    && (forall x :: x in entries ==> x.path in image && image[x.path] == ContentOf(x))
    && (forall p :: p in image && Below(p, path) ==> exists x :: x in entries && x.path == p)
  }

  lemma OrdinaryVisit(t: Node, path: Text)
    requires t.Dir? && WellFormed(t) && Regular(t)
    ensures var sorted := SortByName(t.listing);
      && (forall e :: e in sorted <==> e in t.listing)
      && AllRegular(sorted) && PlainNames(sorted) && DistinctNames(sorted)
      && VisitDir(t, path, true).entries == VisitAll(t, sorted, path, true).entries
  {
    SortedIsOrdinary(t);
  }

  lemma ShowsHead(image: Image, path: Text, t: Node, e: Named)
    requires t.Dir? && WellFormed(t) && Regular(t) && Shows(image, path, t) && e in t.listing
    ensures Child(path, e.name) in image && image[Child(path, e.name)] == ContentOf(HeadEntry(e, path))
  {
    OrdinaryVisit(t, path);
    HeadIsThere(t, SortByName(t.listing), path, e);
  }

  lemma ShownIsListed(image: Image, path: Text, t: Node, name: Text)
    requires t.Dir? && WellFormed(t) && Regular(t) && Shows(image, path, t)
    requires SLASH !in name && Child(path, name) in image
    ensures Names(t.listing, name)
  {
    OrdinaryVisit(t, path);
    assert Below(Child(path, name), path);
    var x :| x in VisitDir(t, path, true).entries && x.path == Child(path, name);
    var e := HeadOf(t, SortByName(t.listing), path, name, x);
    assert e in t.listing;
  }

  /** The image shows every subdirectory's own visit below it. */
  lemma ShowsBelow(image: Image, path: Text, t: Node, e: Named)
    requires t.Dir? && WellFormed(t) && Regular(t) && Shows(image, path, t) && e in t.listing && e.node.Dir?
    ensures Shows(image, Child(path, e.name), e.node)
  {
    var child := Child(path, e.name);
    var sorted := SortByName(t.listing);
    OrdinaryVisit(t, path);
    forall x | x in VisitDir(e.node, child, true).entries
      ensures x in VisitDir(t, path, true).entries
    {
      OneIsHeadAndTail(t, e, path);
      OneIsInAll(t, sorted, path, e, x);
    }
    forall p | p in image && Below(p, child)
      ensures exists x :: x in VisitDir(e.node, child, true).entries && x.path == p
    {
      BelowChild(p, path, e.name);
      var x :| x in VisitDir(t, path, true).entries && x.path == p;
      var owner := Owner(t, sorted, path, x);
      OneCarriesName(t, owner, path, x);
      OneChild(p, path, owner.name, e.name);
      OneName(sorted, owner, e);
      OneIsHeadAndTail(t, e, path);
      assert x in TailEntries(e, path);
    }
  }

  lemma {:induction false} OneIsInAll(dir: Node, rest: seq<Named>, path: Text, e: Named, x: Entry)
    requires dir.Dir? && (forall d :: d in rest ==> d in dir.listing) && e in rest
    requires x in VisitOne(dir, e, path, true).entries
    ensures x in VisitAll(dir, rest, path, true).entries
    decreases |rest|
  {
    var init, last := rest[..|rest| - 1], rest[|rest| - 1];
    if e != last {
      assert e in init;
      OneIsInAll(dir, init, path, e, x);
    }
  }

  lemma PackedModeKeepsExecute(mode: nat)
    ensures AnyExecute(PackedMode(mode)) <==> AnyExecute(mode)
  {
  }

  /** A file found where a file was packed is that file. */
  lemma FileIsSame(image: Image, path: Text, e: Named, node: Node)
    requires e.node.File? && Child(path, e.name) in image && image[Child(path, e.name)] == ContentOf(HeadEntry(e, path))
    requires Holds(image, Child(path, e.name), node)
    ensures SameTree(e.node, node) && Regular(node)
  {
    PackedModeKeepsExecute(e.node.mode);
  }

  lemma DirectoryIsFound(image: Image, path: Text, e: Named, node: Node)
    requires e.node.Dir? && Child(path, e.name) in image && image[Child(path, e.name)] == ContentOf(HeadEntry(e, path))
    requires Holds(image, Child(path, e.name), node)
    ensures node.Dir?
  {
  }

  lemma SameNames(image: Image, path: Text, t: Node, found: Node)
    requires t.Dir? && WellFormed(t) && Regular(t) && Shows(image, path, t)
    requires found.Dir? && WellFormed(found) && Holds(image, path, found)
    ensures forall e :: e in t.listing ==> Names(found.listing, e.name)
    ensures forall e :: e in found.listing ==> Names(t.listing, e.name)
  {
    forall e | e in t.listing
      ensures Names(found.listing, e.name)
    {
      ShowsHead(image, path, t, e);
    }
    forall e | e in found.listing
      ensures Names(t.listing, e.name)
    {
      assert Holds(image, Child(path, e.name), e.node);
      ShownIsListed(image, path, t, e.name);
    }
  }

  /** Whatever tree is found where the image shows the visit of `t`, is `t`. */
  lemma {:induction false} FoundIsSame(image: Image, path: Text, t: Node, found: Node)
    requires t.Dir? && WellFormed(t) && Regular(t) && Shows(image, path, t)
    requires found.Dir? && WellFormed(found) && Holds(image, path, found)
    ensures SameTree(t, found) && Regular(found)
    decreases t, 1
  {
    SameNames(image, path, t, found);
    forall e, e' | e in t.listing && e' in found.listing && e.name == e'.name
      ensures SameTree(e.node, e'.node) && Regular(e'.node)
    {
      FoundChildIsSame(image, path, t, found, e, e');
    }
    EveryoneIsRegular(t, found);
  }

  lemma EveryoneIsRegular(t: Node, found: Node)
    requires t.Dir? && found.Dir? && forall e :: e in found.listing ==> Names(t.listing, e.name)
    requires forall e, e' :: e in t.listing && e' in found.listing && e.name == e'.name ==> Regular(e'.node)
    ensures Regular(found)
  {
    forall e' | e' in found.listing
      ensures Regular(e'.node)
    {
      var i :| 0 <= i < |t.listing| && t.listing[i].name == e'.name;
      assert t.listing[i] in t.listing;
    }
  }

  lemma {:induction false} FoundChildIsSame(image: Image, path: Text, t: Node, found: Node, e: Named, e': Named)
    requires t.Dir? && WellFormed(t) && Regular(t) && Shows(image, path, t)
    requires found.Dir? && WellFormed(found) && Holds(image, path, found)
    requires e in t.listing && e' in found.listing && e.name == e'.name
    ensures SameTree(e.node, e'.node) && Regular(e'.node)
    decreases t, 0
  {
    ShowsHead(image, path, t, e);
    assert Holds(image, Child(path, e'.name), e'.node);
    if e.node.Dir? {
      DirectoryIsFound(image, path, e, e'.node);
      ShowsBelow(image, path, t, e);
      FoundIsSame(image, Child(path, e.name), e.node, e'.node);
    } else {
      assert Regular(e.node);
      FileIsSame(image, path, e, e'.node);
    }
  }

  /** A packed tree's layer, unpacked, shows that tree at its root. */
  lemma LayerShows(t: Node)
    requires t.Dir? && WellFormed(t) && Regular(t)
    ensures Extract(LayerEntries(t, true)).Some? && Shows(Extract(LayerEntries(t, true)).value, LAYER_ROOT, t)
    ensures LAYER_ROOT in Extract(LayerEntries(t, true)).value
    ensures Extract(LayerEntries(t, true)).value[LAYER_ROOT] == DirectoryAt
  {
    LayerExtracts(t);
    var image, entries := Extract(LayerEntries(t, true)).value, VisitDir(t, LAYER_ROOT, true).entries;
    assert LayerEntries(t, true) == SCAFFOLD + entries;
    assert SCAFFOLD[1] == Directory(LAYER_ROOT) && SCAFFOLD[1] in LayerEntries(t, true);
    forall p | p in image && Below(p, LAYER_ROOT)
      ensures exists x :: x in entries && x.path == p
    {
      var x :| x in LayerEntries(t, true) && x.path == p;
      assert |p| > |LAYER_ROOT| > |ETC|;
      assert x !in SCAFFOLD;
    }
  }

  lemma SourceIsPacked(root: Node, includeVcs: bool)
    requires WellFormed(root) && PackedTree(root, includeVcs).Some?
    ensures var t := Source(root, includeVcs);
      && t.Dir? && WellFormed(t) && Stageable(t)
      && NodesOf(t) == PackedTree(root, includeVcs).value.entries
      && BytesOf(t) == PackedTree(root, includeVcs).value.bytes
      && Read(PackedTree(root, includeVcs).value.tar) == Some(LayerEntries(t, true))
  {
    PackedTreeReadsBack(root, includeVcs);
    BudgetsAgree(root, includeVcs);
    SourceVisit(root, LAYER_ROOT, includeVcs);
    SourceIsWellFormed(root, includeVcs);
  }

  /** A packed layer, decoded, is always stageable: whatever tree it unpacks to is
      the packed one (so every execute bit survives) and costs the node what the
      client had counted. */
  lemma DecodedIsStageable(root: Node, includeVcs: bool, found: Node)
    requires WellFormed(root) && PackedTree(root, includeVcs).Some?
    requires Unpacks(PackedTree(root, includeVcs).value.tar, found)
    ensures SameTree(Source(root, includeVcs), found) && Stageable(found)
    ensures NodesOf(found) == PackedTree(root, includeVcs).value.entries
    ensures BytesOf(found) == PackedTree(root, includeVcs).value.bytes
  {
    var t := Source(root, includeVcs);
    SourceIsPacked(root, includeVcs);
    LayerShows(t);
    FoundIsSame(Extract(LayerEntries(t, true)).value, LAYER_ROOT, t, found);
    SameTreeSameVisit(t, found, LAYER_ROOT, true);
    VisitCounts(t, LAYER_ROOT);
    VisitCounts(found, LAYER_ROOT);
  }

  /** And what the node stages from it packs to the very same bytes again. */
  lemma StagedRepacks(root: Node, includeVcs: bool, found: Node)
    requires WellFormed(root) && PackedTree(root, includeVcs).Some?
    requires Unpacks(PackedTree(root, includeVcs).value.tar, found)
    ensures PackedTree(Staged(found), true).Some?
    ensures PackedTree(Staged(found), true).value.tar == PackedTree(root, includeVcs).value.tar
  {
    DecodedIsStageable(root, includeVcs, found);
    SourceIsWellFormed(root, includeVcs);
    SourcePacksAlike(root, includeVcs);
    PackingIgnoresOrder(Source(root, includeVcs), found, true);
    StagedIsSame(found);
    PackingIgnoresOrder(found, Staged(found), true);
  }

  // ----- such a tree exists

  /** The tree with the modes the layer gives it. */
  function Collapsed(t: Node): Node { Remoded(t, PACKED_EXECUTABLE, PACKED_PLAIN) }

  const PACKED_EXECUTABLE: nat := 0x1ED   // 0o755
  const PACKED_PLAIN: nat := 0x1A4        // 0o644

  lemma {:induction false} ShownIsHeld(image: Image, path: Text, t: Node)
    requires t.Dir? && WellFormed(t) && Regular(t) && Shows(image, path, t)
    requires path in image && image[path] == DirectoryAt
    ensures Holds(image, path, Collapsed(t))
    decreases t, 1
  {
    var copy := RemodedAll(t.listing, PACKED_EXECUTABLE, PACKED_PLAIN);
    forall e' | e' in copy
      ensures Holds(image, Child(path, e'.name), e'.node)
    {
      var i :| 0 <= i < |copy| && copy[i] == e';
      ShownChildIsHeld(image, path, t, t.listing[i]);
    }
    forall name | SLASH !in name && Child(path, name) in image
      ensures Names(copy, name)
    {
      ShownIsListed(image, path, t, name);
      var i :| 0 <= i < |t.listing| && t.listing[i].name == name;
      assert copy[i].name == name;
    }
  }

  lemma {:induction false} ShownChildIsHeld(image: Image, path: Text, t: Node, e: Named)
    requires t.Dir? && WellFormed(t) && Regular(t) && Shows(image, path, t) && e in t.listing
    ensures Holds(image, Child(path, e.name), Collapsed(e.node))
    decreases t, 0
  {
    ShowsHead(image, path, t, e);
    if e.node.Dir? {
      ShowsBelow(image, path, t, e);
      ShownIsHeld(image, Child(path, e.name), e.node);
    } else {
      assert Regular(e.node);
      FileIsHeld(image, path, e);
    }
  }

  lemma FileIsHeld(image: Image, path: Text, e: Named)
    requires e.node.File? && Child(path, e.name) in image && image[Child(path, e.name)] == ContentOf(HeadEntry(e, path))
    ensures Holds(image, Child(path, e.name), Collapsed(e.node))
  {
  }

  lemma CollapsedIsSame(t: Node)
    requires WellFormed(t)
    ensures WellFormed(Collapsed(t)) && SameTree(t, Collapsed(t))
  {
    RemodedIsSame(t, PACKED_EXECUTABLE, PACKED_PLAIN);
  }

  /** Every packed layer unpacks, to a tree that can be named. */
  lemma PackedUnpacks(root: Node, includeVcs: bool)
    requires WellFormed(root) && PackedTree(root, includeVcs).Some?
    ensures Unpacks(PackedTree(root, includeVcs).value.tar, Collapsed(Source(root, includeVcs)))
  {
    var t := Source(root, includeVcs);
    SourceIsPacked(root, includeVcs);
    CollapsedIsSame(t);
    CollapsedUnpacks(PackedTree(root, includeVcs).value.tar, t);
  }

  lemma CollapsedUnpacks(tar: seq<byte>, t: Node)
    requires t.Dir? && WellFormed(t) && Regular(t) && WellFormed(Collapsed(t))
    requires Read(tar) == Some(LayerEntries(t, true))
    ensures Unpacks(tar, Collapsed(t))
  {
    LayerShows(t);
    ShownIsHeld(Extract(LayerEntries(t, true)).value, LAYER_ROOT, t);
  }
}
