/**
 What is in a packed layer, said about the tree alone: a path of names leads to a
 node, and the node is in the layer unless a version-control directory is on the way.
 */
module LayerContents {
  import opened Wrappers
  import opened Bytes
  import opened Archive
  import opened Trees
  import opened Packing
  import opened Packer
  import opened PackProofs
  import opened Pruning

  /** Following `names` from `dir` arrives at `node`. */
  ghost predicate Leads(dir: Node, names: seq<Text>, node: Node)
    decreases |names|
  {
    if names == [] then node == dir
    else dir.Dir? && exists e :: e in dir.listing && e.name == names[0] && Leads(e.node, names[1..], node)
  }

  /** `base/name/name/...` */
  function Slashed(base: Text, names: seq<Text>): Text
    decreases |names|
  {
    if names == [] then base else Slashed(base + Ascii("/") + names[0], names[1..])
  }

  /** No directory of version control on the way; a file may be called anything. */
  predicate Clear(names: seq<Text>, node: Node) {
    && (forall k :: 0 <= k < |names| - 1 ==> !IsVersionControl(names[k]))
    && (node.Dir? && names != [] ==> !IsVersionControl(names[|names| - 1]))
  }

  /** A version-control directory inside no other. */
  predicate Outermost(names: seq<Text>, node: Node) {
    && names != [] && node.Dir? && IsVersionControl(names[|names| - 1])
    && forall k :: 0 <= k < |names| - 1 ==> !IsVersionControl(names[k])
  }

  /** A directory is 0755; so is a file with an execute bit, and any other is 0644. */
  function EntryFor(path: Text, node: Node): Entry
    requires node.File? || node.Dir?
  {
    if node.Dir? then Directory(path)
    else Entry.File(path, if AnyExecute(node.mode) then 493 else 420, node.data)
  }

  datatype Item = Packed(e: Entry) | LeftOut(path: Text)

  predicate Visited(v: Visit, item: Item) {
    match item
    case Packed(e) => e in v.entries
    case LeftOut(path) => path in v.skipped
  }

  predicate Becomes(names: seq<Text>, node: Node, includeVcs: bool, path: Text, item: Item) {
    match item
    case Packed(e) =>
      (node.File? || node.Dir?) && (includeVcs || Clear(names, node)) && e == EntryFor(path, node)
    case LeftOut(q) => !includeVcs && Outermost(names, node) && q == path
  }

  ghost predicate Holds(dir: Node, base: Text, includeVcs: bool, item: Item) {
    exists names, node ::
      names != [] && Leads(dir, names, node) && Becomes(names, node, includeVcs, Slashed(base, names), item)
  }

  /** The same, at or under one member of a listing. */
  ghost predicate HoldsUnder(e: Named, base: Text, includeVcs: bool, item: Item) {
    exists names, node ::
      Leads(e.node, names, node)
      && Becomes([e.name] + names, node, includeVcs, Slashed(Child(base, e.name), names), item)
  }

  // ----- one name at a time

  lemma SlashedCons(base: Text, name: Text, names: seq<Text>)
    ensures Slashed(base, [name] + names) == Slashed(Child(base, name), names)
  {
    assert ([name] + names)[1..] == names;
    assert base + Ascii("/") + name == Child(base, name);
  }

  lemma LeadsCons(dir: Node, name: Text, names: seq<Text>, node: Node)
    ensures Leads(dir, [name] + names, node) <==>
      dir.Dir? && exists e :: e in dir.listing && e.name == name && Leads(e.node, names, node)
  {
    assert ([name] + names)[1..] == names;
  }

  lemma HoldsInMember(dir: Node, base: Text, includeVcs: bool, item: Item)
    requires dir.Dir?
    ensures Holds(dir, base, includeVcs, item) <==>
      exists e :: e in dir.listing && HoldsUnder(e, base, includeVcs, item)
  {
    if Holds(dir, base, includeVcs, item) {
      var names, node :| names != [] && Leads(dir, names, node)
                         && Becomes(names, node, includeVcs, Slashed(base, names), item);
      assert names == [names[0]] + names[1..];
      LeadsCons(dir, names[0], names[1..], node);
      SlashedCons(base, names[0], names[1..]);
      var e :| e in dir.listing && e.name == names[0] && Leads(e.node, names[1..], node);
      assert HoldsUnder(e, base, includeVcs, item);
    }
    if e :| e in dir.listing && HoldsUnder(e, base, includeVcs, item) {
      var names, node :| Leads(e.node, names, node)
        && Becomes([e.name] + names, node, includeVcs, Slashed(Child(base, e.name), names), item);
      LeadsCons(dir, e.name, names, node);
      SlashedCons(base, e.name, names);
      assert [e.name] + names != [];
    }
  }

  lemma BecomesCons(name: Text, names: seq<Text>, node: Node, includeVcs: bool, path: Text, item: Item)
    requires names != []
    ensures Becomes([name] + names, node, includeVcs, path, item) <==>
      (includeVcs || !IsVersionControl(name)) && Becomes(names, node, includeVcs, path, item)
  {
    var all := [name] + names;
    assert all[0] == name;
    assert forall k :: 0 <= k < |names| ==> all[k + 1] == names[k];
    assert (forall k :: 0 <= k < |all| - 1 ==> !IsVersionControl(all[k])) <==>
      !IsVersionControl(name) && forall k :: 0 <= k < |names| - 1 ==> !IsVersionControl(names[k]) by {
      assert forall k :: 0 < k < |all| - 1 ==> all[k] == names[k - 1];
    }
  }

  /** What a member of a listing comes to by itself. */
  predicate ItselfBecomes(e: Named, base: Text, includeVcs: bool, item: Item) {
    Becomes([e.name], e.node, includeVcs, Child(base, e.name), item)
  }

  lemma HoldsByItself(e: Named, base: Text, includeVcs: bool, item: Item)
    requires ItselfBecomes(e, base, includeVcs, item)
    ensures HoldsUnder(e, base, includeVcs, item)
  {
    assert Leads(e.node, [], e.node) && [e.name] + [] == [e.name];
  }

  /** A member is its own entry, and whatever it holds, if it may be entered. */
  lemma HoldsUnderMeans(e: Named, base: Text, includeVcs: bool, item: Item)
    ensures HoldsUnder(e, base, includeVcs, item) <==>
      || ItselfBecomes(e, base, includeVcs, item)
      || ((includeVcs || !IsVersionControl(e.name)) && Holds(e.node, Child(base, e.name), includeVcs, item))
  {
    var child := Child(base, e.name);
    if HoldsUnder(e, base, includeVcs, item) {
      var names, node :| Leads(e.node, names, node)
                         && Becomes([e.name] + names, node, includeVcs, Slashed(child, names), item);
      if names == [] {
        assert [e.name] + names == [e.name];
      } else {
        BecomesCons(e.name, names, node, includeVcs, Slashed(child, names), item);
      }
    }
    if ItselfBecomes(e, base, includeVcs, item) {
      HoldsByItself(e, base, includeVcs, item);
    }
    if (includeVcs || !IsVersionControl(e.name)) && Holds(e.node, child, includeVcs, item) {
      var names, node :| names != [] && Leads(e.node, names, node)
                         && Becomes(names, node, includeVcs, Slashed(child, names), item);
      BecomesCons(e.name, names, node, includeVcs, Slashed(child, names), item);
    }
  }

  lemma OnlyDirectoriesHold(node: Node, base: Text, includeVcs: bool, item: Item)
    requires !node.Dir?
    ensures !Holds(node, base, includeVcs, item)
  {
  }

  // ----- the walk

  lemma VisitedPlus(a: Visit, b: Visit, item: Item)
    ensures Visited(Plus(a, b), item) <==> Visited(a, item) || Visited(b, item)
  {
  }

  lemma {:induction false} OneHolds(dir: Node, e: Named, base: Text, includeVcs: bool, item: Item)
    requires dir.Dir? && e in dir.listing
    ensures Visited(VisitOne(dir, e, base, includeVcs), item) <==> HoldsUnder(e, base, includeVcs, item)
    decreases dir, 0, 0
  {
    var child := Child(base, e.name);
    HoldsUnderMeans(e, base, includeVcs, item);
    SkippedMeans(e, includeVcs);
    if e.node.Dir? {
      if !IsSkipped(e, includeVcs) {
        WalkHolds(e.node, child, includeVcs, item);
        VisitedPlus(Visit(true, [Directory(child)], []), VisitDir(e.node, child, includeVcs), item);
      }
    } else {
      OnlyDirectoriesHold(e.node, child, includeVcs, item);
    }
  }

  lemma {:induction false} AllHold(dir: Node, rest: seq<Named>, base: Text, includeVcs: bool, item: Item)
    requires dir.Dir? && forall e :: e in rest ==> e in dir.listing
    ensures Visited(VisitAll(dir, rest, base, includeVcs), item) <==>
      exists e :: e in rest && HoldsUnder(e, base, includeVcs, item)
    decreases dir, 0, |rest|
  {
    if rest != [] {
      var init, last := rest[..|rest| - 1], rest[|rest| - 1];
      AllHold(dir, init, base, includeVcs, item);
      assert last in rest;
      OneHolds(dir, last, base, includeVcs, item);
      VisitedPlus(VisitAll(dir, init, base, includeVcs), VisitOne(dir, last, base, includeVcs), item);
      assert forall e :: e in rest <==> e in init || e == last;
    }
  }

  /** A walk finds exactly what the tree holds: an entry for every file and directory
      with no version-control directory on the way, under its own path, with its own
      bytes; and on the list of what was left out, exactly the outermost
      version-control directories. */
  lemma {:induction false} WalkHolds(dir: Node, base: Text, includeVcs: bool, item: Item)
    requires dir.Dir?
    ensures Visited(VisitDir(dir, base, includeVcs), item) <==> Holds(dir, base, includeVcs, item)
    decreases dir, 1, 0
  {
    SortedMembers(dir.listing);
    AllHold(dir, SortByName(dir.listing), base, includeVcs, item);
    HoldsInMember(dir, base, includeVcs, item);
  }

  // ----- layers

  lemma EntriesHold(dir: Node, base: Text, etc: Text, includeVcs: bool, e: Entry)
    requires dir.Dir? && SCAFFOLD == [Directory(etc), Directory(base)]
    ensures e in SCAFFOLD + VisitDir(dir, base, includeVcs).entries <==>
      e == Directory(etc) || e == Directory(base) || Holds(dir, base, includeVcs, Packed(e))
  {
    WalkHolds(dir, base, includeVcs, Packed(e));
    var v := VisitDir(dir, base, includeVcs);
    assert e in SCAFFOLD + v.entries <==> e in SCAFFOLD || e in v.entries;
  }

  /** The same of a whole layer, read back from its bytes: two directories around it,
      and then what the tree holds. */
  lemma LayerHolds(root: Node, base: Text, etc: Text, includeVcs: bool, e: Entry, path: Text)
    requires base == Ascii("etc/imageless") && etc == Ascii("etc")
    requires WellFormed(root) && PackedTree(root, includeVcs).Some?
    ensures var layer := PackedTree(root, includeVcs).value;
      && Read(layer.tar).Some?
      && (e in Read(layer.tar).value <==>
            e == Directory(etc) || e == Directory(base) || Holds(root, base, includeVcs, Packed(e)))
      && (path in layer.skipped <==> Holds(root, base, includeVcs, LeftOut(path)))
  {
    PackedTreeReadsBack(root, includeVcs);
    assert base == LAYER_ROOT && etc == ETC;
    EntriesHold(root, base, etc, includeVcs, e);
    WalkHolds(root, base, includeVcs, LeftOut(path));
  }

  lemma HasFileMeans(root: Node, name: Text)
    requires root.Dir?
    ensures HasFile(root.listing, name) <==> exists node: Node :: node.File? && Leads(root, [name], node)
  {
    if HasFile(root.listing, name) {
      var i :| 0 <= i < |root.listing| && root.listing[i].name == name && root.listing[i].node.File?;
      var e := root.listing[i];
      assert Leads(e.node, [], e.node);
      LeadsCons(root, name, [], e.node);
      assert [name] + [] == [name];
    }
    if node: Node :| node.File? && Leads(root, [name], node) {
      LeadsCons(root, name, [], node);
      assert [name] + [] == [name];
      var e :| e in root.listing && e.name == name && Leads(e.node, [], node);
      var i :| 0 <= i < |root.listing| && root.listing[i] == e;
    }
  }

  /** Only a directory with a `flake.nix` at its root is packed, and the layer tells
      whether there is a lock file beside it. */
  lemma LayerIsAFlake(root: Node, includeVcs: bool, flake: Text, lock: Text)
    requires flake == Ascii("flake.nix") && lock == Ascii("flake.lock") && PackedTree(root, includeVcs).Some?
    ensures root.Dir? && exists node: Node :: node.File? && Leads(root, [flake], node)
    ensures PackedTree(root, includeVcs).value.hasLock <==>
      exists node: Node :: node.File? && Leads(root, [lock], node)
  {
    HasFileMeans(root, flake);
    HasFileMeans(root, lock);
  }

  lemma HeldIsClear(root: Node, base: Text, e: Entry) returns (names: seq<Text>)
    requires Holds(root, base, false, Packed(e))
    ensures e.path == Slashed(base, names)
    ensures forall k :: 0 <= k < |names| - (if e.Directory? then 0 else 1) ==> !IsVersionControl(names[k])
  {
    var node;
    names, node :| names != [] && Leads(root, names, node)
      && Becomes(names, node, false, Slashed(base, names), Packed(e));
  }

  /** Without the option, nothing in a layer is inside a version-control directory. */
  lemma NoVersionControlInLayer(root: Node, base: Text, etc: Text, layer: Layer, entries: seq<Entry>, e: Entry)
    returns (names: seq<Text>)
    requires base == Ascii("etc/imageless") && etc == Ascii("etc")
    requires WellFormed(root) && PackedTree(root, false) == Some(layer)
    requires Read(layer.tar) == Some(entries) && e in entries
    ensures e.path == Slashed(base, names) || (names == [] && e.path == etc)
    ensures forall k :: 0 <= k < |names| - (if e.Directory? then 0 else 1) ==> !IsVersionControl(names[k])
  {
    LayerHolds(root, base, etc, false, e, []);
    if Holds(root, base, false, Packed(e)) {
      names := HeldIsClear(root, base, e);
    } else {
      names := [];
      assert Slashed(base, names) == base;
    }
  }
}
