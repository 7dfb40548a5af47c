/** The node's copy of an embedded source, with its own budget. */
module Staging {
  import opened Wrappers
  import opened Bytes
  import opened Order
  import opened Archive
  import opened Trees
  import opened Budgets
  import opened Packing
  import opened Packer
  import opened PackProofs

  /** Regular files and directories only. */
  predicate Regular(node: Node)
    decreases node
  {
    node.File? || (node.Dir? && AllRegular(node.listing))
  }

  predicate AllRegular(rest: seq<Named>)
    decreases rest
  {
    forall e :: e in rest ==> Regular(e.node)
  }

  /** What a tree costs: a node each for itself and everything in it ... */
  function NodesOf(node: Node): nat
    decreases node
  {
    if node.Dir? then 1 + NodesAll(node.listing) else 1
  }

  function NodesAll(rest: seq<Named>): nat
    decreases rest
  {
    if rest == [] then 0 else NodesOf(rest[0].node) + NodesAll(rest[1..])
  }

  /** ... and its file bytes. */
  function BytesOf(node: Node): nat
    decreases node
  {
    match node
    case Dir(listing) => BytesAll(listing)
    case File(_, data) => |data|
    case _ => 0
  }

  function BytesAll(rest: seq<Named>): nat
    decreases rest
  {
    if rest == [] then 0 else BytesOf(rest[0].node) + BytesAll(rest[1..])
  }

  predicate Stageable(node: Node) {
    Regular(node) && Within(NodesOf(node), BytesOf(node))
  }

  const STAGED_EXECUTABLE: nat := 0x1E8   // 0o750
  const STAGED_PLAIN: nat := 0x1A0        // 0o640

  /** A tree whose files keep only their execute bit, as one of two modes. */
  function Remoded(node: Node, executable: nat, plain: nat): Node
    decreases node
  {
    match node
    case File(mode, data) => Node.File(if AnyExecute(mode) then executable else plain, data)
    case Dir(listing) => Dir(RemodedAll(listing, executable, plain))
    case _ => node
  }

  function RemodedAll(rest: seq<Named>, executable: nat, plain: nat): (r: seq<Named>)
    ensures |r| == |rest|
    ensures forall i :: 0 <= i < |r| ==> r[i] == Named(rest[i].name, Remoded(rest[i].node, executable, plain))
    decreases rest
  {
    if rest == [] then []
    else [Named(rest[0].name, Remoded(rest[0].node, executable, plain))] + RemodedAll(rest[1..], executable, plain)
  }

  /** The node's copy. */
  function Staged(node: Node): Node { Remoded(node, STAGED_EXECUTABLE, STAGED_PLAIN) }

  /** The owner reads and writes, the group reads, and nobody else gets in. */
  predicate PrivateMode(mode: nat) {
    mode < 512 && mode / 64 >= 6 && (mode / 8) % 8 >= 4 && (mode / 16) % 2 == 0 && mode % 8 == 0
  }

  predicate PrivateFiles(node: Node)
    decreases node
  {
    match node
    case File(mode, _) => PrivateMode(mode)
    case Dir(listing) => forall e :: e in listing ==> PrivateFiles(e.node)
    case _ => true
  }

  /** Whatever modes a layer brings, what the node stages from it is private at every depth. */
  lemma {:induction false} StagedIsPrivate(node: Node)
    ensures PrivateFiles(Staged(node))
    decreases node
  {
    if node.Dir? {
      var copy := RemodedAll(node.listing, STAGED_EXECUTABLE, STAGED_PLAIN);
      forall e | e in copy
        ensures PrivateFiles(e.node)
      {
        var i :| 0 <= i < |copy| && copy[i] == e;
        assert node.listing[i] in node.listing;
        StagedIsPrivate(node.listing[i].node);
      }
    }
  }

  lemma LoadCons(e: Named, rest: seq<Named>)
    ensures NodesAll([e] + rest) == NodesOf(e.node) + NodesAll(rest)
    ensures BytesAll([e] + rest) == BytesOf(e.node) + BytesAll(rest)
  {
    assert ([e] + rest)[1..] == rest;
  }

  lemma {:induction false} LoadAppend(a: seq<Named>, b: seq<Named>)
    ensures NodesAll(a + b) == NodesAll(a) + NodesAll(b)
    ensures BytesAll(a + b) == BytesAll(a) + BytesAll(b)
    decreases |a|
  {
    if a == [] {
      assert a + b == b;
    } else {
      var head, tail := a[0], a[1..];
      LoadAppend(tail, b);
      Head(a);
      Associates([head], tail, b);
      LoadCons(head, tail + b);
      LoadCons(head, tail);
    }
  }

  lemma LoadSnoc(listing: seq<Named>, k: nat)
    requires k < |listing|
    ensures NodesAll(listing[..k + 1]) == NodesAll(listing[..k]) + NodesOf(listing[k].node)
    ensures BytesAll(listing[..k + 1]) == BytesAll(listing[..k]) + BytesOf(listing[k].node)
  {
    assert listing[..k + 1] == listing[..k] + [listing[k]];
    LoadAppend(listing[..k], [listing[k]]);
    LoadCons(listing[k], []);
    assert [listing[k]] + [] == [listing[k]];
  }

  lemma LoadPrefix(listing: seq<Named>, k: nat)
    requires k <= |listing|
    ensures NodesAll(listing[..k]) <= NodesAll(listing)
    ensures BytesAll(listing[..k]) <= BytesAll(listing)
  {
    assert listing == listing[..k] + listing[k..];
    LoadAppend(listing[..k], listing[k..]);
  }

  ghost predicate Affords(node: Node, entries: nat, bytes: nat) {
    Regular(node) && Within(entries + NodesOf(node), bytes + BytesOf(node))
  }

  lemma RegularChild(node: Node, k: nat)
    requires node.Dir? && k < |node.listing| && Regular(node)
    ensures Regular(node.listing[k].node)
  {
    assert node.listing[k] in node.listing;
  }

  /** Whoever affords a directory affords each child after its predecessors. */
  lemma AffordsChild(node: Node, k: nat, entries: nat, bytes: nat)
    requires node.Dir? && k < |node.listing| && Affords(node, entries, bytes)
    ensures var before := node.listing[..k];
      Affords(node.listing[k].node, entries + 1 + NodesAll(before), bytes + BytesAll(before))
  {
    LoadSnoc(node.listing, k);
    LoadPrefix(node.listing, k + 1);
    RegularChild(node, k);
  }

  /** `copy_staged_tree`, in whatever order the directories are enumerated: the
      copy is made exactly when the tree is regular and still fits the budget. */
  method StageTree(node: Node, budget: StagingBudget) returns (ok: bool, copy: Node)
    requires Within(budget.entries, budget.bytes)
    modifies budget
    ensures ok <==> Affords(node, old(budget.entries), old(budget.bytes))
    ensures ok ==> budget.entries == old(budget.entries) + NodesOf(node)
    ensures ok ==> budget.bytes == old(budget.bytes) + BytesOf(node)
    ensures ok ==> copy == Staged(node)
    decreases node
  {
    if node.Symlink? {
      return false, node;
    }
    ok := budget.CountEntry();
    if !ok {
      return false, node;
    }
    match node
    case Dir(listing) =>
      ok, copy := StageChildren(node, budget);
    case File(mode, data) =>
      ok := budget.CountBytes(|data|);
      copy := Node.File(if AnyExecute(mode) then STAGED_EXECUTABLE else STAGED_PLAIN, data);
    case _ => return false, node;
  }

  /** The loop over `read_dir`, once the directory itself is counted. */
  method StageChildren(node: Node, budget: StagingBudget) returns (ok: bool, copy: Node)
    requires node.Dir? && budget.entries >= 1 && Within(budget.entries, budget.bytes)
    modifies budget
    ensures ok <==> Affords(node, old(budget.entries) - 1, old(budget.bytes))
    ensures ok ==> budget.entries == old(budget.entries) - 1 + NodesOf(node)
    ensures ok ==> budget.bytes == old(budget.bytes) + BytesOf(node)
    ensures ok ==> copy == Staged(node)
    decreases node, 0
  {
    var listing := node.listing;
    var copies: seq<Named> := [];
    for k := 0 to |listing|
      invariant Within(budget.entries, budget.bytes)
      invariant budget.entries == old(budget.entries) + NodesAll(listing[..k])
      invariant budget.bytes == old(budget.bytes) + BytesAll(listing[..k])
      invariant AllRegular(listing[..k])
      invariant |copies| == k && forall i :: 0 <= i < k ==> copies[i] == Named(listing[i].name, Staged(listing[i].node))
    {
      var child;
      assert listing[k] in listing;
      ok, child := StageTree(listing[k].node, budget);
      if !ok {
        if Affords(node, old(budget.entries) - 1, old(budget.bytes)) {
          AffordsChild(node, k, old(budget.entries) - 1, old(budget.bytes));
        }
        return false, node;
      }
      LoadSnoc(listing, k);
      copies := copies + [Named(listing[k].name, child)];
    }
    assert listing[..|listing|] == listing;
    assert copies == RemodedAll(listing, STAGED_EXECUTABLE, STAGED_PLAIN);
    return true, Dir(copies);
  }

  // ----- the same load as the packer counts

  lemma {:induction false} LoadInsert(e: Named, sorted: seq<Named>)
    ensures NodesAll(Insert(e, sorted)) == NodesOf(e.node) + NodesAll(sorted)
    ensures BytesAll(Insert(e, sorted)) == BytesOf(e.node) + BytesAll(sorted)
    decreases |sorted|
  {
    if sorted == [] || LexLe(e.name, sorted[0].name) {
      InsertBefore(e, sorted);
      LoadCons(e, sorted);
    } else {
      var head, tail := sorted[0], sorted[1..];
      Head(sorted);
      LoadInsert(e, tail);
      InsertPast(e, head, tail);
      LoadCons(head, Insert(e, tail));
      LoadCons(head, tail);
    }
  }

  lemma {:induction false} LoadSurvivesSort(listing: seq<Named>)
    ensures NodesAll(SortByName(listing)) == NodesAll(listing)
    ensures BytesAll(SortByName(listing)) == BytesAll(listing)
    decreases |listing|
  {
    if listing != [] {
      var head, tail := listing[0], listing[1..];
      Head(listing);
      LoadSurvivesSort(tail);
      SortCons(head, tail);
      LoadInsert(head, SortByName(tail));
      LoadCons(head, tail);
    } else {
      assert SortByName(listing) == [];
    }
  }

  predicate Utf8Names(node: Node)
    decreases node
  {
    node.Dir? ==> AllUtf8(node.listing) && forall e :: e in node.listing ==> Utf8Names(e.node)
  }

  lemma {:induction false} VisitAllCounts(dir: Node, rest: seq<Named>, path: Text)
    requires dir.Dir? && (forall e :: e in rest ==> e in dir.listing) && AllRegular(rest)
    ensures |VisitAll(dir, rest, path, true).entries| == NodesAll(rest)
    ensures DataBytes(VisitAll(dir, rest, path, true).entries) == BytesAll(rest)
    decreases dir, 0, |rest|
  {
    if rest != [] {
      var init, e := rest[..|rest| - 1], rest[|rest| - 1];
      assert e in rest;
      VisitAllCounts(dir, init, path);
      VisitOneCounts(dir, e, path);
      DataBytesAppend(VisitAll(dir, init, path, true).entries, VisitOne(dir, e, path, true).entries);
      LoadSnoc(rest, |rest| - 1);
      assert rest[..|rest|] == rest;
    }
  }

  lemma {:induction false} VisitOneCounts(dir: Node, e: Named, path: Text)
    requires dir.Dir? && e in dir.listing && Regular(e.node)
    ensures |VisitOne(dir, e, path, true).entries| == NodesOf(e.node)
    ensures DataBytes(VisitOne(dir, e, path, true).entries) == BytesOf(e.node)
    decreases dir, 0, 0
  {
    var child := Child(path, e.name);
    match e.node
    case Dir(_) =>
      SingleEntry(Directory(child), Progress([], 0, 0));
      VisitCounts(e.node, child);
      DataBytesAppend([Directory(child)], VisitDir(e.node, child, true).entries);
    case File(mode, data) => SingleEntry(Entry.File(child, PackedMode(mode), data), Progress([], 0, 0));
    case _ =>
  }

  /** The packer visits, below the root, exactly what the node counts. */
  lemma {:induction false} VisitCounts(dir: Node, path: Text)
    requires dir.Dir? && Regular(dir)
    ensures 1 + |VisitDir(dir, path, true).entries| == NodesOf(dir)
    ensures DataBytes(VisitDir(dir, path, true).entries) == BytesOf(dir)
    decreases dir, 1, 0
  {
    SortedMembers(dir.listing);
    VisitAllCounts(dir, SortByName(dir.listing), path);
    LoadSurvivesSort(dir.listing);
  }

  predicate AllUtf8Names(rest: seq<Named>) { forall e :: e in rest ==> Utf8Names(e.node) }

  lemma {:induction false} VisitAllClean(dir: Node, rest: seq<Named>, path: Text)
    requires dir.Dir? && (forall e :: e in rest ==> e in dir.listing)
    ensures VisitAll(dir, rest, path, true).clean <==> AllRegular(rest) && AllUtf8Names(rest)
    decreases dir, 0, |rest|
  {
    if rest != [] {
      var init, e := rest[..|rest| - 1], rest[|rest| - 1];
      assert e in rest;
      VisitAllClean(dir, init, path);
      if e.node.Dir? {
        VisitClean(e.node, Child(path, e.name));
      }
      assert forall x :: x in rest <==> x in init || x == e;
    }
  }

  lemma {:induction false} VisitClean(dir: Node, path: Text)
    requires dir.Dir?
    ensures VisitDir(dir, path, true).clean <==> Regular(dir) && Utf8Names(dir)
    decreases dir, 1, 0
  {
    SortedMembers(dir.listing);
    VisitAllClean(dir, SortByName(dir.listing), path);
  }

  /** Changing modes this way changes nothing that matters. */
  lemma {:induction false} RemodedIsSame(node: Node, executable: nat, plain: nat)
    requires WellFormed(node) && AnyExecute(executable) && !AnyExecute(plain)
    ensures SameTree(node, Remoded(node, executable, plain)) && WellFormed(Remoded(node, executable, plain))
    ensures Regular(node) ==> Regular(Remoded(node, executable, plain))
    decreases node
  {
    if node.Dir? {
      var listing, copy := node.listing, RemodedAll(node.listing, executable, plain);
      forall i | 0 <= i < |listing|
        ensures SameTree(listing[i].node, copy[i].node) && WellFormed(copy[i].node)
        ensures Regular(listing[i].node) ==> Regular(copy[i].node)
        ensures copy[i].name == listing[i].name
      {
        assert listing[i] in listing;
        RemodedIsSame(listing[i].node, executable, plain);
      }
      PointwiseSame(listing, copy);
      PointwiseWellFormed(listing, copy);
      PointwiseRegular(listing, copy);
    }
  }

  /** Staging changes only mode bits, and keeps the execute bit. */
  lemma StagedIsSame(node: Node)
    requires WellFormed(node)
    ensures SameTree(node, Staged(node)) && WellFormed(Staged(node))
    ensures Regular(node) ==> Regular(Staged(node))
  {
    RemodedIsSame(node, STAGED_EXECUTABLE, STAGED_PLAIN);
  }

  /** Listings with the same names in the same places, and the same trees under them. */
  lemma PointwiseSame(listing: seq<Named>, copy: seq<Named>)
    requires |copy| == |listing| && DistinctNames(listing)
    requires forall i :: 0 <= i < |listing| ==>
      copy[i].name == listing[i].name && SameTree(listing[i].node, copy[i].node)
    ensures SameTree(Dir(listing), Dir(copy))
  {
    forall e, e' | e in listing && e' in copy && e.name == e'.name
      ensures SameTree(e.node, e'.node)
    {
      var i :| 0 <= i < |listing| && listing[i] == e;
      var j :| 0 <= j < |copy| && copy[j] == e';
      assert i == j;
    }
    assert forall i :: 0 <= i < |copy| ==> copy[i].name == listing[i].name;
    assert (forall e :: e in copy ==> Names(listing, e.name)) && (forall e :: e in listing ==> Names(copy, e.name));
  }

  lemma PointwiseWellFormed(listing: seq<Named>, copy: seq<Named>)
    requires |copy| == |listing| && WellFormed(Dir(listing))
    requires forall i :: 0 <= i < |listing| ==> copy[i].name == listing[i].name && WellFormed(copy[i].node)
    ensures WellFormed(Dir(copy))
  {
    forall e' | e' in copy
      ensures e'.name != [] && SLASH !in e'.name && 0 !in e'.name && WellFormed(e'.node)
    {
      var j :| 0 <= j < |copy| && copy[j] == e';
      assert listing[j] in listing && listing[j].name == e'.name;
    }
    assert DistinctNames(copy);
  }

  lemma PointwiseRegular(listing: seq<Named>, copy: seq<Named>)
    requires |copy| == |listing|
    requires forall i :: 0 <= i < |listing| ==> Regular(listing[i].node) ==> Regular(copy[i].node)
    ensures Regular(Dir(listing)) ==> Regular(Dir(copy))
  {
    if AllRegular(listing) {
      forall e | e in copy
        ensures Regular(e.node)
      {
        var j :| 0 <= j < |copy| && copy[j] == e;
        assert listing[j] in listing;
      }
    }
  }
}
