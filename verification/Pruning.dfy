/** Leaving version-control directories out is packing the tree without them. */
module Pruning {
  import opened Wrappers
  import opened Bytes
  import opened Order
  import opened Archive
  import opened Trees
  import opened Packing
  import opened Packer
  import opened PackProofs

  function Pruned(node: Node): Node
    decreases node
  {
    if node.Dir? then Dir(PrunedAll(node.listing)) else node
  }

  function PrunedAll(rest: seq<Named>): seq<Named>
    decreases rest
  {
    if rest == [] then []
    else PrunedOne(rest[0]) + PrunedAll(rest[1..])
  }

  function PrunedOne(e: Named): seq<Named>
    decreases e
  {
    if IsSkipped(e, false) then [] else [Named(e.name, Pruned(e.node))]
  }

  /** The tree a packer with these options packs. */
  function Source(root: Node, includeVcs: bool): Node { if includeVcs then root else Pruned(root) }

  lemma {:induction false} PrunedMember(rest: seq<Named>, x: Named)
    ensures x in PrunedAll(rest) <==>
      exists e :: e in rest && !IsSkipped(e, false) && x == Named(e.name, Pruned(e.node))
    decreases |rest|
  {
    if rest != [] {
      PrunedMember(rest[1..], x);
      assert rest == [rest[0]] + rest[1..];
    }
  }

  lemma PrunedCons(e: Named, rest: seq<Named>)
    ensures PrunedAll([e] + rest) == PrunedOne(e) + PrunedAll(rest)
  {
    assert ([e] + rest)[1..] == rest;
  }

  lemma {:induction false} PrunedSnoc(rest: seq<Named>, e: Named)
    ensures PrunedAll(rest + [e]) == PrunedAll(rest) + PrunedOne(e)
    decreases |rest|
  {
    if rest == [] {
      assert rest + [e] == [e] + rest;
      PrunedCons(e, rest);
    } else {
      var head, tail := rest[0], rest[1..];
      PrunedSnoc(tail, e);
      PrunedCons(head, tail + [e]);
      assert rest + [e] == [head] + (tail + [e]);
    }
  }

  // ----- pruning and sorting commute

  /** Nothing in the pruned rest comes before what bounds the rest. */
  lemma PrunedBound(sorted: seq<Named>, name: Text)
    requires forall e :: e in sorted ==> LexLe(name, e.name)
    ensures PrunedAll(sorted) != [] ==> LexLe(name, PrunedAll(sorted)[0].name)
  {
    if PrunedAll(sorted) != [] {
      PrunedMember(sorted, PrunedAll(sorted)[0]);
    }
  }

  /** Insertion into what is left: nothing happens for a name that is left out. */
  function InsertKept(e: Named, kept: seq<Named>): seq<Named> {
    if IsSkipped(e, false) then kept else Insert(Named(e.name, Pruned(e.node)), kept)
  }

  lemma InsertFirst(e: Named, sorted: seq<Named>)
    requires forall x :: x in sorted ==> LexLe(e.name, x.name)
    ensures PrunedAll([e] + sorted) == InsertKept(e, PrunedAll(sorted))
  {
    PrunedCons(e, sorted);
    PrunedBound(sorted, e.name);
    assert [Named(e.name, Pruned(e.node))] + [] == [Named(e.name, Pruned(e.node))];
  }

  lemma InsertLater(e: Named, head: Named, tail: seq<Named>)
    requires !LexLe(e.name, head.name)
    ensures InsertKept(e, PrunedAll([head] + tail)) == PrunedOne(head) + InsertKept(e, PrunedAll(tail))
  {
    PrunedCons(head, tail);
    if IsSkipped(head, false) {
      assert PrunedAll([head] + tail) == PrunedAll(tail);
    } else if !IsSkipped(e, false) {
      InsertPast(Named(e.name, Pruned(e.node)), PrunedOne(head)[0], PrunedAll(tail));
    }
  }

  lemma HeadBounds(sorted: seq<Named>, name: Text)
    requires WeaklyAscending(sorted) && (sorted != [] ==> LexLe(name, sorted[0].name))
    ensures forall x :: x in sorted ==> LexLe(name, x.name)
  {
    forall x | x in sorted
      ensures LexLe(name, x.name)
    {
      var i :| 0 <= i < |sorted| && sorted[i] == x;
      if i > 0 {
        LexTransitive(name, sorted[0].name, x.name);
      }
    }
  }

  lemma {:induction false} InsertPruned(e: Named, sorted: seq<Named>)
    requires WeaklyAscending(sorted)
    ensures PrunedAll(Insert(e, sorted)) == InsertKept(e, PrunedAll(sorted))
    decreases |sorted|
  {
    if sorted == [] || LexLe(e.name, sorted[0].name) {
      HeadBounds(sorted, e.name);
      InsertFirst(e, sorted);
      InsertBefore(e, sorted);
    } else {
      var head, tail := sorted[0], sorted[1..];
      assert sorted == [head] + tail;
      InsertPruned(e, tail);
      InsertPast(e, head, tail);
      PrunedCons(head, Insert(e, tail));
      InsertLater(e, head, tail);
    }
  }

  lemma SortNothing()
    ensures SortByName([]) == [] && PrunedAll(SortByName([])) == []
  {
  }

  lemma {:induction false} PrunedSorts(listing: seq<Named>)
    ensures SortByName(PrunedAll(listing)) == PrunedAll(SortByName(listing))
    decreases |listing|
  {
    if listing != [] {
      var head, tail := listing[0], listing[1..];
      Head(listing);
      PrunedSorts(tail);
      PrunedSortsCons(head, tail);
    } else {
      SortNothing();
    }
  }

  lemma PrunedSortsCons(head: Named, tail: seq<Named>)
    requires SortByName(PrunedAll(tail)) == PrunedAll(SortByName(tail))
    ensures SortByName(PrunedAll([head] + tail)) == PrunedAll(SortByName([head] + tail))
  {
    SortWeaklyAscends(tail);
    SortCons(head, tail);
    InsertPruned(head, SortByName(tail));
    PrunedCons(head, tail);
    if IsSkipped(head, false) {
      assert PrunedAll([head] + tail) == PrunedAll(tail);
    } else {
      SortCons(PrunedOne(head)[0], PrunedAll(tail));
    }
  }

  // ----- the visits

  lemma {:induction false} AsciiIsUtf8(s: Text)
    requires forall i :: 0 <= i < |s| ==> s[i] < 0x80
    ensures ValidUtf8(s)
    decreases |s|
  {
    if s != [] {
      AsciiIsUtf8(s[1..]);
    }
  }

  lemma SkippedIsUtf8(e: Named)
    requires IsSkipped(e, false)
    ensures ValidUtf8(e.name)
  {
    AsciiIsUtf8(e.name);
  }

  lemma PrunedUtf8(listing: seq<Named>)
    ensures AllUtf8(PrunedAll(listing)) <==> AllUtf8(listing)
  {
    if AllUtf8(listing) {
      forall i | 0 <= i < |PrunedAll(listing)|
        ensures ValidUtf8(PrunedAll(listing)[i].name)
      {
        PrunedMember(listing, PrunedAll(listing)[i]);
      }
    }
    if AllUtf8(PrunedAll(listing)) {
      forall i | 0 <= i < |listing|
        ensures ValidUtf8(listing[i].name)
      {
        var e := listing[i];
        if IsSkipped(e, false) {
          SkippedIsUtf8(e);
        } else {
          var x := Named(e.name, Pruned(e.node));
          PrunedMember(listing, x);
          assert x in PrunedAll(listing);
        }
      }
    }
  }

  function Quiet(v: Visit): Visit { v.(skipped := []) }

  lemma PrunedSubset(dir: Node, rest: seq<Named>)
    requires dir.Dir? && forall e :: e in rest ==> e in dir.listing
    ensures forall x :: x in PrunedAll(rest) ==> x in PrunedAll(dir.listing)
  {
    forall x | x in PrunedAll(rest)
      ensures x in PrunedAll(dir.listing)
    {
      PrunedMember(rest, x);
      PrunedMember(dir.listing, x);
    }
  }

  lemma {:induction false} PrunedVisitAll(dir: Node, rest: seq<Named>, path: Text)
    requires dir.Dir? && (forall e :: e in rest ==> e in dir.listing)
    requires forall x :: x in PrunedAll(rest) ==> x in Pruned(dir).listing
    ensures VisitAll(Pruned(dir), PrunedAll(rest), path, true) == Quiet(VisitAll(dir, rest, path, false))
    decreases dir, 0, |rest|
  {
    if rest != [] {
      var init, e := rest[..|rest| - 1], rest[|rest| - 1];
      assert rest == init + [e];
      PrunedSnoc(init, e);
      PrunedSubset(dir, init);
      PrunedVisitAll(dir, init, path);
      assert e in rest && e in dir.listing;
      if e.node.Dir? {
        PrunedVisit(e.node, Child(path, e.name));
      }
      PrunedVisitStep(dir, init, e, path);
    }
  }

  lemma PrunedVisitStep(dir: Node, init: seq<Named>, e: Named, path: Text)
    requires dir.Dir? && e in dir.listing && (forall x :: x in init ==> x in dir.listing)
    requires PrunedAll(init + [e]) == PrunedAll(init) + PrunedOne(e)
    requires forall x :: x in PrunedAll(init + [e]) ==> x in Pruned(dir).listing
    requires VisitAll(Pruned(dir), PrunedAll(init), path, true) == Quiet(VisitAll(dir, init, path, false))
    requires e.node.Dir? ==>
      VisitDir(Pruned(e.node), Child(path, e.name), true) == Quiet(VisitDir(e.node, Child(path, e.name), false))
    ensures VisitAll(Pruned(dir), PrunedAll(init + [e]), path, true) == Quiet(VisitAll(dir, init + [e], path, false))
  {
    VisitSnoc(dir, init, e, path, false);
    if IsSkipped(e, false) {
      assert PrunedAll(init + [e]) == PrunedAll(init);
    } else {
      var x := Named(e.name, Pruned(e.node));
      assert x in PrunedAll(init + [e]);
      VisitSnoc(Pruned(dir), PrunedAll(init), x, path, true);
      PrunedVisitOne(dir, e, path);
      QuietPlus(VisitAll(dir, init, path, false), VisitOne(dir, e, path, false));
    }
  }

  lemma PrunedVisitOne(dir: Node, e: Named, path: Text)
    requires dir.Dir? && e in dir.listing && !IsSkipped(e, false)
    requires Named(e.name, Pruned(e.node)) in Pruned(dir).listing
    requires e.node.Dir? ==>
      VisitDir(Pruned(e.node), Child(path, e.name), true) == Quiet(VisitDir(e.node, Child(path, e.name), false))
    ensures VisitOne(Pruned(dir), Named(e.name, Pruned(e.node)), path, true) == Quiet(VisitOne(dir, e, path, false))
  {
  }

  lemma QuietPlus(a: Visit, b: Visit)
    ensures Quiet(Plus(a, b)) == Plus(Quiet(a), Quiet(b))
  {
  }

  lemma VisitSnoc(dir: Node, init: seq<Named>, x: Named, path: Text, includeVcs: bool)
    requires dir.Dir? && x in dir.listing && forall e :: e in init ==> e in dir.listing
    ensures VisitAll(dir, init + [x], path, includeVcs)
         == Plus(VisitAll(dir, init, path, includeVcs), VisitOne(dir, x, path, includeVcs))
  {
    assert (init + [x])[..|init + [x]| - 1] == init;
  }

  lemma {:induction false} PrunedVisit(dir: Node, path: Text)
    requires dir.Dir?
    ensures VisitDir(Pruned(dir), path, true) == Quiet(VisitDir(dir, path, false))
    decreases dir, 1, 0
  {
    SortedMembers(dir.listing);
    PrunedSorts(dir.listing);
    PrunedUtf8(dir.listing);
    PrunedSubset(dir, SortByName(dir.listing));
    PrunedVisitAll(dir, SortByName(dir.listing), path);
  }

  /** Packing without the version-control directories packs the tree pruned of them. */
  lemma SourceVisit(root: Node, path: Text, includeVcs: bool)
    requires root.Dir?
    ensures Source(root, includeVcs).Dir?
    ensures VisitDir(root, path, includeVcs).entries == VisitDir(Source(root, includeVcs), path, true).entries
    ensures VisitDir(root, path, includeVcs).clean == VisitDir(Source(root, includeVcs), path, true).clean
  {
    if !includeVcs {
      PrunedVisit(root, path);
    }
  }

  lemma PrunedDistinct(rest: seq<Named>)
    requires DistinctNames(rest)
    ensures DistinctNames(PrunedAll(rest))
    decreases |rest|
  {
    if rest != [] {
      var head, tail := rest[0], rest[1..];
      PrunedDistinct(tail);
      forall i | 0 <= i < |PrunedAll(tail)|
        ensures PrunedAll(tail)[i].name != head.name
      {
        PrunedMember(tail, PrunedAll(tail)[i]);
        var e :| e in tail && PrunedAll(tail)[i] == Named(e.name, Pruned(e.node));
        var j :| 0 <= j < |tail| && tail[j] == e;
        assert rest[j + 1] == e;
      }
      if !IsSkipped(head, false) {
        ConsDistinct(PrunedOne(head)[0], PrunedAll(tail));
      }
    }
  }

  lemma ConsDistinct(e: Named, rest: seq<Named>)
    requires DistinctNames(rest) && forall i :: 0 <= i < |rest| ==> rest[i].name != e.name
    ensures DistinctNames([e] + rest)
  {
  }

  lemma {:induction false} PrunedWellFormed(node: Node)
    requires WellFormed(node)
    ensures WellFormed(Pruned(node))
    decreases node
  {
    if node.Dir? {
      PrunedDistinct(node.listing);
      forall x | x in PrunedAll(node.listing)
        ensures x.name != [] && SLASH !in x.name && 0 !in x.name && WellFormed(x.node)
      {
        PrunedMember(node.listing, x);
        var e :| e in node.listing && x == Named(e.name, Pruned(e.node));
        PrunedWellFormed(e.node);
      }
    }
  }

  // ----- what was left out

  predicate IsVersionControl(name: Text) {
    name == Ascii(".git") || name == Ascii(".hg") || name == Ascii(".jj") || name == Ascii(".svn")
  }

  lemma SkippedMeans(e: Named, includeVcs: bool)
    ensures IsSkipped(e, includeVcs) <==> e.node.Dir? && !includeVcs && IsVersionControl(e.name)
  {
  }

  /** No directory of such a name at any depth. */
  predicate HoldsNoVcs(node: Node)
    decreases node
  {
    node.Dir? ==> forall e :: e in node.listing ==> !(e.node.Dir? && IsVersionControl(e.name)) && HoldsNoVcs(e.node)
  }

  /** Nothing under a version-control directory is left at any depth. */
  lemma {:induction false} PrunedHoldsNoVcs(node: Node)
    ensures HoldsNoVcs(Pruned(node))
    decreases node
  {
    if node.Dir? {
      forall x | x in PrunedAll(node.listing)
        ensures !(x.node.Dir? && IsVersionControl(x.name)) && HoldsNoVcs(x.node)
      {
        PrunedMember(node.listing, x);
        var e :| e in node.listing && !IsSkipped(e, false) && x == Named(e.name, Pruned(e.node));
        SkippedMeans(e, false);
        PrunedHoldsNoVcs(e.node);
      }
    }
  }

  predicate NoVcsIn(e: Named) { !(e.node.Dir? && IsVersionControl(e.name)) && HoldsNoVcs(e.node) }

  predicate AllHoldNoVcs(rest: seq<Named>) { forall e :: e in rest ==> NoVcsIn(e) }

  lemma NoVcsSnoc(init: seq<Named>, e: Named)
    ensures AllHoldNoVcs(init + [e]) <==> AllHoldNoVcs(init) && NoVcsIn(e)
  {
    assert forall x :: x in init + [e] <==> x in init || x == e;
  }

  lemma {:induction false} SkippedAllTells(dir: Node, rest: seq<Named>, path: Text)
    requires dir.Dir? && (forall e :: e in rest ==> e in dir.listing)
    ensures VisitAll(dir, rest, path, false).skipped == [] <==> AllHoldNoVcs(rest)
    decreases dir, 0, |rest|
  {
    if rest != [] {
      var init, e := rest[..|rest| - 1], rest[|rest| - 1];
      assert e in rest && e in dir.listing;
      assert rest == init + [e];
      SkippedAllTells(dir, init, path);
      SkippedOneTells(dir, e, path);
      NoVcsSnoc(init, e);
    }
  }

  lemma {:induction false} SkippedOneTells(dir: Node, e: Named, path: Text)
    requires dir.Dir? && e in dir.listing
    ensures VisitOne(dir, e, path, false).skipped == [] <==> NoVcsIn(e)
    decreases dir, 0, 0
  {
    SkippedMeans(e, false);
    if e.node.Dir? && !IsSkipped(e, false) {
      SkippedTells(e.node, Child(path, e.name));
    }
  }

  /** The list of skipped directories is empty exactly when nothing was left out. */
  lemma {:induction false} SkippedTells(dir: Node, path: Text)
    requires dir.Dir?
    ensures VisitDir(dir, path, false).skipped == [] <==> HoldsNoVcs(dir)
    decreases dir, 1, 0
  {
    SortedMembers(dir.listing);
    SkippedAllTells(dir, SortByName(dir.listing), path);
    assert AllHoldNoVcs(SortByName(dir.listing)) <==> HoldsNoVcs(dir) by {
      assert forall e :: e in SortByName(dir.listing) <==> e in dir.listing;
    }
  }
}
