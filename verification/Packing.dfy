/** The packer's walk: from a source tree to the entries of a layer. */
module Packing {
  import opened Wrappers
  import opened Bytes
  import opened Ustar
  import opened Archive
  import opened Trees
  import opened Budgets

  const LAYER_ROOT: Text := Ascii("etc/imageless")

  const VCS_DIRECTORIES: seq<Text> := [Ascii(".git"), Ascii(".hg"), Ascii(".jj"), Ascii(".svn")]

  function Child(path: Text, name: Text): Text { path + [SLASH] + name }

  /** Any execute bit makes 0755, none 0644. */
  function PackedMode(mode: nat): nat { if AnyExecute(mode) then 0x1ED else 0x1A4 }

  predicate IsSkipped(e: Named, includeVcs: bool) {
    e.node.Dir? && !includeVcs && e.name in VCS_DIRECTORIES
  }

  /** What a walk finds: whether everything can be staged, the entries in layer
      order, and the directories left out. */
  datatype Visit = Visit(clean: bool, entries: seq<Entry>, skipped: seq<Text>)

  function Plus(a: Visit, b: Visit): Visit {
    Visit(a.clean && b.clean, a.entries + b.entries, a.skipped + b.skipped)
  }

  predicate AllUtf8(listing: seq<Named>) { forall i :: 0 <= i < |listing| ==> ValidUtf8(listing[i].name) }

  /** One directory: every name must be UTF-8, then the children in name order. */
  function VisitDir(dir: Node, path: Text, includeVcs: bool): Visit
    requires dir.Dir?
    decreases dir, 1, 0
  {
    SortedMembers(dir.listing);
    var v := VisitAll(dir, SortByName(dir.listing), path, includeVcs);
    v.(clean := AllUtf8(dir.listing) && v.clean)
  }

  function VisitAll(dir: Node, rest: seq<Named>, path: Text, includeVcs: bool): Visit
    requires dir.Dir? && forall e :: e in rest ==> e in dir.listing
    decreases dir, 0, |rest|
  {
    if rest == [] then Visit(true, [], [])
    else Plus(VisitAll(dir, rest[..|rest| - 1], path, includeVcs),
              VisitOne(dir, rest[|rest| - 1], path, includeVcs))
  }

  function VisitOne(dir: Node, e: Named, path: Text, includeVcs: bool): Visit
    requires dir.Dir? && e in dir.listing
    decreases dir, 0, 0
  {
    var child := Child(path, e.name);
    match e.node
    case File(mode, data) => Visit(true, [Entry.File(child, PackedMode(mode), data)], [])
    case Dir(_) =>
      if IsSkipped(e, includeVcs) then Visit(true, [], [child])
      else Plus(Visit(true, [Directory(child)], []), VisitDir(e.node, child, includeVcs))
    case _ => Visit(false, [], [])
  }

  function DataBytes(entries: seq<Entry>): nat {
    if entries == [] then 0
    else DataBytes(entries[..|entries| - 1]) + |Data(entries[|entries| - 1])|
  }

  /** The tar so far and the budget charged so far. */
  datatype Progress = Progress(tar: seq<byte>, entries: nat, bytes: nat)

  /** The packer takes a visit, on top of what is already charged, exactly when
      it is clean, every entry can be written and the totals stay within bounds. */
  predicate Accepts(v: Visit, p: Progress) {
    v.clean && Writable(v.entries) && Within(p.entries + |v.entries|, p.bytes + DataBytes(v.entries))
  }

  function Charge(p: Progress, v: Visit): Progress
    requires Writable(v.entries)
  {
    Progress(p.tar + Body(v.entries), p.entries + |v.entries|, p.bytes + DataBytes(v.entries))
  }

  lemma {:induction false} DataBytesAppend(a: seq<Entry>, b: seq<Entry>)
    ensures DataBytes(a + b) == DataBytes(a) + DataBytes(b)
  {
    if b == [] {
      assert a + b == a;
    } else {
      var init, last := b[..|b| - 1], b[|b| - 1];
      DataBytesAppend(a, init);
      assert a + b == (a + init) + [last];
      assert (a + b)[..|a + b| - 1] == a + init;
    }
  }

  lemma WritableAppend(a: seq<Entry>, b: seq<Entry>)
    ensures Writable(a + b) <==> Writable(a) && Writable(b)
  {
    var all := a + b;
    if Writable(all) {
      assert forall i :: 0 <= i < |a| ==> all[i] == a[i];
      assert forall i :: 0 <= i < |b| ==> all[|a| + i] == b[i];
    }
  }

  lemma AcceptsPlus(p: Progress, a: Visit, b: Visit)
    requires Accepts(a, p)
    ensures Accepts(Plus(a, b), p) <==> Accepts(b, Charge(p, a))
  {
    DataBytesAppend(a.entries, b.entries);
    WritableAppend(a.entries, b.entries);
  }

  /** Charging one visit and then another is charging both. */
  lemma ChargePlus(p: Progress, a: Visit, b: Visit)
    requires Writable(a.entries) && Writable(b.entries)
    ensures Writable(Plus(a, b).entries) && Charge(Charge(p, a), b) == Charge(p, Plus(a, b))
  {
    WritableAppend(a.entries, b.entries);
    DataBytesAppend(a.entries, b.entries);
    BodyAppend(a.entries, b.entries);
    Associates(p.tar, Body(a.entries), Body(b.entries));
  }

  lemma RefusedPrefix(p: Progress, a: Visit, b: Visit)
    requires Accepts(Plus(a, b), p)
    ensures Accepts(a, p)
  {
    DataBytesAppend(a.entries, b.entries);
    WritableAppend(a.entries, b.entries);
  }

  /** Once a part is refused, nothing that follows can make the whole acceptable. */
  lemma RefusedMiddle(p: Progress, before: Visit, here: Visit, after: Visit)
    requires Accepts(before, p) && !Accepts(here, Charge(p, before))
    ensures !Accepts(Plus(Plus(before, here), after), p)
  {
    AcceptsPlus(p, before, here);
    if Accepts(Plus(Plus(before, here), after), p) {
      RefusedPrefix(p, Plus(before, here), after);
    }
  }

  lemma {:induction false} SmallData(entries: seq<Entry>, i: nat)
    requires i < |entries|
    ensures |Data(entries[i])| <= DataBytes(entries)
  {
    if i < |entries| - 1 {
      SmallData(entries[..|entries| - 1], i);
    }
  }

  predicate PackedModes(entries: seq<Entry>) {
    forall i :: 0 <= i < |entries| ==> Mode(entries[i]) < MODE_LIMIT
  }

  /** Within the byte bound only the path can keep an entry from being written. */
  lemma OnlyPathsMatter(entries: seq<Entry>)
    requires DataBytes(entries) <= MAX_STAGED_SOURCE_BYTES && PackedModes(entries)
    ensures Writable(entries) <==> forall i :: 0 <= i < |entries| ==> SplitPath(Stored(entries[i])).Some?
  {
    forall i | 0 <= i < |entries|
      ensures Fits(entries[i])
    {
      SmallData(entries, i);
    }
  }

  lemma PackedModesAppend(a: seq<Entry>, b: seq<Entry>)
    requires PackedModes(a) && PackedModes(b)
    ensures PackedModes(a + b)
  {
  }

  lemma {:induction false} VisitModes(dir: Node, rest: seq<Named>, path: Text, includeVcs: bool)
    requires dir.Dir? && forall e :: e in rest ==> e in dir.listing
    ensures PackedModes(VisitAll(dir, rest, path, includeVcs).entries)
    decreases dir, |rest|
  {
    if rest != [] {
      var init, e := rest[..|rest| - 1], rest[|rest| - 1];
      assert e in rest;
      VisitModes(dir, init, path, includeVcs);
      VisitOneModes(dir, e, path, includeVcs);
      PackedModesAppend(VisitAll(dir, init, path, includeVcs).entries, VisitOne(dir, e, path, includeVcs).entries);
    }
  }

  lemma {:induction false} VisitOneModes(dir: Node, e: Named, path: Text, includeVcs: bool)
    requires dir.Dir? && e in dir.listing
    ensures PackedModes(VisitOne(dir, e, path, includeVcs).entries)
    decreases dir, 0
  {
    if e.node.Dir? && !IsSkipped(e, includeVcs) {
      SortedMembers(e.node.listing);
      VisitModes(e.node, SortByName(e.node.listing), Child(path, e.name), includeVcs);
    }
  }

  lemma SameInit<T>(a: seq<T>, b: seq<T>)
    requires b != []
    ensures (a + b)[..|a + b| - 1] == a + b[..|b| - 1] && (a + b)[|a + b| - 1] == b[|b| - 1]
  {
  }

  lemma {:induction false} BodyAppend(a: seq<Entry>, b: seq<Entry>)
    requires Writable(a) && Writable(b) && Writable(a + b)
    ensures Body(a + b) == Body(a) + Body(b)
  {
    if b == [] {
      assert a + b == a;
    } else {
      var init, last := b[..|b| - 1], b[|b| - 1];
      SameInit(a, b);
      BodyAppend(a, init);
      Associates(Body(a), Body(init), EntryBytes(last));
    }
  }
}
