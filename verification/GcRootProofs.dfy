/** What registration and removal of GC roots guarantee. */
module GcRootProofs {
  import opened Wrappers
  import opened Decimal
  import opened GcRoots

  /** A Nix call that does what it is asked. */
  predicate Good(call: NixCall, path: string) { call.ok && call.left == Some(Symlink(path)) }

  predicate LeavesNoFile(call: NixCall) { call.left.Some? ==> call.left.value.Symlink? }

  // ----- registration

  /** One registration touches its own slot and nothing else. */
  lemma RegisterOneFrame(f: Files, index: nat, path: string, call: NixCall, p: RootPath)
    requires p != Slot(index)
    ensures At(RegisterOne(f, index, path, call).1, p) == At(f, p)
  {
  }

  lemma RegisterOneOk(f: Files, index: nat, path: string, call: NixCall)
    ensures RegisterOne(f, index, path, call).0.Ok? <==>
      && !(index > 0 && f.roots.Blocked?)
      && !(At(f, Slot(index)).Some? && At(f, Slot(index)).value.Other?)
      && Good(call, path)
    ensures RegisterOne(f, index, path, call).0.Ok? ==>
      At(RegisterOne(f, index, path, call).1, Slot(index)) == Some(Symlink(path))
  {
  }

  lemma {:induction false} RegisterAllFrame(f: Files, paths: seq<string>, calls: seq<NixCall>, p: RootPath)
    requires |calls| == |paths| && forall i :: 0 <= i < |paths| ==> p != Slot(i)
    ensures At(RegisterAll(f, paths, calls).1, p) == At(f, p)
    decreases |paths|
  {
    if paths != [] {
      var n := |paths| - 1;
      RegisterAllFrame(f, paths[..n], calls[..n], p);
      RegisterOneFrame(RegisterAll(f, paths[..n], calls[..n]).1, n, paths[n], calls[n], p);
    }
  }

  lemma {:induction false} RegisterAllKeepsShape(f: Files, paths: seq<string>, calls: seq<NixCall>)
    requires |calls| == |paths|
    ensures RegisterAll(f, paths, calls).1.roots.Blocked? <==> f.roots.Blocked?
    decreases |paths|
  {
    if paths != [] {
      var n := |paths| - 1;
      RegisterAllKeepsShape(f, paths[..n], calls[..n]);
    }
  }

  /** A successful resolve leaves root i a link to store path i, for every i: no
      later root clobbers an earlier one, and nothing else in the bundle changes. */
  lemma {:induction false} SuccessRegistersEveryPath(f: Files, paths: seq<string>, calls: seq<NixCall>, i: nat)
    requires |calls| == |paths| && RegisterAll(f, paths, calls).0.Ok? && i < |paths|
    ensures At(RegisterAll(f, paths, calls).1, Slot(i)) == Some(Symlink(paths[i]))
    decreases |paths|
  {
    var n := |paths| - 1;
    var g := RegisterAll(f, paths[..n], calls[..n]).1;
    if i == n {
      RegisterOneOk(g, n, paths[n], calls[n]);
    } else {
      SuccessRegistersEveryPath(f, paths[..n], calls[..n], i);
      SlotsAreDistinct(i, n);
      RegisterOneFrame(g, n, paths[n], calls[n], Slot(i));
    }
  }

  /** Nothing foreign is in the way of the first `n` roots. */
  predicate Free(f: Files, n: nat) {
    && (n > 1 ==> !f.roots.Blocked?)
    && forall i :: 0 <= i < n ==> !(At(f, Slot(i)).Some? && At(f, Slot(i)).value.Other?)
  }

  predicate AllGood(paths: seq<string>, calls: seq<NixCall>)
    requires |calls| == |paths|
  {
    forall i :: 0 <= i < |paths| ==> Good(calls[i], paths[i])
  }

  /** Registration succeeds exactly when no foreign entry is in the way and every
      Nix call left the right link: nothing Nix reports is taken on trust. */
  lemma {:induction false} SucceedsExactly(f: Files, paths: seq<string>, calls: seq<NixCall>)
    requires |calls| == |paths|
    ensures RegisterAll(f, paths, calls).0.Ok? <==> Free(f, |paths|) && AllGood(paths, calls)
    decreases |paths|
  {
    if paths != [] {
      var n := |paths| - 1;
      var before, callsBefore := paths[..n], calls[..n];
      var g := RegisterAll(f, before, callsBefore).1;
      SucceedsExactly(f, before, callsBefore);
      RegisterOneOk(g, n, paths[n], calls[n]);
      forall i | 0 <= i < n
        ensures Slot(i) != Slot(n)
      {
        SlotsAreDistinct(i, n);
      }
      RegisterAllFrame(f, before, callsBefore, Slot(n));
      RegisterAllKeepsShape(f, before, callsBefore);
      assert AllGood(paths, calls) <==> AllGood(before, callsBefore) && Good(calls[n], paths[n]);
      var foreign := At(f, Slot(n)).Some? && At(f, Slot(n)).value.Other?;
      assert Free(f, n + 1) <==> Free(f, n) && (n > 0 ==> !f.roots.Blocked?) && !foreign;
    }
  }

  // ----- removal

  /** What removal may delete: links at the reserved name, or at names that parse as an index. */
  predicate Removes(f: Files, p: RootPath) {
    Removable(At(f, p)) && (p.First? || ParseUsize(p.name).Some?)
  }

  /** Removal deletes exactly those, from any state; every other file stays as it
      is, and the directory goes only when that leaves it empty. */
  lemma RemovalIsExact(f: Files, p: RootPath)
    ensures At(Removed(f), p) == if Removes(f, p) then None else At(f, p)
    ensures f.roots.Blocked? || f.roots.Absent? ==> Removed(f).roots == f.roots
    ensures f.roots.Folder? ==>
      (Removed(f).roots.Absent? <==> forall name :: name in f.roots.entries ==> Removes(f, Numbered(name)))
  {
    if f.roots.Folder? {
      var entries := f.roots.entries;
      assert forall name :: name in entries ==> (name in Kept(entries) <==> !Removes(f, Numbered(name)));
      if Kept(entries) != map[] {
        var name :| name in Kept(entries);
      }
    }
  }

  lemma RemovalIsIdempotent(f: Files)
    ensures Removed(Removed(f)) == Removed(f)
  {
    if f.roots.Folder? {
      assert Kept(Kept(f.roots.entries)) == Kept(f.roots.entries);
    }
  }

  lemma KeptIgnoresLinks(entries: map<string, Entry>, name: string, e: Option<Entry>)
    requires ParseUsize(name).Some? && (name in entries ==> entries[name].Symlink?)
    requires e.Some? ==> e.value.Symlink?
    ensures Kept(if e.Some? then entries[name := e.value] else Without(entries, name)) == Kept(entries)
  {
  }

  lemma OpeningIsForgotten(f: Files)
    ensures Removed(Opened(f)) == Removed(f)
  {
    assert Kept(map[]) == map[];
  }

  lemma LinkIsForgotten(f: Files, p: RootPath, e: Option<Entry>)
    requires Reachable(f, p) && (p.Numbered? ==> ParseUsize(p.name).Some?)
    requires At(f, p).Some? ==> At(f, p).value.Symlink?
    requires e.Some? ==> e.value.Symlink?
    ensures Removed(Set(f, p, e)) == Removed(f)
  {
    if p.Numbered? {
      KeptIgnoresLinks(f.roots.entries, p.name, e);
    }
  }

  /** A root that is or becomes a link makes no difference after removal. */
  lemma RemovalForgetsOne(f: Files, index: nat, path: string, call: NixCall)
    requires LeavesNoFile(call) && index < USIZE_LIMIT
    ensures Removed(RegisterOne(f, index, path, call).1) == Removed(f)
  {
    if !(index > 0 && f.roots.Blocked?) {
      ShowParses(index);
      OpeningIsForgotten(f);
      var g := if index > 0 then Opened(f) else f;
      if !(At(g, Slot(index)).Some? && At(g, Slot(index)).value.Other?) {
        LinkIsForgotten(g, Slot(index), call.left);
      }
    }
  }

  /** Whatever registration did, and wherever it stopped, removal afterwards gives
      what removal before it would have given, as long as Nix left only links. */
  lemma {:induction false} RemovalUndoesRegistration(f: Files, paths: seq<string>, calls: seq<NixCall>)
    requires |calls| == |paths| <= USIZE_LIMIT
    requires forall i :: 0 <= i < |calls| ==> LeavesNoFile(calls[i])
    ensures Removed(RegisterAll(f, paths, calls).1) == Removed(f)
    decreases |paths|
  {
    if paths != [] {
      var n := |paths| - 1;
      RemovalUndoesRegistration(f, paths[..n], calls[..n]);
      RemovalForgetsOne(RegisterAll(f, paths[..n], calls[..n]).1, n, paths[n], calls[n]);
    }
  }

  const CLEAN := Files(None, Absent)

  /** The first call that does not do what it is asked. */
  function FirstBad(paths: seq<string>, calls: seq<NixCall>): (k: nat)
    requires |calls| == |paths|
    ensures k <= |paths|
    ensures forall i :: 0 <= i < k ==> Good(calls[i], paths[i])
    ensures k < |paths| ==> !Good(calls[k], paths[k])
  {
    if paths == [] then 0
    else
      var n := |paths| - 1;
      var k := FirstBad(paths[..n], calls[..n]);
      if k < n then k else if Good(calls[n], paths[n]) then n + 1 else n
  }

  /** In a clean bundle the first bad call is where registration stops. */
  lemma StopsAtFirstBad(paths: seq<string>, calls: seq<NixCall>)
    requires |calls| == |paths| && FirstBad(paths, calls) < |paths|
    ensures var k := FirstBad(paths, calls); var g := RegisterAll(CLEAN, paths[..k], calls[..k]).1;
      && RegisterAll(CLEAN, paths[..k], calls[..k]).0.Ok?
      && RegisterAll(CLEAN, paths, calls) == RegisterOne(g, k, paths[k], calls[k])
      && At(g, Slot(k)) == None && !g.roots.Blocked?
  {
    var k := FirstBad(paths, calls);
    var before, callsBefore := paths[..k], calls[..k];
    var g := RegisterAll(CLEAN, before, callsBefore).1;
    SucceedsExactly(CLEAN, before, callsBefore);
    forall i | 0 <= i < k
      ensures Slot(k) != Slot(i)
    {
      SlotsAreDistinct(i, k);
    }
    RegisterAllFrame(CLEAN, before, callsBefore, Slot(k));
    RegisterAllKeepsShape(CLEAN, before, callsBefore);
    RegisterStep(CLEAN, paths, calls, k);
    RegisterOneOk(g, k, paths[k], calls[k]);
    RegisterStops(CLEAN, paths, calls, k + 1);
  }

  lemma FilesSurviveRemoval(f: Files, index: nat, path: string, call: NixCall)
    requires At(f, Slot(index)) == None && !f.roots.Blocked? && !LeavesNoFile(call)
    ensures At(Removed(RegisterOne(f, index, path, call).1), Slot(index)) == call.left
  {
    RemovalIsExact(RegisterOne(f, index, path, call).1, Slot(index));
  }

  /** In a clean bundle a failed resolve, or a failed rewrite after a successful
      one, restores the clean state: exactly unless the call that failed left
      something that is not a link, which removal never touches. */
  lemma FailureRestoresExactly(paths: seq<string>, calls: seq<NixCall>)
    requires |calls| == |paths| <= USIZE_LIMIT
    ensures var k := FirstBad(paths, calls);
      Removed(RegisterAll(CLEAN, paths, calls).1) == CLEAN <==> (k < |paths| ==> LeavesNoFile(calls[k]))
  {
    var k := FirstBad(paths, calls);
    if k == |paths| {
      RemovalUndoesRegistration(CLEAN, paths, calls);
    } else {
      StopsAtFirstBad(paths, calls);
      var g := RegisterAll(CLEAN, paths[..k], calls[..k]).1;
      RemovalUndoesRegistration(CLEAN, paths[..k], calls[..k]);
      if LeavesNoFile(calls[k]) {
        RemovalForgetsOne(g, k, paths[k], calls[k]);
      } else {
        FilesSurviveRemoval(g, k, paths[k], calls[k]);
      }
    }
  }

  /** Such a call exists: one that leaves a file where a link was asked for. The failed
      resolve then leaves the file behind, in a bundle that was clean before. */
  lemma FileIsLeftBehind(path: string, id: nat)
    ensures var calls := [NixCall(Some(Other(id)), true)];
      && RegisterAll(CLEAN, [path], calls).0.Err?
      && Removed(RegisterAll(CLEAN, [path], calls).1) == Files(Some(Other(id)), Absent)
  {
    var calls := [NixCall(Some(Other(id)), true)];
    assert [path][..0] == [] && calls[..0] == [];
  }
}
