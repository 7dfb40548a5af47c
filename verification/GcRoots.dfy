/**
 The GC roots kept beside a bundle: root 0 under its own name, the others under
 their index in one directory. Nix writes them, and nothing Nix writes is trusted.
 */
module GcRoots {
  import opened Wrappers
  import opened Decimal

  datatype Entry = Symlink(target: string) | Other(id: nat)

  /** What is at the reserved directory name. A symbolic link is not a directory. */
  datatype Roots = Absent | Blocked(id: nat) | Folder(entries: map<string, Entry>)

  datatype Files = Files(first: Option<Entry>, roots: Roots)

  datatype RootPath = First | Numbered(name: string)

  datatype RootError = Collision | Failed

  /** One Nix call: what it left at the root path it was given, and whether it
      exited successfully with acceptable output. */
  datatype NixCall = NixCall(left: Option<Entry>, ok: bool)

  function At(f: Files, p: RootPath): Option<Entry> {
    match p
    case First => f.first
    case Numbered(name) => if f.roots.Folder? && name in f.roots.entries then Some(f.roots.entries[name]) else None
  }

  function Slot(index: nat): RootPath { if index == 0 then First else Numbered(Show(index)) }

  /** Distinct indices never share a path. */
  lemma SlotsAreDistinct(i: nat, j: nat)
    requires i != j
    ensures Slot(i) != Slot(j)
  {
    if i > 0 && j > 0 && Show(i) == Show(j) {
      ShowInjective(i, j);
    }
  }

  predicate Reachable(f: Files, p: RootPath) { p.First? || f.roots.Folder? }

  function Without(m: map<string, Entry>, name: string): map<string, Entry> { m - {name} }

  function Set(f: Files, p: RootPath, e: Option<Entry>): Files
    requires Reachable(f, p)
  {
    match p
    case First => f.(first := e)
    case Numbered(name) =>
      f.(roots := Folder(if e.Some? then f.roots.entries[name := e.value] else Without(f.roots.entries, name)))
  }

  // ----- the exact effect of each operation

  function Opened(f: Files): Files { if f.roots.Absent? then f.(roots := Folder(map[])) else f }

  /** Registering one root: create the directory if needed, clear a stale link, run Nix, check. */
  function RegisterOne(f: Files, index: nat, path: string, call: NixCall): (Result<(), RootError>, Files) {
    var p := Slot(index);
    if index > 0 && f.roots.Blocked? then (Err(Collision), f)
    else
      var g := if index > 0 then Opened(f) else f;
      if At(g, p).Some? && At(g, p).value.Other? then (Err(Collision), g)
      else
        var h := Set(g, p, call.left);
        (if call.ok && call.left == Some(Symlink(path)) then Ok(()) else Err(Failed), h)
  }

  /** The loop of `materialize_release` and `register_resolution`, up to the first failure. */
  function RegisterAll(f: Files, paths: seq<string>, calls: seq<NixCall>): (Result<(), RootError>, Files)
    requires |calls| == |paths|
  {
    if paths == [] then (Ok(()), f)
    else
      var n := |paths| - 1;
      var (r, g) := RegisterAll(f, paths[..n], calls[..n]);
      if r.Err? then (r, g) else RegisterOne(g, n, paths[n], calls[n])
  }

  predicate Removable(e: Option<Entry>) { e.Some? && e.value.Symlink? }

  function Kept(entries: map<string, Entry>): map<string, Entry> {
    map name | name in entries && !(entries[name].Symlink? && ParseUsize(name).Some?) :: entries[name]
  }

  /** `remove_bundle_gc_roots`. */
  function Removed(f: Files): Files {
    Files(
      if Removable(f.first) then None else f.first,
      if !f.roots.Folder? then f.roots
      else if Kept(f.roots.entries) == map[] then Absent
      else Folder(Kept(f.roots.entries)))
  }

  // ----- the methods

  class Bundle {
    var first: Option<Entry>
    var roots: Roots
    var others: map<string, Entry>       // everything else in the bundle

    constructor (f: Files, others: map<string, Entry>)
      ensures State() == f && this.others == others
    {
      first, roots, this.others := f.first, f.roots, others;
    }

    function State(): Files reads this { Files(first, roots) }

    method GcRootPath(index: nat) returns (r: Result<RootPath, RootError>)
      modifies this`roots
      ensures r == if index > 0 && old(roots).Blocked? then Err(Collision) else Ok(Slot(index))
      ensures State() == if index > 0 then Opened(old(State())) else old(State())
    {
      if index == 0 {
        return Ok(First);
      }
      match roots {
        case Folder(_) =>
        case Blocked(_) => return Err(Collision);
        case Absent => roots := Folder(map[]);
      }
      return Ok(Numbered(Show(index)));
    }

    method PrepareGcRoot(p: RootPath) returns (r: Result<(), RootError>)
      requires Reachable(State(), p)
      modifies this`first, this`roots
      ensures r.Err? <==> At(old(State()), p).Some? && At(old(State()), p).value.Other?
      ensures r.Err? ==> r.error == Collision
      ensures State() == if r.Ok? then Set(old(State()), p, None) else old(State())
    {
      match At(State(), p) {
        case Some(Symlink(_)) =>
          Unlink(p);
          return Ok(());
        case Some(Other(_)) => return Err(Collision);
        case None =>
          assert roots.Folder? && p.Numbered? ==> Without(roots.entries, p.name) == roots.entries;
          return Ok(());
      }
    }

    method Unlink(p: RootPath)
      requires Reachable(State(), p)
      modifies this`first, this`roots
      ensures State() == Set(old(State()), p, None)
    {
      match p {
        case First => first := None;
        case Numbered(name) => roots := Folder(Without(roots.entries, name));
      }
    }

    /** Nix may leave anything, or nothing, at the path it was given. */
    method RunNix(p: RootPath, call: NixCall) returns (ok: bool)
      requires Reachable(State(), p) && At(State(), p) == None
      modifies this`first, this`roots
      ensures ok == call.ok && State() == Set(old(State()), p, call.left)
    {
      match call.left {
        case None => Unlink(p);
        case Some(e) =>
          match p {
            case First => first := Some(e);
            case Numbered(name) => roots := Folder(roots.entries[name := e]);
          }
      }
      ok := call.ok;
    }

    method ValidateRegisteredRoot(p: RootPath, path: string) returns (ok: bool)
      ensures ok <==> At(State(), p) == Some(Symlink(path))
    {
      match At(State(), p) {
        case None => return false;
        case Some(Other(_)) => return false;
        case Some(Symlink(target)) => return target == path;
      }
    }

    method Register(index: nat, path: string, call: NixCall) returns (r: Result<(), RootError>)
      modifies this`first, this`roots
      ensures (r, State()) == RegisterOne(old(State()), index, path, call)
    {
      var p := GcRootPath(index);
      if p.Err? {
        return Err(p.error);
      }
      var prepared := PrepareGcRoot(p.value);
      if prepared.Err? {
        return Err(prepared.error);
      }
      ghost var cleared := State();
      var ok := RunNix(p.value, call);
      SetTwice(Opened(old(State())), p.value, call.left);
      SetTwice(old(State()), p.value, call.left);
      SetGet(cleared, p.value, call.left);
      var valid := ValidateRegisteredRoot(p.value, path);
      return if ok && valid then Ok(()) else Err(Failed);
    }

    method RegisterEvery(paths: seq<string>, calls: seq<NixCall>) returns (r: Result<(), RootError>)
      requires |calls| == |paths|
      modifies this`first, this`roots
      ensures (r, State()) == RegisterAll(old(State()), paths, calls)
    {
      for index := 0 to |paths|
        invariant (Ok(()), State()) == RegisterAll(old(State()), paths[..index], calls[..index])
      {
        r := Register(index, paths[index], calls[index]);
        RegisterStep(old(State()), paths, calls, index);
        if r.Err? {
          RegisterStops(old(State()), paths, calls, index + 1);
          return r;
        }
      }
      assert paths[..|paths|] == paths && calls[..|calls|] == calls;
      return Ok(());
    }

    method RemoveGcRoot(p: RootPath)
      requires Reachable(State(), p)
      modifies this`first, this`roots
      ensures State() == if Removable(At(old(State()), p)) then Set(old(State()), p, None) else old(State())
    {
      match At(State(), p) {
        case Some(Symlink(_)) => Unlink(p);
        case Some(Other(_)) =>
        case None =>
      }
    }

    method RemoveBundleGcRoots()
      modifies this`first, this`roots
      ensures State() == Removed(old(State()))
    {
      RemoveGcRoot(First);
      match roots {
        case Absent => return;
        case Blocked(_) => return;
        case Folder(listing) =>
          ghost var gone: set<string> := {};
          var todo := listing.Keys;
          assert roots.entries == listing - gone;
          while todo != {}
            invariant first == Removed(old(State())).first
            invariant todo + gone <= listing.Keys && gone !! todo
            invariant forall name :: name in gone ==> listing[name].Symlink? && ParseUsize(name).Some?
            invariant forall name :: name in listing && name !in todo && name !in gone ==> name in Kept(listing)
            invariant roots == Folder(listing - gone)
          {
            var name :| name in todo;
            if ParseUsize(name).Some? {
              ghost var before := roots.entries;
              RemoveGcRoot(Numbered(name));
              if listing[name].Symlink? {
                gone := gone + {name};
                assert Without(before, name) == listing - gone;
              }
            }
            todo := todo - {name};
          }
          assert listing - gone == Kept(listing);
          if roots.entries == map[] {
            roots := Absent;
          }
      }
    }

    /** `resolve_detailed` around the roots: register, and on any failure remove. */
    method Resolve(paths: seq<string>, calls: seq<NixCall>) returns (r: Result<(), RootError>)
      requires |calls| == |paths|
      modifies this`first, this`roots
      ensures var (expected, f) := RegisterAll(old(State()), paths, calls);
        r == expected && State() == if r.Ok? then f else Removed(f)
    {
      r := RegisterEvery(paths, calls);
      if r.Err? {
        RemoveBundleGcRoots();
      }
    }

    /** `prepare_bundle`: a failed rewrite also removes what was registered. */
    method Prepare(paths: seq<string>, calls: seq<NixCall>, rewriteOk: bool) returns (ok: bool)
      requires |calls| == |paths|
      modifies this`first, this`roots
      ensures var (expected, f) := RegisterAll(old(State()), paths, calls);
        ok == (expected.Ok? && rewriteOk) && State() == if ok then f else Removed(f)
    {
      var r := Resolve(paths, calls);
      if r.Err? {
        return false;
      }
      if !rewriteOk {
        RemoveBundleGcRoots();
        return false;
      }
      return true;
    }
  }

  // ----- helpers about the value functions

  lemma SetTwice(f: Files, p: RootPath, e: Option<Entry>)
    ensures Reachable(f, p) ==> Reachable(Set(f, p, None), p) && Set(Set(f, p, None), p, e) == Set(f, p, e)
  {
    if Reachable(f, p) && p.Numbered? && f.roots.Folder? {
      var m := f.roots.entries;
      assert Without(Without(m, p.name), p.name) == Without(m, p.name);
      if e.Some? {
        assert Without(m, p.name)[p.name := e.value] == m[p.name := e.value];
      }
    }
  }

  lemma SetGet(f: Files, p: RootPath, e: Option<Entry>)
    requires Reachable(f, p)
    ensures At(Set(f, p, e), p) == e
    ensures forall q :: q != p ==> At(Set(f, p, e), q) == At(f, q)
  {
  }

  lemma RegisterStep(f: Files, paths: seq<string>, calls: seq<NixCall>, k: nat)
    requires |calls| == |paths| && k < |paths|
    ensures var (r, g) := RegisterAll(f, paths[..k], calls[..k]);
      RegisterAll(f, paths[..k + 1], calls[..k + 1]) == if r.Err? then (r, g) else RegisterOne(g, k, paths[k], calls[k])
  {
    assert paths[..k + 1][..k] == paths[..k] && calls[..k + 1][..k] == calls[..k];
  }

  lemma {:induction false} RegisterStops(f: Files, paths: seq<string>, calls: seq<NixCall>, k: nat)
    requires |calls| == |paths| && k <= |paths| && RegisterAll(f, paths[..k], calls[..k]).0.Err?
    ensures RegisterAll(f, paths, calls) == RegisterAll(f, paths[..k], calls[..k])
    decreases |paths| - k
  {
    if k == |paths| {
      assert paths[..k] == paths && calls[..k] == calls;
    } else {
      RegisterStep(f, paths, calls, k);
      RegisterStops(f, paths, calls, k + 1);
    }
  }
}
