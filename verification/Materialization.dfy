/**
 What one caller's own Nix work comes to: the leader's materialization and the
 follower's registration, with the GC roots they leave in the caller's bundle.
 */
module Materialization {
  import opened Wrappers
  import opened Text
  import opened Sources
  import opened Releases
  import opened GcRoots
  import opened GcRootProofs
  import opened Decimal

  function DevelopmentIdentity(installable: string): string {
    if "path:" <= installable then "development-source" else "external-source"
  }

  /** The resolutions this job can get when it materializes alone. A release and
      a closure leave one; a development source leaves the evaluated path to Nix. */
  predicate Yields(job: Job, r: ResolvedRelease) {
    match job.request.materialize
    case Release(_) => job.selected.Some? && r == job.selected.value.resolution
    case Closure(path) => r == ResolvedRelease("legacy-closure", path, None, [])
    case Flake(installable) =>
      ValidStorePath(r.rootfs) && r == ResolvedRelease(DevelopmentIdentity(installable), r.rootfs, None, [])
  }

  /** The trimmed, nonempty lines of an output. */
  function Printed(lines: seq<string>): seq<string> {
    if lines == [] then []
    else (if Trim(lines[0]) == "" then [] else [Trim(lines[0])]) + Printed(lines[1..])
  }

  /** `parse_materialized_path`: exactly one line, and a store path. */
  function ParseMaterialized(stdout: string): Option<string> {
    var printed := Printed(Split(stdout, '\n'));
    if |printed| == 1 && ValidStorePath(printed[0]) then Some(printed[0]) else None
  }

  /** Everything Nix did for one caller: what evaluation printed, if it succeeded,
      and what each root registration left. A call that never happened, because
      something before it failed, left nothing and did not succeed. */
  datatype NixWork = NixWork(stdout: Option<string>, calls: seq<NixCall>)

  /** One call for each root that is registered. */
  predicate Supplies(job: Job, nix: NixWork) {
    |nix.calls| == if job.request.materialize.Release? && job.selected.Some?
                   then |StorePaths(job.selected.value.resolution)| else 1
  }

  function Blocked(f: Files, p: RootPath): bool { At(f, p).Some? && At(f, p).value.Other? }

  /** `materialize_development`: the root is prepared, the source evaluated, and the
      evaluated path registered. */
  function Develop(f: Files, stdout: Option<string>, call: NixCall): (Result<string, RootError>, Files) {
    if Blocked(f, First) then (Err(Collision), f)
    else
      var path := if stdout.Some? then ParseMaterialized(stdout.value) else None;
      if path.None? then (Err(RootError.Failed), Set(f, First, None))
      else
        var h := Set(f, First, call.left);
        (if Good(call, path.value) then Ok(path.value) else Err(RootError.Failed), h)
  }

  /** `materialize` on the leader's own bundle. */
  function Produce(job: Job, f: Files, nix: NixWork): (Result<ResolvedRelease, RootError>, Files)
    requires Supplies(job, nix)
  {
    match job.request.materialize
    case Release(_) =>
      if job.selected.None? then (Err(RootError.Failed), f)
      else
        var resolution := job.selected.value.resolution;
        var (r, g) := RegisterAll(f, StorePaths(resolution), nix.calls);
        (if r.Ok? then Ok(resolution) else Err(r.error), g)
    case Closure(path) =>
      var (r, g) := RegisterAll(f, [path], nix.calls);
      (if r.Ok? then Ok(ResolvedRelease("legacy-closure", path, None, [])) else Err(r.error), g)
    case Flake(installable) =>
      var (r, g) := Develop(f, nix.stdout, nix.calls[0]);
      (if r.Ok? then Ok(ResolvedRelease(DevelopmentIdentity(installable), r.value, None, [])) else Err(r.error), g)
  }

  /** The leader's methods on the bundle, in source order. */
  method MaterializeInto(bundle: Bundle, job: Job, nix: NixWork) returns (r: Result<ResolvedRelease, RootError>)
    requires Supplies(job, nix)
    modifies bundle
    ensures (r, bundle.State()) == Produce(job, old(bundle.State()), nix)
    ensures bundle.others == old(bundle.others)
  {
    match job.request.materialize
    case Release(_) =>
      if job.selected.None? {
        return Err(RootError.Failed);
      }
      var resolution := job.selected.value.resolution;
      var registered := bundle.RegisterEvery(StorePaths(resolution), nix.calls);
      return if registered.Ok? then Ok(resolution) else Err(registered.error);
    case Closure(path) =>
      var registered := bundle.RegisterEvery([path], nix.calls);
      return if registered.Ok? then Ok(ResolvedRelease("legacy-closure", path, None, [])) else Err(registered.error);
    case Flake(installable) =>
      var path := DevelopInto(bundle, nix.stdout, nix.calls[0]);
      return if path.Err? then Err(path.error)
             else Ok(ResolvedRelease(DevelopmentIdentity(installable), path.value, None, []));
  }

  method DevelopInto(bundle: Bundle, stdout: Option<string>, call: NixCall) returns (r: Result<string, RootError>)
    modifies bundle
    ensures (r, bundle.State()) == Develop(old(bundle.State()), stdout, call)
    ensures bundle.others == old(bundle.others)
  {
    var prepared := bundle.PrepareGcRoot(First);
    if prepared.Err? {
      return Err(prepared.error);
    }
    var path := if stdout.Some? then ParseMaterialized(stdout.value) else None;
    if path.None? {
      return Err(RootError.Failed);
    }
    ghost var cleared := bundle.State();
    SetGet(old(bundle.State()), First, None);
    var ok := bundle.RunNix(First, call);
    SetTwice(old(bundle.State()), First, call.left);
    SetGet(cleared, First, call.left);
    var valid := bundle.ValidateRegisteredRoot(First, path.value);
    return if ok && valid then Ok(path.value) else Err(RootError.Failed);
  }

  // ----- what it guarantees

  /** Whatever Nix does, a materialization that succeeds yields what the job asks for. */
  lemma MaterializeYields(job: Job, f: Files, nix: NixWork)
    requires Supplies(job, nix) && Produce(job, f, nix).0.Ok?
    ensures Yields(job, Produce(job, f, nix).0.value)
  {
  }

  lemma {:induction false} NothingPrinted(lines: seq<string>)
    ensures Printed(lines) == [] <==> forall i :: 0 <= i < |lines| ==> Trim(lines[i]) == ""
  {
    if lines != [] {
      NothingPrinted(lines[1..]);
      assert forall i :: 0 <= i < |lines[1..]| ==> lines[1..][i] == lines[i + 1];
      assert forall i :: 0 < i < |lines| ==> lines[i] == lines[1..][i - 1];
    }
  }

  /** The k-th line says `path`, and no other line says anything. */
  predicate SaysOnly(lines: seq<string>, k: nat, path: string) {
    && k < |lines| && path != "" && Trim(lines[k]) == path
    && forall i :: 0 <= i < |lines| && i != k ==> Trim(lines[i]) == ""
  }

  lemma {:induction false} PrintedOnce(lines: seq<string>, path: string)
    ensures Printed(lines) == [path] <==> exists k :: SaysOnly(lines, k, path)
  {
    if lines != [] {
      var rest := lines[1..];
      PrintedOnce(rest, path);
      NothingPrinted(rest);
      assert forall i :: 0 < i < |lines| ==> lines[i] == rest[i - 1];
      if Trim(lines[0]) == "" {
        if k: nat :| SaysOnly(rest, k, path) {
          assert SaysOnly(lines, k + 1, path);
        }
        if k: nat :| SaysOnly(lines, k, path) {
          assert SaysOnly(rest, k - 1, path);
        }
      } else {
        var printed := Printed(lines);
        assert printed == [Trim(lines[0])] + Printed(rest) && printed[1..] == Printed(rest);
        if Trim(lines[0]) == path && Printed(rest) == [] {
          assert printed == [path];
        }
        if printed == [path] {
          assert printed[0] == path && printed[1..] == [];
        }
        assert Printed(lines) == [path] ==> SaysOnly(lines, 0, path);
      }
    }
  }

  /** An evaluation is taken at its word only if it said one store path and nothing else. */
  lemma EvaluationSaysOnePath(stdout: string, path: string)
    ensures ParseMaterialized(stdout) == Some(path) <==>
      ValidStorePath(path) && exists k :: SaysOnly(Split(stdout, '\n'), k, path)
  {
    var printed := Printed(Split(stdout, '\n'));
    PrintedOnce(Split(stdout, '\n'), path);
    if ParseMaterialized(stdout) == Some(path) {
      assert printed == [path];
    }
    if printed == [path] {
      assert |printed| == 1 && printed[0] == path;
      assert exists k :: SaysOnly(Split(stdout, '\n'), k, path);
      assert ParseMaterialized(stdout) == if ValidStorePath(path) then Some(path) else None;
    }
  }

  /** When a development source is materialized: exactly when nothing foreign is at the
      root, the evaluation succeeds and says one store path, and registering it leaves
      a link to that very path. */
  lemma DevelopsExactly(f: Files, stdout: Option<string>, call: NixCall, path: string)
    ensures Develop(f, stdout, call).0 == Ok(path) <==>
      && !(f.first.Some? && f.first.value.Other?)
      && stdout.Some? && ValidStorePath(path)
      && (exists k :: SaysOnly(Split(stdout.value, '\n'), k, path))
      && call.ok && call.left == Some(Symlink(path))
  {
    if stdout.Some? {
      EvaluationSaysOnePath(stdout.value, path);
    }
  }

  lemma ProducedByRegistration(job: Job, f: Files, nix: NixWork) returns (paths: seq<string>)
    requires Supplies(job, nix) && !job.request.materialize.Flake?
    requires job.request.materialize.Release? ==> job.selected.Some?
    ensures |paths| == |nix.calls| && Produce(job, f, nix).1 == RegisterAll(f, paths, nix.calls).1
  {
    match job.request.materialize
    case Release(_) => paths := StorePaths(job.selected.value.resolution);
    case Closure(path) => paths := [path];
  }

  /** Materializing, however far it came, and then removing leaves what removing alone
      would have left, as long as Nix left only links. */
  lemma MaterializationIsUndone(job: Job, f: Files, nix: NixWork)
    requires Supplies(job, nix) && |nix.calls| <= USIZE_LIMIT
    requires forall i :: 0 <= i < |nix.calls| ==> LeavesNoFile(nix.calls[i])
    ensures Removed(Produce(job, f, nix).1) == Removed(f)
  {
    if job.request.materialize.Flake? {
      if !Blocked(f, First) {
        LinkIsForgotten(f, First, None);
        LinkIsForgotten(f, First, nix.calls[0].left);
      }
    } else if job.request.materialize.Closure? || job.selected.Some? {
      var paths := ProducedByRegistration(job, f, nix);
      RemovalUndoesRegistration(f, paths, nix.calls);
    }
  }

  /** Root i of a bundle is a link to path i, for every i. */
  predicate Rooted(f: Files, paths: seq<string>) {
    forall i :: 0 <= i < |paths| ==> At(f, Slot(i)) == Some(Symlink(paths[i]))
  }

  lemma RegisteredIsRooted(f: Files, paths: seq<string>, calls: seq<NixCall>)
    requires |calls| == |paths| && RegisterAll(f, paths, calls).0.Ok?
    ensures Rooted(RegisterAll(f, paths, calls).1, paths)
  {
    forall i | 0 <= i < |paths|
      ensures At(RegisterAll(f, paths, calls).1, Slot(i)) == Some(Symlink(paths[i]))
    {
      SuccessRegistersEveryPath(f, paths, calls, i);
    }
  }

  lemma RootsOfOne(f: Files, r: ResolvedRelease)
    requires r.mounts == [] && Rooted(f, [r.rootfs])
    ensures Rooted(f, StorePaths(r))
  {
    assert StorePaths(r) == [r.rootfs];
  }

  /** And it leaves a validated root for every store path of what it yields. */
  lemma MaterializeRoots(job: Job, f: Files, nix: NixWork)
    requires Supplies(job, nix) && Produce(job, f, nix).0.Ok?
    ensures Rooted(Produce(job, f, nix).1, StorePaths(Produce(job, f, nix).0.value))
  {
    var (r, g) := Produce(job, f, nix);
    match job.request.materialize
    case Release(_) => RegisteredIsRooted(f, StorePaths(r.value), nix.calls);
    case Closure(path) =>
      RegisteredIsRooted(f, [path], nix.calls);
      RootsOfOne(g, r.value);
    case Flake(_) =>
      assert Rooted(g, [r.value.rootfs]);
      RootsOfOne(g, r.value);
  }

  /** Root 0 is the root file system, and the roots after it are the sources of the
      mounts, in their order. */
  predicate KeepsAlive(f: Files, r: ResolvedRelease) {
    && f.first == Some(Symlink(r.rootfs))
    && forall k :: 0 <= k < |r.mounts| ==> At(f, Slot(k + 1)) == Some(Symlink(r.mounts[k].source))
  }

  lemma RootedKeepsAlive(f: Files, r: ResolvedRelease)
    requires Rooted(f, StorePaths(r))
    ensures KeepsAlive(f, r)
  {
    var paths := StorePaths(r);
    assert At(f, Slot(0)) == Some(Symlink(paths[0])) && paths[0] == r.rootfs;
    forall k | 0 <= k < |r.mounts|
      ensures At(f, Slot(k + 1)) == Some(Symlink(r.mounts[k].source))
    {
      assert paths[k + 1] == r.mounts[k].source;
    }
  }

  /** Nix work in which every call does what it is asked. */
  function Willing(job: Job, path: string): NixWork {
    match job.request.materialize
    case Release(_) =>
      if job.selected.None? then NixWork(None, [NixCall(None, false)])
      else
        var paths := StorePaths(job.selected.value.resolution);
        NixWork(None, seq(|paths|, i requires 0 <= i < |paths| => NixCall(Some(Symlink(paths[i])), true)))
    case Closure(closure) => NixWork(None, [NixCall(Some(Symlink(closure)), true)])
    case Flake(_) => NixWork(Some(path), [NixCall(Some(Symlink(path)), true)])
  }

  /** A clean bundle can always be materialized into, if Nix is willing. */
  lemma WillingSucceeds(job: Job, path: string)
    requires job.request.materialize.Release? ==> job.selected.Some?
    requires ParseMaterialized(path) == Some(path)
    ensures Supplies(job, Willing(job, path)) && Produce(job, CLEAN, Willing(job, path)).0.Ok?
  {
    var nix := Willing(job, path);
    match job.request.materialize
    case Release(_) =>
      var paths := StorePaths(job.selected.value.resolution);
      SucceedsExactly(CLEAN, paths, nix.calls);
    case Closure(closure) => SucceedsExactly(CLEAN, [closure], nix.calls);
    case Flake(_) =>
  }

  /** Nix work in which nothing succeeds. */
  function Unwilling(job: Job): NixWork {
    var n := if job.request.materialize.Release? && job.selected.Some?
             then |StorePaths(job.selected.value.resolution)| else 1;
    NixWork(None, seq(n, _ => NixCall(None, false)))
  }

  lemma UnwillingFails(job: Job)
    ensures Supplies(job, Unwilling(job)) && Produce(job, CLEAN, Unwilling(job)).0.Err?
  {
    var nix := Unwilling(job);
    match job.request.materialize
    case Release(_) =>
      if job.selected.Some? {
        var paths := StorePaths(job.selected.value.resolution);
        SucceedsExactly(CLEAN, paths, nix.calls);
        assert !Good(nix.calls[0], paths[0]);
      }
    case Closure(closure) =>
      SucceedsExactly(CLEAN, [closure], nix.calls);
      assert !Good(nix.calls[0], [closure][0]);
    case Flake(_) =>
  }

  lemma PlainIsTrimmed(s: string)
    requires s != "" && !IsWhitespace(s[0]) && !IsWhitespace(s[|s| - 1])
    ensures Trim(s) == s
  {
  }

  /** Some output parses. */
  lemma SomeOutputParses() returns (path: string)
    ensures ParseMaterialized(path) == Some(path)
  {
    path := SomeStorePath();
    assert NoControl(path);
    assert '\n' !in path;
    SplitNone(path, '\n');
    assert IsStoreNameChar(path[|path| - 1]);
    PlainIsTrimmed(path);
    assert Printed([path]) == [path];
  }
}
