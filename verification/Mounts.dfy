/** Projecting the node's Nix store and the release's mounts into the bundle's mount list. */
module Mounts {
  import opened Wrappers
  import opened Text
  import opened Sources
  import opened Releases
  import opened Order

  /** What a mount says apart from its destination: the workload's own JSON, or what is written here. */
  datatype Body = Foreign(text: string) | Written(options: seq<string>, source: string, kind: string)

  /** The destination is absent when the JSON value has no string there. */
  datatype Mount = Mount(destination: Option<string>, body: Body)

  datatype Field = Missing | NotArray | Array(mounts: seq<Mount>)

  datatype Projection = Whole | Closure(paths: seq<string>)

  const READ_ONLY: seq<string> := ["rbind", "ro", "nosuid", "nodev"]

  function BindOf(source: string, destination: string): Mount {
    Mount(Some(destination), Written(READ_ONLY, source, "bind"))
  }

  function StoreTmpfs(store: string): Mount {
    Mount(Some(store), Written(["nosuid", "nodev", "mode=0755"], "tmpfs", "tmpfs"))
  }

  /** `entry("mounts").or_insert_with(..)`. */
  function Existing(field: Field): seq<Mount> { if field.Array? then field.mounts else [] }

  predicate Named(mounts: seq<Mount>) { forall i :: 0 <= i < |mounts| ==> mounts[i].destination.Some? }

  predicate Mounted(mounts: seq<Mount>, destination: string) {
    exists i :: 0 <= i < |mounts| && mounts[i].destination == Some(destination)
  }

  function StoreBinds(release: seq<StoreMount>): (r: seq<Mount>)
    ensures |r| == |release| && forall i :: 0 <= i < |r| ==> r[i] == BindOf(release[i].source, release[i].destination)
  {
    seq(|release|, i requires 0 <= i < |release| => BindOf(release[i].source, release[i].destination))
  }

  /** No release destination is taken already, by the workload or by an earlier one. */
  predicate FreshDestinations(mounts: seq<Mount>, release: seq<StoreMount>) {
    && (forall i :: 0 <= i < |release| ==> !Mounted(mounts, release[i].destination))
    && (forall i, j :: 0 <= i < j < |release| ==> release[i].destination != release[j].destination)
  }

  method CollectDestinations(mounts: seq<Mount>) returns (destinations: Option<set<string>>)
    ensures destinations.Some? <==> Named(mounts)
    ensures destinations.Some? ==> forall d :: d in destinations.value <==> Mounted(mounts, d)
  {
    var found: set<string> := {};
    for i := 0 to |mounts|
      invariant Named(mounts[..i])
      invariant forall d :: d in found <==> exists j :: 0 <= j < i && mounts[j].destination == Some(d)
    {
      match mounts[i].destination {
        case None => return None;
        case Some(d) => found := found + {d};
      }
    }
    return Some(found);
  }

  /** `apply_store_mounts`. */
  method ApplyStoreMounts(field: Field, release: seq<StoreMount>) returns (r: Result<Field, ()>)
    ensures release == [] ==> r == Ok(field)
    ensures release != [] ==>
      (r.Ok? <==> !field.NotArray? && Named(Existing(field)) && FreshDestinations(Existing(field), release))
    ensures release != [] && r.Ok? ==> r.value == Array(Existing(field) + StoreBinds(release))
  {
    if release == [] {
      return Ok(field);
    }
    if field.NotArray? {
      return Err(());
    }
    var mounts := Existing(field);
    var collected := CollectDestinations(mounts);
    if collected.None? {
      return Err(());
    }
    var destinations := collected.value;
    for k := 0 to |release|
      invariant mounts == Existing(field) + StoreBinds(release)[..k]
      invariant forall d :: d in destinations <==>
        Mounted(Existing(field), d) || exists i :: 0 <= i < k && release[i].destination == d
      invariant FreshDestinations(Existing(field), release[..k])
    {
      var mount := release[k];
      if mount.destination in destinations {
        return Err(());
      }
      assert release[..k + 1] == release[..k] + [mount];
      destinations := destinations + {mount.destination};
      mounts := mounts + [BindOf(mount.source, mount.destination)];
    }
    assert release[..|release|] == release;
    return Ok(Array(mounts));
  }

  // ----- paths

  /** `normalized_oci_destination`. */
  predicate Normalized(value: string) {
    && value != "" && value[0] == '/'
    && NUL !in value
    && (value == "/" ||
        (value[|value| - 1] != '/' &&
         forall i :: 1 <= i < |Split(value, '/')| ==> Split(value, '/')[i] !in ["", ".", ".."]))
  }

  /** What `Path` makes of an absolute path: empty and `.` components vanish. */
  function Significant(parts: seq<string>): seq<string> {
    if parts == [] then []
    else (if parts[0] == "" || parts[0] == "." then [] else [parts[0]]) + Significant(parts[1..])
  }

  function Components(path: string): seq<string> { Significant(Split(path, '/')) }

  /** `Path::starts_with`, component by component. */
  predicate StartsWith(path: string, base: string) { Components(base) <= Components(path) }

  const STORE_PARTS: seq<string> := ["nix", "store"]

  /** At, below or above the store. */
  predicate Conflicts(destination: string) {
    STORE_PARTS <= Components(destination) || Components(destination) <= STORE_PARTS
  }

  lemma SignificantCons(part: string, rest: seq<string>)
    ensures Significant([part] + rest) == (if part == "" || part == "." then [] else [part]) + Significant(rest)
  {
    assert ([part] + rest)[1..] == rest;
  }

  lemma ComponentsOfTwo(a: string, b: string)
    requires '/' !in a && '/' !in b && a !in ["", "."] && b !in ["", "."]
    ensures Components("" + ['/'] + (a + ['/'] + b)) == [a, b]
  {
    SplitFirst("", '/', a + ['/'] + b);
    SplitFirst(a, '/', b);
    SplitNone(b, '/');
    SignificantCons("", [a] + [b]);
    SignificantCons(a, [b]);
    SignificantCons(b, []);
    assert [b] + [] == [b];
  }

  /** `NIX_STORE_PATH` is passed around as `store`; its components are all that matters. */
  predicate IsStore(store: string) { Components(store) == STORE_PARTS }

  lemma NixStoreIsStore(store: string)
    requires store == "/nix/store"
    ensures IsStore(store)
  {
    ComponentsOfTwo("nix", "store");
    assert store == "" + ['/'] + ("nix" + ['/'] + "store");
  }

  predicate ClearOfStore(mount: Mount) {
    mount.destination.Some? && Normalized(mount.destination.value) && !Conflicts(mount.destination.value)
  }

  predicate AllClear(mounts: seq<Mount>) { forall i :: 0 <= i < |mounts| ==> ClearOfStore(mounts[i]) }

  function ClosureBinds(root: Option<string>, paths: seq<string>): seq<Mount> {
    if paths == [] then []
    else
      var last := paths[|paths| - 1];
      ClosureBinds(root, paths[..|paths| - 1]) + if root == Some(last) then [] else [BindOf(last, last)]
  }

  function ProjectionMounts(store: string, root: Option<string>, projection: Projection): seq<Mount> {
    match projection
    case Whole => [BindOf(store, store)]
    case Closure(paths) => [StoreTmpfs(store)] + ClosureBinds(root, paths)
  }

  method CheckMount(store: string, mount: Mount) returns (ok: bool)
    requires IsStore(store)
    ensures ok <==> ClearOfStore(mount)
  {
    match mount.destination {
      case None => return false;
      case Some(destination) =>
        if !Normalized(destination) {
          return false;
        }
        return !(StartsWith(destination, store) || StartsWith(store, destination));
    }
  }

  method CheckAll(store: string, mounts: seq<Mount>) returns (ok: bool)
    requires IsStore(store)
    ensures ok <==> AllClear(mounts)
  {
    for i := 0 to |mounts|
      invariant forall j :: 0 <= j < i ==> ClearOfStore(mounts[j])
    {
      var clear := CheckMount(store, mounts[i]);
      if !clear {
        return false;
      }
    }
    return true;
  }

  method PushClosure(mounts: seq<Mount>, root: Option<string>, paths: seq<string>) returns (r: seq<Mount>)
    ensures r == mounts + ClosureBinds(root, paths)
  {
    r := mounts;
    for k := 0 to |paths|
      invariant r == mounts + ClosureBinds(root, paths[..k])
    {
      assert paths[..k + 1][..k] == paths[..k];
      if root != Some(paths[k]) {
        r := r + [BindOf(paths[k], paths[k])];
      }
    }
    assert paths[..|paths|] == paths;
  }

  /** `apply_node_store_projection`. */
  method ApplyNodeStoreProjection(store: string, field: Field, root: Option<string>, projection: Projection)
    returns (r: Result<Field, ()>)
    requires IsStore(store)
    ensures r.Ok? <==> !field.NotArray? && AllClear(Existing(field))
    ensures r.Ok? ==> r.value == Array(Existing(field) + ProjectionMounts(store, root, projection))
  {
    if field.NotArray? {
      return Err(());
    }
    var mounts := Existing(field);
    var clear := CheckAll(store, mounts);
    if !clear {
      return Err(());
    }
    match projection {
      case Whole => mounts := mounts + [BindOf(store, store)];
      case Closure(paths) =>
        Associates(mounts, [StoreTmpfs(store)], ClosureBinds(root, paths));
        mounts := PushClosure(mounts + [StoreTmpfs(store)], root, paths);
    }
    return Ok(Array(mounts));
  }

  lemma AllClearAppend(a: seq<Mount>, b: seq<Mount>)
    ensures AllClear(a + b) <==> AllClear(a) && AllClear(b)
    ensures AllClear(a) ==> Named(a)
  {
    assert forall i :: 0 <= i < |a| ==> (a + b)[i] == a[i];
    assert forall i :: 0 <= i < |b| ==> (a + b)[|a| + i] == b[i];
  }

  /** Both, as `apply_resolution_with_projection` runs them: the container root is
      by then the release's rootfs. */
  method Project(store: string, field: Field, release: ResolvedRelease, projection: Projection)
    returns (r: Result<seq<Mount>, ()>)
    requires IsStore(store)
    ensures r == Projected(store, field, release, projection)
  {
    ghost var before, added := Existing(field), StoreBinds(release.mounts);
    AllClearAppend(before, added);
    assert release.mounts == [] ==> before + added == before;
    var bound := ApplyStoreMounts(field, release.mounts);
    if bound.Err? {
      return Err(());
    }
    var projected := ApplyNodeStoreProjection(store, bound.value, Some(release.rootfs), projection);
    if projected.Err? {
      return Err(());
    }
    return Ok(projected.value.mounts);
  }

  function Projected(store: string, field: Field, release: ResolvedRelease, projection: Projection)
    : Result<seq<Mount>, ()>
  {
    var before, added := Existing(field), StoreBinds(release.mounts);
    if field.NotArray? || !AllClear(before + added) || !FreshDestinations(before, release.mounts) then Err(())
    else Ok(before + added + ProjectionMounts(store, Some(release.rootfs), projection))
  }
}
