/** What a projected mount list guarantees. */
module MountProofs {
  import opened Wrappers
  import opened Text
  import opened Sources
  import opened Releases
  import opened Mounts
  import opened Paths

  // ----- normalized paths

  predicate Ordinary(parts: seq<string>) { forall i :: 0 <= i < |parts| ==> parts[i] !in ["", "."] }

  lemma {:induction false} OrdinaryIsSignificant(parts: seq<string>)
    requires Ordinary(parts)
    ensures Significant(parts) == parts
  {
    if parts != [] {
      OrdinaryIsSignificant(parts[1..]);
      SignificantCons(parts[0], parts[1..]);
      assert parts == [parts[0]] + parts[1..];
    }
  }

  /** Below the root, a normalized path has exactly its components between slashes. */
  lemma NormalizedParts(path: string)
    requires Normalized(path) && path != "/"
    ensures Split(path, '/') == [""] + Components(path) && Components(path) != []
  {
    LeadingSlash(path);
    var rest := Split(path[1..], '/');
    forall i | 0 <= i < |rest|
      ensures rest[i] !in ["", ".", ".."]
    {
      assert Split(path, '/')[i + 1] == rest[i];
    }
    OrdinaryIsSignificant(rest);
    SignificantCons("", rest);
  }

  lemma RootParts(path: string)
    requires path == "/"
    ensures Components(path) == []
  {
    LeadingSlash(path);
    SplitNone("", '/');
    assert path[1..] == "";
    SignificantCons("", [""]);
    SignificantCons("", []);
    assert [""] + [] == [""];
  }

  /** Normalization makes string equality decide path equality. */
  lemma NormalizedIsCanonical(a: string, b: string)
    requires Normalized(a) && Normalized(b)
    ensures Components(a) == Components(b) <==> a == b
  {
    if Components(a) == Components(b) {
      if a == "/" {
        RootParts(a);
        if b != "/" {
          NormalizedParts(b);
        }
      } else {
        NormalizedParts(a);
        if b == "/" {
          RootParts(b);
        } else {
          NormalizedParts(b);
          JoinSplit(a, '/');
          JoinSplit(b, '/');
        }
      }
    }
  }

  /** Without it they can be one path under two names. */
  lemma DotsAlias(name: string)
    requires '/' !in name
    ensures Components("" + ['/'] + name) == Components("" + ['/'] + ("." + ['/'] + name))
    ensures "" + ['/'] + name != "" + ['/'] + ("." + ['/'] + name)
    ensures !Normalized("" + ['/'] + ("." + ['/'] + name))
  {
    var a, b := "" + ['/'] + name, "" + ['/'] + ("." + ['/'] + name);
    SplitFirst("", '/', name);
    SplitFirst("", '/', "." + ['/'] + name);
    SplitFirst(".", '/', name);
    SplitNone(name, '/');
    SignificantCons("", [name]);
    SignificantCons("", ["."] + [name]);
    SignificantCons(".", [name]);
    assert Split(b, '/')[1] == ".";
  }

  function Basename(path: string): string
    requires ValidStorePath(path)
  {
    path[|STORE_PREFIX|..]
  }

  lemma StorePathComponents(path: string)
    requires ValidStorePath(path)
    ensures Components(path) == STORE_PARTS + [Basename(path)] && Normalized(path)
  {
    var basename := Basename(path);
    var rest := "store" + ['/'] + basename;
    LeadingSlash(path);
    assert path[1..] == "nix" + ['/'] + rest;
    TwoParts("store", basename);
    SplitFirst("nix", '/', rest);
    StorePathIsNormalized(path, ["nix"] + ["store", basename]);
  }

  lemma TwoParts(a: string, b: string)
    requires '/' !in a && '/' !in b
    ensures Split(a + ['/'] + b, '/') == [a, b]
  {
    SplitFirst(a, '/', b);
    SplitNone(b, '/');
  }

  lemma StorePathIsNormalized(path: string, parts: seq<string>)
    requires ValidStorePath(path) && Split(path, '/') == [""] + parts && parts == ["nix"] + ["store", Basename(path)]
    ensures Components(path) == STORE_PARTS + [Basename(path)] && Normalized(path)
  {
    assert Ordinary(parts);
    OrdinaryIsSignificant(parts);
    SignificantCons("", parts);
    assert parts == STORE_PARTS + [Basename(path)];
    assert NoControl(path);
    assert path[|path| - 1] == Basename(path)[|Basename(path)| - 1];
    forall i | 1 <= i < |Split(path, '/')|
      ensures Split(path, '/')[i] !in ["", ".", ".."]
    {
      assert Split(path, '/')[i] == parts[i - 1];
    }
  }

  // ----- uniqueness

  predicate UniqueStrings(mounts: seq<Mount>) {
    forall i, j :: 0 <= i < j < |mounts| ==> mounts[i].destination != mounts[j].destination
  }

  predicate SamePath(a: Mount, b: Mount) {
    a.destination.Some? && b.destination.Some? && Components(a.destination.value) == Components(b.destination.value)
  }

  predicate UniquePaths(mounts: seq<Mount>) {
    forall i, j :: 0 <= i < j < |mounts| ==> !SamePath(mounts[i], mounts[j])
  }

  lemma ClearIsUnique(mounts: seq<Mount>)
    requires AllClear(mounts) && UniqueStrings(mounts)
    ensures UniquePaths(mounts)
  {
    forall i, j | 0 <= i < j < |mounts|
      ensures !SamePath(mounts[i], mounts[j])
    {
      assert ClearOfStore(mounts[i]) && ClearOfStore(mounts[j]);
      NormalizedIsCanonical(mounts[i].destination.value, mounts[j].destination.value);
    }
  }

  lemma FreshIsUnique(before: seq<Mount>, release: seq<StoreMount>)
    requires UniqueStrings(before) && FreshDestinations(before, release)
    ensures UniqueStrings(before + StoreBinds(release))
  {
    var all := before + StoreBinds(release);
    forall i, j | 0 <= i < j < |all|
      ensures all[i].destination != all[j].destination
    {
      if j >= |before| {
        assert all[j].destination == Some(release[j - |before|].destination);
        if i < |before| {
          assert !Mounted(before, release[j - |before|].destination);
        }
      }
    }
  }

  lemma UniqueAppend(a: seq<Mount>, b: seq<Mount>)
    requires UniquePaths(a) && UniquePaths(b)
    requires forall i, j :: 0 <= i < |a| && 0 <= j < |b| ==> !SamePath(a[i], b[j])
    ensures UniquePaths(a + b)
  {
  }

  // ----- the closure

  predicate Distinct(paths: seq<string>) { forall i, j :: 0 <= i < j < |paths| ==> paths[i] != paths[j] }

  predicate StorePathsOnly(paths: seq<string>) { forall i :: 0 <= i < |paths| ==> ValidStorePath(paths[i]) }

  lemma {:induction false} ClosureBindIs(root: Option<string>, paths: seq<string>, m: Mount)
    ensures m in ClosureBinds(root, paths) <==>
      m.destination.Some? && m == BindOf(m.destination.value, m.destination.value)
      && m.destination.value in paths && root != m.destination
    decreases |paths|
  {
    if paths != [] {
      ClosureBindIs(root, paths[..|paths| - 1], m);
      assert paths == paths[..|paths| - 1] + [paths[|paths| - 1]];
    }
  }

  /** Each closure path is bound exactly once, read-only, onto itself; the rootfs
      is not bound, and nothing else is. */
  lemma {:induction false} ClosureBindsExactly(root: Option<string>, paths: seq<string>, m: Mount)
    requires Distinct(paths)
    ensures multiset(ClosureBinds(root, paths))[m] ==
      if m.destination.Some? && m == BindOf(m.destination.value, m.destination.value)
         && m.destination.value in paths && root != m.destination then 1 else 0
    decreases |paths|
  {
    if paths != [] {
      var init, last := paths[..|paths| - 1], paths[|paths| - 1];
      ClosureBindsExactly(root, init, m);
      assert paths == init + [last];
      assert last !in init;
      var before, bind := ClosureBinds(root, init), BindOf(last, last);
      assert multiset(before + [bind]) == multiset(before) + multiset{bind};
    }
  }

  lemma {:induction false} ClosureBindsUnique(root: Option<string>, paths: seq<string>)
    requires Distinct(paths) && StorePathsOnly(paths)
    ensures UniquePaths(ClosureBinds(root, paths))
    decreases |paths|
  {
    if paths != [] {
      var init, last := paths[..|paths| - 1], paths[|paths| - 1];
      ClosureBindsUnique(root, init);
      if root != Some(last) {
        var binds := ClosureBinds(root, init);
        forall i | 0 <= i < |binds|
          ensures !SamePath(binds[i], BindOf(last, last))
        {
          ClosureBindIs(root, init, binds[i]);
          var p := binds[i].destination.value;
          var k :| 0 <= k < |init| && init[k] == p;
          assert paths[k] == p;
          StorePathComponents(p);
          StorePathComponents(last);
          NormalizedIsCanonical(p, last);
        }
        UniqueAppend(binds, [BindOf(last, last)]);
      }
    }
  }

  // ----- the projection

  predicate AtOrBelowStore(m: Mount) { m.destination.Some? && STORE_PARTS <= Components(m.destination.value) }

  predicate GoodProjection(projection: Projection) {
    projection.Closure? ==> Distinct(projection.paths) && StorePathsOnly(projection.paths)
  }

  lemma BindIsBelow(path: string)
    requires ValidStorePath(path)
    ensures AtOrBelowStore(BindOf(path, path)) && Components(path) != STORE_PARTS
  {
    StorePathComponents(path);
  }

  lemma ProjectionIsBelow(store: string, root: Option<string>, projection: Projection)
    requires IsStore(store) && GoodProjection(projection)
    ensures var mounts := ProjectionMounts(store, root, projection);
      forall i :: 0 <= i < |mounts| ==> AtOrBelowStore(mounts[i])
  {
    if projection.Closure? {
      var binds := ClosureBinds(root, projection.paths);
      forall i | 0 <= i < |binds|
        ensures AtOrBelowStore(binds[i])
      {
        ClosureBindIs(root, projection.paths, binds[i]);
        BindIsBelow(binds[i].destination.value);
      }
    }
  }

  lemma ProjectionIsUnique(store: string, root: Option<string>, projection: Projection)
    requires IsStore(store) && GoodProjection(projection)
    ensures UniquePaths(ProjectionMounts(store, root, projection))
  {
    if projection.Closure? {
      var binds := ClosureBinds(root, projection.paths);
        ClosureBindsUnique(root, projection.paths);
      forall i | 0 <= i < |binds|
        ensures !SamePath(StoreTmpfs(store), binds[i])
      {
        ClosureBindIs(root, projection.paths, binds[i]);
        BindIsBelow(binds[i].destination.value);
      }
      UniqueAppend([StoreTmpfs(store)], binds);
    }
  }

  /** On success the workload's mounts are an unchanged prefix, the release's follow,
      and every one of them is clear of the store. */
  lemma OriginalMountsStayClear(store: string, field: Field, release: ResolvedRelease, projection: Projection)
    requires IsStore(store) && Projected(store, field, release, projection).Ok?
    ensures var r := Projected(store, field, release, projection).value; var n := |Existing(field)| + |release.mounts|;
      && n < |r|
      && r[..n] == Existing(field) + StoreBinds(release.mounts)
      && forall i :: 0 <= i < n ==> ClearOfStore(r[i])
  {
    var before := Existing(field) + StoreBinds(release.mounts);
    var added := ProjectionMounts(store, Some(release.rootfs), projection);
    PrefixOf(before, added);
    assert forall i :: 0 <= i < |before| ==> (before + added)[i] == before[i];
  }

  lemma PrefixOf<T>(a: seq<T>, b: seq<T>)
    ensures (a + b)[..|a|] == a && (a + b)[|a|..] == b
  {
  }

  /** If the workload mounted no destination string twice, then after projection no
      two mounts share a path, whatever the spelling. */
  lemma ProjectionKeepsPathsUnique(store: string, field: Field, release: ResolvedRelease, projection: Projection)
    requires IsStore(store) && Projected(store, field, release, projection).Ok?
    requires UniqueStrings(Existing(field)) && GoodProjection(projection)
    ensures UniquePaths(Projected(store, field, release, projection).value)
  {
    var before := Existing(field) + StoreBinds(release.mounts);
    var root := Some(release.rootfs);
    FreshIsUnique(Existing(field), release.mounts);
    ClearIsUnique(before);
    ProjectionIsBelow(store, root, projection);
    ProjectionIsUnique(store, root, projection);
    forall i, j | 0 <= i < |before| && 0 <= j < |ProjectionMounts(store, root, projection)|
      ensures !SamePath(before[i], ProjectionMounts(store, root, projection)[j])
    {
      assert ClearOfStore(before[i]) && AtOrBelowStore(ProjectionMounts(store, root, projection)[j]);
    }
    UniqueAppend(before, ProjectionMounts(store, root, projection));
  }

  lemma TmpfsIsNoBind(store: string, root: Option<string>, paths: seq<string>)
    ensures StoreTmpfs(store) !in ClosureBinds(root, paths)
  {
    ClosureBindIs(root, paths, StoreTmpfs(store));
  }

  lemma TmpfsIsNotClear(store: string, mounts: seq<Mount>)
    requires IsStore(store) && AllClear(mounts)
    ensures StoreTmpfs(store) !in mounts
  {
    assert Conflicts(store);
  }

  /** In closure mode one tmpfs over the store comes first, and after it exactly one
      read-only bind for each closure path except the rootfs. */
  lemma ClosureModeExactly(store: string, field: Field, release: ResolvedRelease, paths: seq<string>, m: Mount)
    requires IsStore(store) && Projected(store, field, release, Projection.Closure(paths)).Ok? && Distinct(paths)
    ensures var r := Projected(store, field, release, Projection.Closure(paths)).value;
      var n := |Existing(field)| + |release.mounts|;
      && n < |r| && r[n] == StoreTmpfs(store)
      && StoreTmpfs(store) !in r[..n] && StoreTmpfs(store) !in r[n + 1..]
      && multiset(r[n + 1..])[m] ==
           if m.destination.Some? && m == BindOf(m.destination.value, m.destination.value)
              && m.destination.value in paths && m.destination.value != release.rootfs then 1 else 0
  {
    var before := Existing(field) + StoreBinds(release.mounts);
    var binds := ClosureBinds(Some(release.rootfs), paths);
    var r := Projected(store, field, release, Projection.Closure(paths)).value;
    PrefixOf(before, [StoreTmpfs(store)] + binds);
    PrefixOf(before + [StoreTmpfs(store)], binds);
    Associates(before, [StoreTmpfs(store)], binds);
    ClosureBindsExactly(Some(release.rootfs), paths, m);
    TmpfsIsNoBind(store, Some(release.rootfs), paths);
    TmpfsIsNotClear(store, before);
  }
}
