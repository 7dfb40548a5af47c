/**
 What the path checks are for: no mount of the workload or of a release touches the
 Nix store, and an in-image source stays inside its root file system. Said in terms
 of where a path leads, not of the checks.
 */
module Confinement {
  import opened Wrappers
  import opened Text
  import opened Paths
  import opened Sources
  import opened Releases
  import opened Mounts
  import opened MountProofs

  // ----- mounts

  lemma NormalizedIsPlain(path: string)
    requires Normalized(path) && path != "/"
    ensures Split(path, '/') == [""] + Components(path) && Plain(Components(path)) && Components(path) != []
  {
    NormalizedParts(path);
    forall i | 0 <= i < |Components(path)|
      ensures Components(path)[i] !in ["", ".", ".."]
    {
      assert Split(path, '/')[i + 1] == Components(path)[i];
    }
  }

  lemma PlainResolves(path: string, parts: seq<string>)
    requires Split(path, '/') == [""] + parts && Plain(parts) && parts != []
    ensures Resolved(path) == parts && path == Spelled(parts)
  {
    LeadingEmpty(parts);
    PlainWalk([], parts);
    JoinSplit(path, '/');
    assert ([""] + parts)[1..] == parts;
  }

  lemma NormalizedResolves(path: string)
    requires Normalized(path)
    ensures Resolved(path) == Components(path) && path == Spelled(Resolved(path))
  {
    if path == "/" {
      RootResolves(path);
      RootParts(path);
    } else {
      NormalizedIsPlain(path);
      PlainResolves(path, Components(path));
    }
  }

  lemma ResolvedIsPlain(path: string)
    ensures Plain(Resolved(path)) && Unsplit(Resolved(path), '/')
  {
    WalkIsPlain(Split(path, '/'), '/');
  }

  /** The check on destinations accepts exactly the absolute paths without NUL that are
      spelled the one way that leads where they lead: no detour, and no way up. */
  lemma NormalizedExactly(path: string)
    ensures Normalized(path) <==>
      path != "" && path[0] == '/' && NUL !in path && path == Spelled(Resolved(path))
  {
    if Normalized(path) {
      NormalizedResolves(path);
    }
    if path != "" && path[0] == '/' && NUL !in path && path == Spelled(Resolved(path)) {
      var place := Resolved(path);
      ResolvedIsPlain(path);
      if place != [] {
        SpelledLeadsThere(place);
        forall i | 1 <= i < |Split(path, '/')|
          ensures Split(path, '/')[i] !in ["", ".", ".."]
        {
          assert Split(path, '/')[i] == place[i - 1];
        }
      }
    }
  }

  /** Neither at the store, nor below it, nor above it. */
  predicate OutsideStore(place: seq<string>) {
    !(["nix", "store"] <= place) && !(place <= ["nix", "store"])
  }

  /** What a mount must be to stay: its destination leads outside the store, and is
      spelled as it leads. */
  predicate Stays(mount: Mount) {
    && mount.destination.Some?
    && var path := mount.destination.value;
    && path != "" && path[0] == '/' && NUL !in path
    && path == Spelled(Resolved(path)) && OutsideStore(Resolved(path))
  }

  lemma ClearExactly(mount: Mount)
    ensures ClearOfStore(mount) <==> Stays(mount)
  {
    if mount.destination.Some? {
      NormalizedExactly(mount.destination.value);
      if Normalized(mount.destination.value) {
        NormalizedResolves(mount.destination.value);
      }
    }
  }

  lemma SpelledNeverClimbs(path: string)
    requires path != "" && path[0] == '/' && path == Spelled(Resolved(path))
    ensures NeverClimbs(Split(path, '/')) && ".." !in Split(path, '/')
  {
    var place := Resolved(path);
    ResolvedIsPlain(path);
    if place == [] {
      RootResolves(path);
    } else {
      SpelledLeadsThere(place);
      assert forall k :: 0 <= k < |Split(path, '/')| ==> Split(path, '/')[k] == ([""] + place)[k];
    }
    ClimbingNeedsParent(Split(path, '/'));
  }

  /** The projection succeeds exactly when the mounts are an array in which, with the
      release's own, every destination leads outside the store and is spelled as it
      leads, and no release destination is taken. */
  lemma ProjectsExactly(store: string, field: Field, release: ResolvedRelease, projection: Projection)
    requires IsStore(store)
    ensures Projected(store, field, release, projection).Ok? <==>
      && !field.NotArray?
      && (forall i :: 0 <= i < |Existing(field)| ==> Stays(Existing(field)[i]))
      && (forall i :: 0 <= i < |release.mounts| ==>
            Stays(BindOf(release.mounts[i].source, release.mounts[i].destination)))
      && FreshDestinations(Existing(field), release.mounts)
  {
    var before, added := Existing(field), StoreBinds(release.mounts);
    AllClearAppend(before, added);
    forall i | 0 <= i < |before|
      ensures ClearOfStore(before[i]) <==> Stays(before[i])
    {
      ClearExactly(before[i]);
    }
    forall i | 0 <= i < |added|
      ensures ClearOfStore(added[i]) <==> Stays(BindOf(release.mounts[i].source, release.mounts[i].destination))
    {
      ClearExactly(added[i]);
    }
  }

  /** So after a projection no mount of the workload or of the release has a `..` in its
      destination, and none leads to the store, into it, or above it. */
  lemma ProjectedMountsKeepOut(store: string, field: Field, release: ResolvedRelease, projection: Projection, i: nat)
    requires IsStore(store) && Projected(store, field, release, projection).Ok?
    requires i < |Existing(field)| + |release.mounts|
    ensures var r := Projected(store, field, release, projection).value;
      && i < |r| && r[i].destination.Some?
      && var path := r[i].destination.value;
      && ".." !in Split(path, '/') && NeverClimbs(Split(path, '/')) && OutsideStore(Resolved(path))
  {
    OriginalMountsStayClear(store, field, release, projection);
    var mount := Projected(store, field, release, projection).value[i];
    ClearExactly(mount);
    SpelledNeverClimbs(mount.destination.value);
  }

  /** A bind mount nobody can write, run setuid programs from, or open devices on. */
  predicate Guarded(mount: Mount) {
    && mount.body.Written?
    && "nosuid" in mount.body.options && "nodev" in mount.body.options
    && (mount.body.kind == "bind" ==> "ro" in mount.body.options && "rbind" in mount.body.options)
    && mount.body.kind in ["bind", "tmpfs"]
  }

  lemma BindIsGuarded(source: string, destination: string)
    ensures Guarded(BindOf(source, destination)) && BindOf(source, destination).body.kind == "bind"
    ensures BindOf(source, destination).body.source == source
    ensures BindOf(source, destination).destination == Some(destination)
  {
    assert READ_ONLY[0] == "rbind" && READ_ONLY[1] == "ro" && READ_ONLY[2] == "nosuid" && READ_ONLY[3] == "nodev";
  }

  lemma TmpfsIsGuarded(store: string)
    ensures Guarded(StoreTmpfs(store)) && StoreTmpfs(store).body.kind == "tmpfs"
    ensures "mode=0755" in StoreTmpfs(store).body.options && StoreTmpfs(store).body.source == "tmpfs"
  {
    var options := StoreTmpfs(store).body.options;
    assert options[0] == "nosuid" && options[1] == "nodev" && options[2] == "mode=0755";
  }

  lemma ProjectionIsGuarded(store: string, root: Option<string>, projection: Projection, i: nat)
    requires i < |ProjectionMounts(store, root, projection)|
    ensures var mount := ProjectionMounts(store, root, projection)[i];
      && Guarded(mount) && mount.destination.Some?
      && (mount.body.kind == "bind" ==> mount.destination == Some(mount.body.source))
      && (mount.body.kind == "tmpfs" ==> projection.Closure? && mount.destination == Some(store))
  {
    TmpfsIsGuarded(store);
    match projection
    case Whole => BindIsGuarded(store, store);
    case Closure(paths) =>
      if i > 0 {
        var bind := ClosureBinds(root, paths)[i - 1];
        ClosureBindIs(root, paths, bind);
        BindIsGuarded(bind.destination.value, bind.destination.value);
      }
  }

  /** Everything a projection adds is guarded: the release's mounts are read-only binds
      of their sources at their destinations, and the store's own mounts are read-only
      binds of paths onto themselves, below at most one tmpfs over the store. */
  lemma AddedMountsAreGuarded(store: string, field: Field, release: ResolvedRelease, projection: Projection, i: nat)
    requires IsStore(store) && Projected(store, field, release, projection).Ok?
    requires |Existing(field)| <= i < |Projected(store, field, release, projection).value|
    ensures var mount := Projected(store, field, release, projection).value[i]; var k := i - |Existing(field)|;
      && Guarded(mount)
      && (if k < |release.mounts| then
            && mount.body.kind == "bind" && mount.body.source == release.mounts[k].source
            && mount.destination == Some(release.mounts[k].destination)
          else
            && (mount.body.kind == "bind" ==> mount.destination == Some(mount.body.source))
            && (mount.body.kind == "tmpfs" ==> projection.Closure? && mount.destination == Some(store)))
  {
    var k := i - |Existing(field)|;
    var root := Some(release.rootfs);
    if k < |release.mounts| {
      BindIsGuarded(release.mounts[k].source, release.mounts[k].destination);
    } else {
      ProjectionIsGuarded(store, root, projection, k - |release.mounts|);
    }
  }

  /** A release destination or working directory that the manifest admits never climbs,
      whatever the directory it is followed from. */
  lemma AdmittedNeverClimbs(path: string)
    requires ValidDestination(path)
    ensures NeverClimbs(Split(path, '/'))
  {
    ClimbingNeedsParent(Split(path, '/'));
  }

  // ----- in-image sources

  lemma CanonicalIsPlain(relative: string)
    requires relative != "" && CanonicalRelative(relative)
    ensures Plain(Split(relative, '/')) && Walk([], Split(relative, '/')) == Split(relative, '/')
  {
    PlainWalk([], Split(relative, '/'));
  }

  lemma PlaceIsCanonical(relative: string, place: seq<string>)
    requires place != [] && relative == Join(place, '/') && Plain(place) && Unsplit(place, '/')
    ensures CanonicalRelative(relative)
  {
    SplitJoin(place, '/');
  }

  /** An in-image path is canonical exactly when it is empty or spells the place where
      it leads. */
  lemma CanonicalExactly(relative: string)
    ensures CanonicalRelative(relative) <==>
      relative == "" || (var place := Walk([], Split(relative, '/')); place != [] && relative == Join(place, '/'))
  {
    var parts := Split(relative, '/');
    var place := Walk([], parts);
    if relative != "" && CanonicalRelative(relative) {
      CanonicalIsPlain(relative);
      JoinSplit(relative, '/');
    }
    if place != [] && relative == Join(place, '/') {
      WalkIsPlain(parts, '/');
      PlaceIsCanonical(relative, place);
    }
  }

  lemma BelowBase(base: string, relative: string)
    ensures Resolved(base + "/" + relative) == Walk(Resolved(base), Split(relative, '/'))
  {
    SplitConcat(base, '/', relative);
    WalkAppend([], Split(base, '/'), Split(relative, '/'));
  }

  lemma TrailingSlash(base: string)
    ensures Resolved(base + "/") == Resolved(base)
  {
    BelowBase(base, "");
    SplitNone("", '/');
    assert base + "/" + "" == base + "/";
    WalkSnoc(Resolved(base), [], "");
    assert [""] == [] + [""];
  }

  lemma JoinedResolves(base: string, relative: string)
    requires relative == "" || relative[0] != '/'
    ensures Resolved(JoinPath(base, relative)) == Walk(Resolved(base), Split(relative, '/'))
  {
    if base == "" {
      SplitNone(base, '/');
      LeadingEmpty([]);
      assert [""] + [] == [""] && base + relative == relative;
    } else if base[|base| - 1] == '/' {
      var init := base[..|base| - 1];
      assert base == init + "/";
      TrailingSlash(init);
      BelowBase(init, relative);
    } else {
      BelowBase(base, relative);
    }
  }

  lemma PlainHead(relative: string)
    requires relative != "" && Plain(Split(relative, '/'))
    ensures relative[0] != '/'
  {
    assert Split(relative, '/')[0] != "";
    if relative[0] == '/' {
      LeadingSlash(relative);
    }
  }

  /** What is planned from an in-image source leads to the components of the source,
      below the root file system it is joined to, on a way that never climbs. */
  lemma InImageStaysBelow(source: string, rootfs: string)
    requires ValidSource(source) && source[0] == '/'
    ensures SourceUri(source, rootfs) == "path:" + JoinPath(rootfs, source[1..])
    ensures AtOrBelow(JoinPath(rootfs, source[1..]), Resolved(rootfs))
    ensures source != "/" ==>
      Resolved(JoinPath(rootfs, source[1..])) == Resolved(rootfs) + Split(source[1..], '/')
    ensures NeverClimbs(Split(source[1..], '/'))
  {
    var relative := source[1..];
    var parts := Split(relative, '/');
    if relative == "" {
      SplitNone(relative, '/');
      WalkSnoc(Resolved(rootfs), [], "");
      assert [""] == [] + [""];
    } else {
      CanonicalIsPlain(relative);
      PlainHead(relative);
      PlainWalk(Resolved(rootfs), parts);
    }
    JoinedResolves(rootfs, relative);
    ClimbingNeedsParent(parts);
  }
}
