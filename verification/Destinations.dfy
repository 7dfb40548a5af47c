/**
 Two validators of mount destinations: the manifest's, when a release is read, and
 the projection's, when a container is created. The second is stricter.
 */
module Destinations {
  import opened Wrappers
  import opened Text
  import opened Releases
  import opened Mounts
  import opened MountProofs
  import opened Paths

  /** The one normalized spelling of the path that `path` names. */
  function Canonical(path: string): string {
    if Components(path) == [] then "/" else "" + ['/'] + Join(Components(path), '/')
  }

  lemma {:induction false} SignificantMember(parts: seq<string>, p: string)
    ensures p in Significant(parts) <==> p in parts && p != "" && p != "."
  {
    if parts != [] {
      SignificantMember(parts[1..], p);
      SignificantCons(parts[0], parts[1..]);
      assert parts == [parts[0]] + parts[1..];
    }
  }

  lemma ComponentsAreWhole(path: string)
    ensures Unsplit(Components(path), '/') && Ordinary(Components(path))
    ensures ".." !in Split(path, '/') ==> ".." !in Components(path)
  {
    var parts := Split(path, '/');
    SignificantMember(parts, "..");
    forall i | 0 <= i < |Components(path)|
      ensures '/' !in Components(path)[i] && Components(path)[i] !in ["", "."]
    {
      SignificantMember(parts, Components(path)[i]);
      var j :| 0 <= j < |parts| && parts[j] == Components(path)[i];
    }
  }

  lemma NormalizedIsSpelledCanonically(path: string)
    requires Normalized(path)
    ensures path == Canonical(path)
  {
    if path == "/" {
      RootParts(path);
    } else {
      NormalizedParts(path);
      JoinSplit(path, '/');
      assert ([""] + Components(path))[1..] == Components(path);
    }
  }

  lemma CanonicalIsNormalized(path: string)
    requires path == Canonical(path) && Components(path) != [] && NUL !in path && ".." !in Split(path, '/')
    ensures Normalized(path)
  {
    var components := Components(path);
    ComponentsAreWhole(path);
    SplitJoin(components, '/');
    SplitFirst("", '/', Join(components, '/'));
    assert components[|components| - 1] !in ["", "."];
    JoinEnds(components, '/');
    assert path[|path| - 1] == Join(components, '/')[|Join(components, '/')| - 1];
    forall i | 1 <= i < |Split(path, '/')|
      ensures Split(path, '/')[i] !in ["", ".", ".."]
    {
      assert Split(path, '/')[i] == components[i - 1];
    }
  }

  lemma AdmittedIsNormalized(path: string)
    requires ValidDestination(path)
    ensures Normalized(path) <==> path == Canonical(path)
  {
    if Normalized(path) {
      NormalizedIsSpelledCanonically(path);
    }
    if path == Canonical(path) && Components(path) != [] {
      CanonicalIsNormalized(path);
    }
  }

  /** The projection takes a destination that the manifest admitted exactly when it
      is spelled canonically and is neither at, above nor below the store. */
  lemma AdmittedDestinationProjects(source: string, path: string)
    requires ValidDestination(path)
    ensures ClearOfStore(BindOf(source, path)) <==> path == Canonical(path) && !Conflicts(path)
  {
    AdmittedIsNormalized(path);
  }

  predicate Projectable(before: seq<Mount>, path: string) {
    path == Canonical(path) && !Conflicts(path) && !Mounted(before, path)
  }

  /** When a valid release can be created in a bundle: exactly when the workload's own
      mounts are clear, and each release destination is spelled canonically, stays
      clear of the store and is not taken by the workload. */
  lemma ReleaseProjectsExactly(store: string, field: Field, release: ResolvedRelease, projection: Projection)
    requires IsStore(store) && ValidMounts(release.mounts)
    ensures Projected(store, field, release, projection).Ok? <==>
      && !field.NotArray? && AllClear(Existing(field))
      && forall i :: 0 <= i < |release.mounts| ==> Projectable(Existing(field), release.mounts[i].destination)
  {
    var before, added := Existing(field), StoreBinds(release.mounts);
    AllClearAppend(before, added);
    forall i | 0 <= i < |release.mounts|
      ensures var d := release.mounts[i].destination;
        ClearOfStore(added[i]) <==> d == Canonical(d) && !Conflicts(d)
    {
      AdmittedDestinationProjects(release.mounts[i].source, release.mounts[i].destination);
    }
    assert AllClear(added) <==> forall i :: 0 <= i < |added| ==> ClearOfStore(added[i]);
  }

  /** So a release can be valid and yet impossible to create: the manifest admits a
      destination with an empty component, and the projection refuses it ... */
  lemma AdmittedButMisspelled(source: string, path: string)
    requires path == "//a"
    ensures ValidDestination(path) && !ClearOfStore(BindOf(source, path))
  {
    LeadingSlash(path);
    LeadingSlash(path[1..]);
    SplitNone(path[1..][1..], '/');
    assert path[1..][1..] == "a";
    assert Split(path, '/')[1] == "";
    ByteLenAscii(path);
  }

  lemma TwoPartsAreCanonical(path: string, a: string, b: string)
    requires path == "" + ['/'] + (a + ['/'] + b)
    requires '/' !in a && '/' !in b && a !in ["", ".", ".."] && b !in ["", ".", ".."]
    ensures Split(path, '/') == ["", a, b] && Components(path) == [a, b]
    ensures path == Canonical(path)
  {
    ComponentsOfTwo(a, b);
    TwoParts(a, b);
    SplitFirst("", '/', a + ['/'] + b);
    JoinOfTwo(a, b);
  }

  lemma JoinOfTwo(a: string, b: string)
    ensures Join([a, b], '/') == a + ['/'] + b
  {
    assert [a, b][1..] == [b];
  }

  /** ... and it admits the store itself, which is spelled canonically ... */
  lemma AdmittedButTheStore(source: string, path: string, a: string, b: string)
    requires path == "" + ['/'] + (a + ['/'] + b) && [a, b] == STORE_PARTS
    ensures ValidDestination(path) && path == Canonical(path) && !ClearOfStore(BindOf(source, path))
  {
    TwoPartsAreCanonical(path, a, b);
    ByteLenAscii(path);
    assert ".." !in ["", a, b];
  }

  /** ... and the root above it. */
  lemma AdmittedButTheRoot(source: string, path: string)
    requires path == "/"
    ensures ValidDestination(path) && path == Canonical(path) && !ClearOfStore(BindOf(source, path))
  {
    RootParts(path);
    LeadingSlash(path);
    assert path[1..] == "";
    SplitNone(path[1..], '/');
    ByteLenAscii(path);
  }
}
