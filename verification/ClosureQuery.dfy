/** Reading a closure from `nix-store --query --requisites`: checked, sorted and without repeats. */
module ClosureQuery {
  import opened Wrappers
  import opened Text
  import opened Sources
  import opened Order
  import opened MountProofs

  function Codes(s: string): (r: Key)
    ensures |r| == |s| && forall i :: 0 <= i < |r| ==> r[i] == s[i] as int
  {
    seq(|s|, i requires 0 <= i < |s| => s[i] as int)
  }

  lemma CodesInjective(a: string, b: string)
    requires Codes(a) == Codes(b)
    ensures a == b
  {
    assert |a| == |b|;
    forall i | 0 <= i < |a|
      ensures a[i] == b[i]
    {
      assert Codes(a)[i] == Codes(b)[i];
    }
  }

  /** Store paths are ASCII, so comparing characters is comparing bytes. */
  predicate Le(a: string, b: string) { LexLe(Codes(a), Codes(b)) }

  function AllCodes(paths: seq<string>): (r: seq<Key>)
    ensures |r| == |paths| && forall i :: 0 <= i < |r| ==> r[i] == Codes(paths[i])
  {
    seq(|paths|, i requires 0 <= i < |paths| => Codes(paths[i]))
  }

  predicate Sorted(paths: seq<string>) { forall i :: 0 <= i < |paths| - 1 ==> Le(paths[i], paths[i + 1]) }

  /** `paths.sort()`. */
  function Sort(paths: seq<string>): (r: seq<string>)
    ensures multiset(r) == multiset(paths)
  {
    SortBy(paths, Codes)
  }

  lemma SortSorts(paths: seq<string>)
    ensures Sorted(Sort(paths))
  {
    SortOrders(paths, Codes);
    var sorted := Sort(paths);
    forall i | 0 <= i < |sorted| - 1
      ensures Le(sorted[i], sorted[i + 1])
    {
      assert LexLe(Codes(sorted[i]), Codes(sorted[i + 1]));
    }
  }

  lemma SortMembers(paths: seq<string>, p: string)
    ensures p in Sort(paths) <==> p in paths
  {
    assert p in Sort(paths) <==> p in multiset(Sort(paths));
    assert p in paths <==> p in multiset(paths);
  }

  lemma AscendingSnoc(paths: seq<string>, x: string)
    requires Ascending(AllCodes(paths)) && (paths != [] ==> Le(paths[|paths| - 1], x) && paths[|paths| - 1] != x)
    ensures Ascending(AllCodes(paths + [x]))
  {
    var keys := AllCodes(paths + [x]);
    forall i | 0 <= i < |keys| - 1
      ensures LexLt(keys[i], keys[i + 1])
    {
      if i < |paths| - 1 {
        assert LexLt(AllCodes(paths)[i], AllCodes(paths)[i + 1]);
      } else if Codes(paths[i]) == Codes(x) {
        CodesInjective(paths[i], x);
      }
    }
  }

  /** `paths.dedup()` on a sorted vector. */
  method Dedup(sorted: seq<string>) returns (r: seq<string>)
    requires Sorted(sorted)
    ensures Ascending(AllCodes(r))
    ensures forall p :: p in r <==> p in sorted
  {
    r := [];
    for k := 0 to |sorted|
      invariant Ascending(AllCodes(r))
      invariant forall p :: p in r <==> p in sorted[..k]
      invariant k == 0 ==> r == []
      invariant k > 0 ==> r != [] && r[|r| - 1] == sorted[k - 1]
    {
      assert sorted[..k + 1] == sorted[..k] + [sorted[k]];
      assert k > 0 ==> Le(sorted[k - 1], sorted[k - 1 + 1]);
      if k == 0 || sorted[k] != r[|r| - 1] {
        AscendingSnoc(r, sorted[k]);
        r := r + [sorted[k]];
      }
    }
    assert sorted[..|sorted|] == sorted;
  }

  // ----- lines

  /** The trimmed, nonempty lines. Carriage returns are trimmed like any whitespace. */
  predicate IsRequisite(output: string, p: string) {
    p != "" && exists i :: 0 <= i < |Split(output, '\n')| && Trim(Split(output, '\n')[i]) == p
  }

  predicate Acceptable(line: string) { Trim(line) == "" || ValidStorePath(Trim(line)) }

  predicate AllAcceptable(lines: seq<string>) { forall i :: 0 <= i < |lines| ==> Acceptable(lines[i]) }

  method CollectLines(lines: seq<string>) returns (r: Result<seq<string>, ()>)
    ensures r.Ok? <==> AllAcceptable(lines)
    ensures r.Ok? ==> forall p :: p in r.value <==> p != "" && exists i :: 0 <= i < |lines| && Trim(lines[i]) == p
  {
    var paths := [];
    for k := 0 to |lines|
      invariant forall i :: 0 <= i < k ==> Acceptable(lines[i])
      invariant forall p :: p in paths <==> p != "" && exists i :: 0 <= i < k && Trim(lines[i]) == p
    {
      var path := Trim(lines[k]);
      if path != "" {
        if !ValidStorePath(path) {
          return Err(());
        }
        paths := paths + [path];
      }
    }
    return Ok(paths);
  }

  /** `enumerate_closure`, given what the query printed. The result is the one
      ascending sequence of the printed paths, fit for a projection; one bad line
      refuses everything. */
  method EnumerateClosure(seeds: seq<string>, output: Result<string, ()>) returns (r: Result<seq<string>, ()>)
    ensures seeds == [] ==> r == Ok([])
    ensures seeds != [] ==> (r.Ok? <==> output.Ok? && AllAcceptable(Split(output.value, '\n')))
    ensures r.Ok? ==> Ascending(AllCodes(r.value)) && Distinct(r.value) && StorePathsOnly(r.value)
    ensures seeds != [] && r.Ok? ==> forall p :: p in r.value <==> IsRequisite(output.value, p)
  {
    if seeds == [] {
      return Ok([]);
    }
    if output.Err? {
      return Err(());
    }
    var lines := Split(output.value, '\n');
    var collected := CollectLines(lines);
    if collected.Err? {
      return Err(());
    }
    SortSorts(collected.value);
    var unique := Dedup(Sort(collected.value));
    forall p
      ensures p in unique <==> IsRequisite(output.value, p)
    {
      SortMembers(collected.value, p);
    }
    AscendingIsDistinct(unique);
    RequisitesAreStorePaths(lines, unique);
    return Ok(unique);
  }

  lemma AscendingIsDistinct(paths: seq<string>)
    requires Ascending(AllCodes(paths))
    ensures Distinct(paths)
  {
    forall i, j | 0 <= i < j < |paths|
      ensures paths[i] != paths[j]
    {
      AscendingPairs(AllCodes(paths), i, j);
    }
  }

  lemma RequisitesAreStorePaths(lines: seq<string>, paths: seq<string>)
    requires AllAcceptable(lines)
    requires forall p :: p in paths ==> p != "" && exists i :: 0 <= i < |lines| && Trim(lines[i]) == p
    ensures StorePathsOnly(paths)
  {
    forall k | 0 <= k < |paths|
      ensures ValidStorePath(paths[k])
    {
      assert paths[k] in paths;
      var i :| 0 <= i < |lines| && Trim(lines[i]) == paths[k];
      assert Acceptable(lines[i]);
    }
  }

  /** Nothing about the order or the repetition of the printed lines survives. */
  lemma ClosureIsASet(a: seq<string>, b: seq<string>)
    requires Ascending(AllCodes(a)) && Ascending(AllCodes(b))
    requires forall p :: p in a <==> p in b
    ensures a == b
  {
    forall k
      ensures k in AllCodes(a) <==> k in AllCodes(b)
    {
      CodeMembers(a, b, k);
      CodeMembers(b, a, k);
    }
    AscendingUnique(AllCodes(a), AllCodes(b));
    forall i | 0 <= i < |a|
      ensures |a| == |b| && a[i] == b[i]
    {
      assert AllCodes(a)[i] == AllCodes(b)[i];
      CodesInjective(a[i], b[i]);
    }
    assert |a| == |b|;
  }

  lemma CodeMembers(a: seq<string>, b: seq<string>, k: Key)
    requires forall p :: p in a ==> p in b
    ensures k in AllCodes(a) ==> k in AllCodes(b)
  {
    if k in AllCodes(a) {
      var i :| 0 <= i < |a| && AllCodes(a)[i] == k;
      assert a[i] in b;
      var j :| 0 <= j < |b| && b[j] == a[i];
      assert AllCodes(b)[j] == k;
    }
  }
}
