/** Closure reports: what the daemon builds and what the client checks, in 64-bit arithmetic. */
module Reports {
  import opened Wrappers
  import opened Text
  import opened Sources
  import opened Releases
  import opened Order
  import opened ClosureQuery
  import opened MountProofs

  const U64_LIMIT: nat := 18446744073709551616

  type u64 = x: int | 0 <= x < 18446744073709551616

  function CheckedAdd(a: u64, b: u64): Option<u64> {
    if a + b < U64_LIMIT then Some(a + b) else None
  }

  datatype PathReport = PathReport(path: string, narBytes: u64, downloadBytes: u64, present: bool)

  datatype ClosureReport = ClosureReport(
    schema: string, release: string, closurePaths: seq<PathReport>, totalNarBytes: u64, missingDownloadBytes: u64)

  const SCHEMA: string := "imageless.closure-report.v1"

  /** The true sums, unbounded. */
  function NarSum(items: seq<PathReport>): nat {
    if items == [] then 0 else NarSum(items[..|items| - 1]) + items[|items| - 1].narBytes
  }

  function Missing(item: PathReport): nat { if item.present then 0 else item.downloadBytes }

  function MissingSum(items: seq<PathReport>): nat {
    if items == [] then 0 else MissingSum(items[..|items| - 1]) + Missing(items[|items| - 1])
  }

  predicate SumsFit(items: seq<PathReport>) { NarSum(items) < U64_LIMIT && MissingSum(items) < U64_LIMIT }

  predicate GoodPaths(items: seq<PathReport>) {
    && (forall i :: 0 <= i < |items| ==> ValidStorePath(items[i].path))
    && (forall i, j :: 0 <= i < j < |items| ==> items[i].path != items[j].path)
  }

  predicate GoodHeader(report: ClosureReport, expected: string) {
    report.schema == SCHEMA && report.release == expected && report.closurePaths != []
  }

  /** What the client accepts: every path checked and listed once, totals equal to the true sums. */
  predicate Acceptable(report: ClosureReport, expected: string) {
    && GoodHeader(report, expected)
    && GoodPaths(report.closurePaths)
    && report.totalNarBytes == NarSum(report.closurePaths)
    && report.missingDownloadBytes == MissingSum(report.closurePaths)
  }

  datatype Verdict = Accepted | BadHeader | BadPath | Duplicate | TotalOverflow | MissingOverflow | Inconsistent

  lemma {:induction false} SumsGrow(items: seq<PathReport>, k: nat)
    requires k <= |items|
    ensures NarSum(items[..k]) <= NarSum(items) && MissingSum(items[..k]) <= MissingSum(items)
    decreases |items|
  {
    if k == |items| {
      assert items[..k] == items;
    } else {
      SumsGrow(items[..|items| - 1], k);
      assert items[..|items| - 1][..k] == items[..k];
    }
  }

  lemma SumsStep(items: seq<PathReport>, k: nat)
    requires k < |items|
    ensures NarSum(items[..k + 1]) == NarSum(items[..k]) + items[k].narBytes
    ensures MissingSum(items[..k + 1]) == MissingSum(items[..k]) + Missing(items[k])
  {
    assert items[..k + 1][..k] == items[..k];
  }

  predicate Listed(items: seq<PathReport>, k: nat, path: string)
    requires k <= |items|
  {
    exists i :: 0 <= i < k && items[i].path == path
  }

  lemma GoodPathsStep(items: seq<PathReport>, k: nat)
    requires k < |items| && GoodPaths(items[..k])
    ensures GoodPaths(items[..k + 1]) <==> ValidStorePath(items[k].path) && !Listed(items, k, items[k].path)
    ensures GoodPaths(items) ==> GoodPaths(items[..k + 1])
  {
    var next := items[..k + 1];
    assert forall i :: 0 <= i < k ==> next[i] == items[..k][i];
    assert next[k] == items[k];
  }

  /** `validate_closure_report`. A checked addition overflows on the way exactly
      when the true sum does not fit. */
  method ValidateClosureReport(report: ClosureReport, expected: string) returns (verdict: Verdict)
    ensures verdict.Accepted? <==> Acceptable(report, expected)
    ensures verdict.BadHeader? <==> !GoodHeader(report, expected)
    ensures verdict.BadPath? || verdict.Duplicate? ==> !GoodPaths(report.closurePaths)
    ensures verdict.TotalOverflow? ==> NarSum(report.closurePaths) >= U64_LIMIT
    ensures verdict.MissingOverflow? ==> MissingSum(report.closurePaths) >= U64_LIMIT
    ensures GoodHeader(report, expected) && GoodPaths(report.closurePaths) ==>
      (verdict.TotalOverflow? || verdict.MissingOverflow? <==> !SumsFit(report.closurePaths))
  {
    if report.schema != SCHEMA || report.release != expected || report.closurePaths == [] {
      return BadHeader;
    }
    var items := report.closurePaths;
    var seen: set<string> := {};
    var total: u64 := 0;
    var missing: u64 := 0;
    for k := 0 to |items|
      invariant forall p :: p in seen <==> Listed(items, k, p)
      invariant GoodPaths(items[..k])
      invariant total == NarSum(items[..k]) && missing == MissingSum(items[..k])
    {
      var item := items[k];
      SumsStep(items, k);
      SumsGrow(items, k + 1);
      GoodPathsStep(items, k);
      if !ValidStorePath(item.path) {
        return BadPath;
      }
      if item.path in seen {
        return Duplicate;
      }
      seen := seen + {item.path};
      var sum := CheckedAdd(total, item.narBytes);
      if sum.None? {
        return TotalOverflow;
      }
      total := sum.value;
      if !item.present {
        sum := CheckedAdd(missing, item.downloadBytes);
        if sum.None? {
          return MissingOverflow;
        }
        missing := sum.value;
      }
    }
    assert items[..|items|] == items;
    return if total != report.totalNarBytes || missing != report.missingDownloadBytes then Inconsistent else Accepted;
  }

  // ----- building

  datatype PathInfo = PathInfo(path: string, narSize: u64, downloadSize: Option<u64>)

  function Paths(infos: seq<PathInfo>): (r: seq<string>)
    ensures |r| == |infos| && forall i :: 0 <= i < |r| ==> r[i] == infos[i].path
  {
    seq(|infos|, i requires 0 <= i < |infos| => infos[i].path)
  }

  /** The parsed description is an ordered map: its keys ascend and do not repeat. */
  predicate Ordered(infos: seq<PathInfo>) { Ascending(AllCodes(Paths(infos))) }

  function ItemOf(info: PathInfo, invalid: set<string>): PathReport {
    PathReport(info.path, info.narSize, if info.downloadSize.Some? then info.downloadSize.value else info.narSize,
               info.path !in invalid)
  }

  function Items(infos: seq<PathInfo>, invalid: set<string>): (r: seq<PathReport>)
    ensures |r| == |infos| && forall i :: 0 <= i < |r| ==> r[i] == ItemOf(infos[i], invalid)
  {
    seq(|infos|, i requires 0 <= i < |infos| => ItemOf(infos[i], invalid))
  }

  predicate Describes(infos: seq<PathInfo>, needed: seq<string>) {
    infos != [] && (forall i :: 0 <= i < |needed| ==> needed[i] in Paths(infos)) && StorePathsOnly(Paths(infos))
  }

  /** The lines the node printed name known paths, none twice. */
  predicate GoodStatus(lines: seq<string>, infos: seq<PathInfo>) {
    && (forall i :: 0 <= i < |lines| ==> Trim(lines[i]) == "" || Trim(lines[i]) in Paths(infos))
    && (forall i, j :: 0 <= i < j < |lines| && Trim(lines[i]) != "" ==> Trim(lines[i]) != Trim(lines[j]))
  }

  function Invalid(lines: seq<string>): set<string> {
    set i | 0 <= i < |lines| && Trim(lines[i]) != "" :: Trim(lines[i])
  }

  method CollectInvalid(lines: seq<string>, known: seq<string>) returns (r: Option<set<string>>)
    ensures r.Some? <==>
      && (forall i :: 0 <= i < |lines| ==> Trim(lines[i]) == "" || Trim(lines[i]) in known)
      && (forall i, j :: 0 <= i < j < |lines| && Trim(lines[i]) != "" ==> Trim(lines[i]) != Trim(lines[j]))
    ensures r.Some? ==> r.value == Invalid(lines)
  {
    var invalid: set<string> := {};
    for k := 0 to |lines|
      invariant forall i :: 0 <= i < k ==> Trim(lines[i]) == "" || Trim(lines[i]) in known
      invariant forall i, j :: 0 <= i < j < k && Trim(lines[i]) != "" ==> Trim(lines[i]) != Trim(lines[j])
      invariant invalid == set i | 0 <= i < k && Trim(lines[i]) != "" :: Trim(lines[i])
    {
      var path := Trim(lines[k]);
      if path != "" {
        if path !in known || path in invalid {
          return None;
        }
        invalid := invalid + {path};
      }
    }
    return Some(invalid);
  }

  function Built(identity: string, items: seq<PathReport>): ClosureReport
    requires SumsFit(items)
  {
    ClosureReport(SCHEMA, identity, items, NarSum(items), MissingSum(items))
  }

  method AddUp(infos: seq<PathInfo>, invalid: set<string>) returns (r: Option<(seq<PathReport>, u64, u64)>)
    ensures r.Some? <==> SumsFit(Items(infos, invalid))
    ensures var items := Items(infos, invalid);
      r.Some? ==> r.value == (items, NarSum(items), MissingSum(items))
  {
    ghost var items := Items(infos, invalid);
    var total: u64 := 0;
    var missing: u64 := 0;
    var paths: seq<PathReport> := [];
    for k := 0 to |infos|
      invariant paths == items[..k]
      invariant total == NarSum(items[..k]) && missing == MissingSum(items[..k])
    {
      var info := infos[k];
      SumsStep(items, k);
      SumsGrow(items, k + 1);
      var present := info.path !in invalid;
      var download := if info.downloadSize.Some? then info.downloadSize.value else info.narSize;
      var sum := CheckedAdd(total, info.narSize);
      if sum.None? {
        return None;
      }
      total := sum.value;
      if !present {
        sum := CheckedAdd(missing, download);
        if sum.None? {
          return None;
        }
        missing := sum.value;
      }
      paths := paths + [PathReport(info.path, info.narSize, download, present)];
    }
    assert items[..|infos|] == items;
    return Some((paths, total, missing));
  }

  /** `query_closure` from the parsed description on. `status` is what the node
      store printed; `fits` says whether the response fits a protocol frame. */
  method QueryClosure(selected: ResolvedRelease, infos: seq<PathInfo>, status: Result<seq<string>, ()>,
                      fits: ClosureReport -> bool)
    returns (r: Option<ClosureReport>)
    requires Ordered(infos)
    ensures r.Some? <==>
      && Describes(infos, StorePaths(selected))
      && status.Ok? && GoodStatus(status.value, infos)
      && SumsFit(Items(infos, Invalid(status.value)))
      && fits(Built(selected.identity, Items(infos, Invalid(status.value))))
    ensures r.Some? ==> r.value == Built(selected.identity, Items(infos, Invalid(status.value)))
  {
    var known := Paths(infos);
    if infos == [] || !(forall i :: 0 <= i < |StorePaths(selected)| ==> StorePaths(selected)[i] in known) {
      return None;
    }
    if !StorePathsOnly(known) {
      return None;
    }
    if status.Err? {
      return None;
    }
    var invalid := CollectInvalid(status.value, known);
    if invalid.None? {
      return None;
    }
    var sums := AddUp(infos, invalid.value);
    if sums.None? {
      return None;
    }
    var report := ClosureReport(SCHEMA, selected.identity, sums.value.0, sums.value.1, sums.value.2);
    if !fits(report) {
      return None;
    }
    return Some(report);
  }

  /** Every report the daemon builds, the client accepts for that release. */
  lemma BuiltIsAcceptable(identity: string, infos: seq<PathInfo>, invalid: set<string>)
    requires Ordered(infos) && infos != [] && StorePathsOnly(Paths(infos)) && SumsFit(Items(infos, invalid))
    ensures Acceptable(Built(identity, Items(infos, invalid)), identity)
  {
    AscendingIsDistinct(Paths(infos));
    var items := Items(infos, invalid);
    assert forall i :: 0 <= i < |items| ==> items[i].path == Paths(infos)[i];
  }

  lemma InvalidIsPrinted(lines: seq<string>, path: string)
    requires path != ""
    ensures path in Invalid(lines) <==> exists i :: 0 <= i < |lines| && Trim(lines[i]) == path
  {
  }

  /** What such a report says of each path: its sizes as the cache described them, the
      unpacked size standing in for an unknown download, and that it is present unless
      the node store printed it. */
  lemma ReportTells(identity: string, infos: seq<PathInfo>, lines: seq<string>, k: nat)
    requires StorePathsOnly(Paths(infos)) && SumsFit(Items(infos, Invalid(lines))) && k < |infos|
    ensures var report := Built(identity, Items(infos, Invalid(lines)));
      && report.schema == "imageless.closure-report.v1" && report.release == identity
      && |report.closurePaths| == |infos|
      && var item := report.closurePaths[k];
      && item.path == infos[k].path && item.narBytes == infos[k].narSize
      && (infos[k].downloadSize == Some(item.downloadBytes)
          || (infos[k].downloadSize.None? && item.downloadBytes == infos[k].narSize))
      && (item.present <==> forall i :: 0 <= i < |lines| ==> Trim(lines[i]) != item.path)
  {
    assert Paths(infos)[k] == infos[k].path && ValidStorePath(Paths(infos)[k]);
    InvalidIsPrinted(lines, infos[k].path);
  }

  function Absent(items: seq<PathReport>): (r: seq<PathReport>)
    ensures forall item :: item in r <==> item in items && !item.present
  {
    if items == [] then []
    else Absent(items[..|items| - 1]) + if items[|items| - 1].present then [] else [items[|items| - 1]]
  }

  function Downloads(items: seq<PathReport>): nat {
    if items == [] then 0 else Downloads(items[..|items| - 1]) + items[|items| - 1].downloadBytes
  }

  /** The missing bytes are what the absent paths would cost to download. */
  lemma {:induction false} MissingIsDownloads(items: seq<PathReport>)
    ensures MissingSum(items) == Downloads(Absent(items))
  {
    if items != [] {
      var init, last := items[..|items| - 1], items[|items| - 1];
      MissingIsDownloads(init);
      if !last.present {
        assert (Absent(init) + [last])[..|Absent(init)|] == Absent(init);
      } else {
        assert Absent(items) == Absent(init);
      }
    }
  }
}
