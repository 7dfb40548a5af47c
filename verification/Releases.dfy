/**
 Release references, manifests, node policy and the per-caller selection that
 precedes every shared materialization.

 JSON and SHA-256 stay abstract: a `Node` carries a digest, a decoder and a
 canonical encoder as functions. The one assumption about them is that no two of
 the finitely many byte strings its catalogs serve share a digest; the theorems
 that need it say so with `NoCollisions`.
 */
module Releases {
  import opened Wrappers
  import opened Text
  import opened Sources

  type Bytes = seq<int>

  // ----- references

  datatype ReleaseReference = ReleaseReference(issuer: string, name: string, sha256: string)

  predicate IsIdentifierChar(c: char) { IsLower(c) || IsDigit(c) || c == '-' }

  predicate ValidIdentifier(value: string) {
    && value != ""
    && ByteLen(value) <= 63
    && value[0] != '-'
    && value[|value| - 1] != '-'
    && forall i :: 0 <= i < |value| ==> IsIdentifierChar(value[i])
  }

  predicate ValidReleaseName(value: string) {
    && value != ""
    && ByteLen(value) <= 128
    && value[0] !in "-./"
    && value[|value| - 1] !in "-./"
    && forall i :: 0 <= i < |Split(value, '/')| ==> ValidIdentifier(Split(value, '/')[i])
  }

  predicate ValidDigest(value: string) {
    ByteLen(value) == 64 && forall i :: 0 <= i < |value| ==> IsLowerHex(value[i])
  }

  function Repeated(c: char): (s: string)
    requires IsLowerHex(c)
    ensures ValidDigest(s) && s[0] == c
  {
    var s := seq(64, _ => c);
    ByteLenAscii(s);
    s
  }

  /** What SHA-256 in lower-case hexadecimal looks like. */
  type Digest = s: string | ValidDigest(s) witness Repeated('0')

  const DIGEST_MARK := "@sha256:"

  /** `parse_contract`. */
  function ParseReference(value: string): Option<ReleaseReference> {
    if value == "" || ByteLen(value) > 512 || !NoControl(value) then None
    else
      match RSplitOnce(value, DIGEST_MARK)
      case None => None
      case Some((identity, digest)) =>
        match SplitOnce(identity, '/')
        case None => None
        case Some((issuer, name)) =>
          if !ValidIdentifier(issuer) || !ValidReleaseName(name) || !ValidDigest(digest) then None
          else Some(ReleaseReference(issuer, name, digest))
  }

  /** `ReleaseReference::identity`. */
  function Identity(r: ReleaseReference): string {
    r.issuer + "/" + r.name + DIGEST_MARK + r.sha256
  }

  predicate ValidReference(r: ReleaseReference) {
    ValidIdentifier(r.issuer) && ValidReleaseName(r.name) && ValidDigest(r.sha256)
  }

  /** Parse then print is the identity on accepted strings. */
  lemma PrintParsed(value: string)
    requires ParseReference(value).Some?
    ensures Identity(ParseReference(value).value) == value
    ensures ValidReference(ParseReference(value).value)
  {
    var (identity, digest) := RSplitOnce(value, DIGEST_MARK).value;
    var (issuer, name) := SplitOnce(identity, '/').value;
    assert issuer + "/" + name == identity;
  }

  lemma ReleaseNameChars(value: string)
    requires ValidReleaseName(value)
    ensures IsAscii(value) && NoControl(value)
  {
    forall i | 0 <= i < |value|
      ensures value[i] == '/' || IsIdentifierChar(value[i])
    {
      if value[i] != '/' {
        SplitChars(value, '/', value[i]);
      }
    }
  }

  lemma ReferenceChars(r: ReleaseReference)
    requires ValidReference(r)
    ensures IsAscii(Identity(r)) && NoControl(Identity(r))
    ensures |Identity(r)| == |r.issuer| + |r.name| + 73
    ensures ByteLen(Identity(r)) == |Identity(r)| <= 264
  {
    ReleaseNameChars(r.name);
    ByteLenAscii(r.issuer);
    ByteLenAscii(r.name);
    ByteLenAscii(r.sha256);
    assert IsAscii(DIGEST_MARK) && IsAscii("/");
    ByteLenAscii(Identity(r));
  }

  /** Print then parse is the identity on valid references, and a valid
      reference always fits the parser's limit. */
  lemma ParsePrinted(r: ReleaseReference)
    requires ValidReference(r)
    ensures ParseReference(Identity(r)) == Some(r)
    ensures ByteLen(Identity(r)) <= 264
  {
    ReferenceChars(r);
    var identity := r.issuer + "/" + r.name;
    RSplitOnceAt(identity, DIGEST_MARK, r.sha256);
    SplitOnceAt(r.issuer, '/', r.name);
  }

  // ----- materialization keys

  datatype Materialize = Closure(path: string) | Flake(installable: string) | Release(reference: ReleaseReference)

  /** `Materialize::key`. */
  function Key(m: Materialize): string {
    match m
    case Closure(path) => "closure:" + path
    case Flake(installable) => "flake:" + installable
    case Release(reference) => "release:" + Identity(reference)
  }

  predicate KeyIsFaithful(m: Materialize) {
    m.Release? ==> ValidReference(m.reference)
  }

  /** Distinct admitted requests never share a flight. */
  lemma KeyInjective(a: Materialize, b: Materialize)
    requires KeyIsFaithful(a) && KeyIsFaithful(b) && Key(a) == Key(b)
    ensures a == b
  {
    assert Key(a)[0] == Key(b)[0];
    match a
    case Closure(path) =>
      assert path == Key(a)[|"closure:"|..];
    case Flake(installable) =>
      assert installable == Key(a)[|"flake:"|..];
    case Release(reference) =>
      assert Identity(reference) == Key(a)[|"release:"|..];
      assert b.Release? ==> Identity(b.reference) == Key(b)[|"release:"|..];
      ParsePrinted(reference);
      ParsePrinted(b.reference);
  }

  /** Without validation the printed identity is ambiguous, so the key alone
      would not be enough. */
  lemma UnvalidatedKeysCollide()
    ensures exists a, b: ReleaseReference :: a != b && Key(Release(a)) == Key(Release(b))
  {
    var a := ReleaseReference("a/b", "c", "");
    var b := ReleaseReference("a", "b/c", "");
    assert Identity(a) == "a/b/c" + DIGEST_MARK;
    assert Identity(b) == "a/b/c" + DIGEST_MARK;
    assert Key(Release(a)) == Key(Release(b));
  }

  // ----- manifests

  datatype Selectors = Selectors(containers: seq<string>, skipContainers: seq<string>)

  datatype EnvironmentEntry = EnvironmentEntry(name: string, value: string, allowWorkloadOverride: bool)

  datatype ProcessMetadata = ProcessMetadata(
    entrypoint: Option<seq<string>>,
    defaultArgs: Option<seq<string>>,
    workingDirectory: Option<string>,
    environment: seq<EnvironmentEntry>)

  datatype StoreMount = StoreMount(source: string, destination: string)

  datatype ReleaseTarget = ReleaseTarget(
    rootfs: string, cache: string, process: Option<ProcessMetadata>, mounts: seq<StoreMount>)

  datatype Evidence = Evidence(uri: string, sha256: string)

  datatype Manifest = Manifest(
    schema: string,
    issuer: string,
    name: string,
    selectors: Selectors,
    targets: map<string, ReleaseTarget>,
    evidence: seq<Evidence>)          // `sbom` and `provenance`, those present

  datatype ResolvedRelease = ResolvedRelease(
    identity: string, rootfs: string, process: Option<ProcessMetadata>, mounts: seq<StoreMount>)

  function MountSources(mounts: seq<StoreMount>): (r: seq<string>)
    ensures |r| == |mounts| && forall i :: 0 <= i < |r| ==> r[i] == mounts[i].source
  {
    seq(|mounts|, i requires 0 <= i < |mounts| => mounts[i].source)
  }

  /** `ResolvedRelease::store_paths`: the rootfs, then every mount source. */
  function StorePaths(r: ResolvedRelease): (paths: seq<string>)
    ensures |paths| == 1 + |r.mounts|
  {
    [r.rootfs] + MountSources(r.mounts)
  }

  /** `Selectors::permits`. */
  predicate Permits(s: Selectors, name: Option<string>) {
    if name.Some? && name.value in s.skipContainers then false
    else s.containers == [] || (name.Some? && name.value in s.containers)
  }

  const NUL: char := 0 as char

  /** `validate_destination`: absolute, bounded, without parent components. */
  predicate ValidDestination(value: string) {
    && value != "" && value[0] == '/'
    && ByteLen(value) <= 4096
    && NUL !in value
    && ".." !in Split(value, '/')
  }

  predicate ValidEntry(entry: EnvironmentEntry) {
    entry.name != "" && '=' !in entry.name && NUL !in entry.name && NUL !in entry.value
  }

  predicate DistinctNames(entries: seq<EnvironmentEntry>) {
    forall i, j :: 0 <= i < j < |entries| ==> entries[i].name != entries[j].name
  }

  predicate ValidEnvironment(entries: seq<EnvironmentEntry>) {
    DistinctNames(entries) && forall i :: 0 <= i < |entries| ==> ValidEntry(entries[i])
  }

  predicate ValidArguments(values: seq<string>) {
    forall i :: 0 <= i < |values| ==> values[i] != "" && NUL !in values[i]
  }

  predicate ValidProcess(process: ProcessMetadata) {
    && process.entrypoint != Some([])
    && (process.entrypoint.Some? ==> ValidArguments(process.entrypoint.value))
    && (process.defaultArgs.Some? ==> ValidArguments(process.defaultArgs.value))
    && (process.workingDirectory.Some? ==> ValidDestination(process.workingDirectory.value))
    && ValidEnvironment(process.environment)
  }

  predicate ValidMounts(mounts: seq<StoreMount>) {
    && (forall i :: 0 <= i < |mounts| ==> ValidStorePath(mounts[i].source) && ValidDestination(mounts[i].destination))
    && (forall i, j :: 0 <= i < j < |mounts| ==> mounts[i].destination != mounts[j].destination)
  }

  predicate ValidSystem(system: string) {
    system != "" && ByteLen(system) <= 128 && NoWhitespace(system) && NoControl(system)
  }

  predicate ValidTarget(target: ReleaseTarget) {
    && ValidStorePath(target.rootfs)
    && ValidIdentifier(target.cache)
    && (target.process.Some? ==> ValidProcess(target.process.value))
    && ValidMounts(target.mounts)
  }

  predicate ValidEvidence(e: Evidence) {
    e.uri != "" && ByteLen(e.uri) <= 4096 && NoControl(e.uri) && ValidDigest(e.sha256)
  }

  predicate ValidSelectors(s: Selectors) {
    && (forall i :: 0 <= i < |s.containers| ==> ValidIdentifier(s.containers[i]))
    && (forall i :: 0 <= i < |s.skipContainers| ==> ValidIdentifier(s.skipContainers[i]))
  }

  const RELEASE_SCHEMA := "imageless.release.v1"
  const MAX_MANIFEST_BYTES: nat := 65536

  predicate ManifestIdentifies(m: Manifest, reference: ReleaseReference) {
    && m.schema == RELEASE_SCHEMA
    && ValidIdentifier(m.issuer)
    && ValidReleaseName(m.name)
    && m.targets != map[]
    && m.issuer == reference.issuer
    && m.name == reference.name
  }

  predicate ManifestIsWellFormed(m: Manifest) {
    && ValidSelectors(m.selectors)
    && (forall system :: system in m.targets ==> ValidSystem(system) && ValidTarget(m.targets[system]))
    && (forall i :: 0 <= i < |m.evidence| ==> ValidEvidence(m.evidence[i]))
  }

  datatype ContractErrorKind = InvalidManifest | DigestMismatch | IdentityMismatch | ManifestTooLarge

  method ValidateProcess(process: ProcessMetadata) returns (ok: bool)
    ensures ok <==> ValidProcess(process)
  {
    if process.entrypoint == Some([]) {
      return false;
    }
    if process.entrypoint.Some? && !ValidArguments(process.entrypoint.value) {
      return false;
    }
    if process.defaultArgs.Some? && !ValidArguments(process.defaultArgs.value) {
      return false;
    }
    if process.workingDirectory.Some? && !ValidDestination(process.workingDirectory.value) {
      return false;
    }
    var names: set<string> := {};
    var entries := process.environment;
    for k := 0 to |entries|
      invariant ValidEnvironment(entries[..k])
      invariant forall n :: n in names <==> exists i :: 0 <= i < k && entries[i].name == n
    {
      var entry := entries[k];
      if !ValidEntry(entry) || entry.name in names {
        assert entries[k] == entry;
        return false;
      }
      names := names + {entry.name};
      assert entries[..k + 1] == entries[..k] + [entry];
    }
    assert entries[..|entries|] == entries;
    return true;
  }

  method ValidateMounts(mounts: seq<StoreMount>) returns (ok: bool)
    ensures ok <==> ValidMounts(mounts)
  {
    var destinations: set<string> := {};
    for k := 0 to |mounts|
      invariant ValidMounts(mounts[..k])
      invariant forall d :: d in destinations <==> exists i :: 0 <= i < k && mounts[i].destination == d
    {
      var mount := mounts[k];
      if !ValidStorePath(mount.source) || !ValidDestination(mount.destination) || mount.destination in destinations {
        assert mounts[k] == mount;
        return false;
      }
      destinations := destinations + {mount.destination};
      assert mounts[..k + 1] == mounts[..k] + [mount];
    }
    assert mounts[..|mounts|] == mounts;
    return true;
  }

  /** `validate_manifest` against the requested reference. The target map is
      visited in any order: only whether some target is rejected matters. */
  method ValidateManifest(m: Manifest, reference: ReleaseReference) returns (error: Option<ContractErrorKind>)
    ensures error == Some(IdentityMismatch) <==> !ManifestIdentifies(m, reference)
    ensures error.None? <==> ManifestIdentifies(m, reference) && ManifestIsWellFormed(m)
    ensures error.None? || error == Some(IdentityMismatch) || error == Some(InvalidManifest)
  {
    if !ManifestIdentifies(m, reference) {
      return Some(IdentityMismatch);
    }
    if !ValidSelectors(m.selectors) {
      return Some(InvalidManifest);
    }
    var pending := m.targets.Keys;
    while pending != {}
      invariant pending <= m.targets.Keys
      invariant forall system :: system in m.targets.Keys - pending ==>
        ValidSystem(system) && ValidTarget(m.targets[system])
      decreases |pending|
    {
      var system :| system in pending;
      var target := m.targets[system];
      if !ValidSystem(system) || !ValidStorePath(target.rootfs) || !ValidIdentifier(target.cache) {
        return Some(InvalidManifest);
      }
      if target.process.Some? {
        var ok := ValidateProcess(target.process.value);
        if !ok {
          return Some(InvalidManifest);
        }
      }
      var ok := ValidateMounts(target.mounts);
      if !ok {
        return Some(InvalidManifest);
      }
      pending := pending - {system};
    }
    for k := 0 to |m.evidence|
      invariant forall i :: 0 <= i < k ==> ValidEvidence(m.evidence[i])
    {
      if !ValidEvidence(m.evidence[k]) {
        return Some(InvalidManifest);
      }
    }
    return None;
  }

  // ----- node policy and selection

  datatype ErrorCategory =
    | Protocol | InvalidRequest | Timeout | Materialization | RootCollision | RootRegistration
    | Internal | ManifestFetch | DigestMismatchError | PolicyDenied | ArchitectureMismatch
    | EvaluationDisabled | CacheQuery

  datatype ResolutionError = ResolutionError(category: ErrorCategory, retryable: bool)

  datatype CachePolicy = CachePolicy(substituter: string, publicKeys: seq<string>)

  datatype IssuerPolicy = IssuerPolicy(allowedReleases: seq<string>, caches: map<string, CachePolicy>)

  datatype Policy = Policy(
    system: string, cacheOnly: bool, allowedUriPrefixes: seq<string>, issuers: map<string, IssuerPolicy>)

  /** One resolver's configuration, with the external encoders as functions. */
  datatype Node = Node(
    policy: Policy,
    maxTimeout: nat,
    digest: Bytes -> Digest,
    decode: Bytes -> Option<Manifest>,
    encode: Manifest -> Bytes,
    frameBytes: ResolvedRelease -> nat,
    served: set<Bytes>)               // every byte string the catalogs ever serve to this node

  const MAX_FRAME_BYTES: nat := 16384
  const PROTOCOL_VERSION: nat := 2

  /** Among the byte strings that are served, the digest tells all apart. */
  ghost predicate NoCollisions(node: Node) {
    forall a, b :: a in node.served && b in node.served && node.digest(a) == node.digest(b) ==> a == b
  }

  predicate Served(node: Node, fetched: Result<Bytes, ResolutionError>) {
    fetched.Ok? ==> fetched.value in node.served
  }

  /** `IssuerPolicy::permits_release` for one pattern. */
  predicate PatternPermits(pattern: string, name: string) {
    || pattern == "*"
    || pattern == name
    || (pattern != "" && pattern[|pattern| - 1] == '*' && pattern[..|pattern| - 1] <= name)
  }

  predicate PermitsRelease(issuer: IssuerPolicy, name: string) {
    exists i :: 0 <= i < |issuer.allowedReleases| && PatternPermits(issuer.allowedReleases[i], name)
  }

  /** `parse_full_manifest_contract`. */
  function ParseManifest(node: Node, bytes: Bytes, reference: ReleaseReference): Result<Manifest, ContractErrorKind> {
    if |bytes| > MAX_MANIFEST_BYTES then Err(ManifestTooLarge)
    else if node.digest(bytes) != reference.sha256 then Err(DigestMismatch)
    else
      match node.decode(bytes)
      case None => Err(InvalidManifest)
      case Some(m) =>
        if node.encode(m) != bytes then Err(InvalidManifest)
        else if !ManifestIdentifies(m, reference) then Err(IdentityMismatch)
        else if !ManifestIsWellFormed(m) then Err(InvalidManifest)
        else Ok(m)
  }

  function MapContractError(kind: ContractErrorKind): ResolutionError {
    match kind
    case DigestMismatch => ResolutionError(DigestMismatchError, false)
    case IdentityMismatch => ResolutionError(PolicyDenied, false)
    case ManifestTooLarge => ResolutionError(ManifestFetch, false)
    case InvalidManifest => ResolutionError(InvalidRequest, false)
  }

  datatype Purpose = Runtime | Prewarm | Inspect

  datatype Request = Request(
    version: nat,
    purpose: Purpose,
    materialize: Materialize,
    bundleIsCanonical: bool,          // the file system's answer about `bundle_path`
    timeoutMs: nat,
    containerName: Option<string>)

  datatype Selected = Selected(resolution: ResolvedRelease, cache: CachePolicy)

  /** `select_release`; `fetched` is what this caller's own fetch returned. */
  function SelectRelease(node: Node, reference: ReleaseReference, containerName: Option<string>,
                         purpose: Purpose, fetched: Result<Bytes, ResolutionError>): Result<Selected, ResolutionError>
  {
    if reference.issuer !in node.policy.issuers then Err(ResolutionError(PolicyDenied, false))
    else
      var issuer := node.policy.issuers[reference.issuer];
      if !PermitsRelease(issuer, reference.name) then Err(ResolutionError(PolicyDenied, false))
      else if fetched.Err? then Err(fetched.error)
      else
        match ParseManifest(node, fetched.value, reference)
        case Err(kind) => Err(MapContractError(kind))
        case Ok(manifest) =>
          if purpose == Runtime && !Permits(manifest.selectors, containerName) then
            Err(ResolutionError(PolicyDenied, false))
          else if node.policy.system !in manifest.targets then
            Err(ResolutionError(ArchitectureMismatch, false))
          else
            var target := manifest.targets[node.policy.system];
            if target.cache !in issuer.caches then Err(ResolutionError(PolicyDenied, false))
            else
              var resolution := ResolvedRelease(Identity(reference), target.rootfs, target.process, target.mounts);
              if node.frameBytes(resolution) > MAX_FRAME_BYTES then Err(ResolutionError(InvalidRequest, false))
              else Ok(Selected(resolution, issuer.caches[target.cache]))
  }

  function InvalidRequestError(): ResolutionError { ResolutionError(InvalidRequest, false) }

  /** `validate_request`, short of the deadline. */
  function ValidateRequest(node: Node, r: Request): Option<ResolutionError> {
    if r.version != PROTOCOL_VERSION then Some(ResolutionError(Protocol, false))
    else if r.timeoutMs == 0 || r.timeoutMs > 3_600_000 then Some(InvalidRequestError())
    else if !r.purpose.Runtime? && (!r.materialize.Release? || r.containerName.Some?) then Some(InvalidRequestError())
    else if r.materialize.Closure? && !ValidStorePath(r.materialize.path) then Some(InvalidRequestError())
    else if r.materialize.Flake? && !DaemonAdmits(r.materialize.installable) then Some(InvalidRequestError())
    else if r.materialize.Release? && r.materialize.reference.issuer !in node.policy.issuers then
      Some(ResolutionError(PolicyDenied, false))
    else if r.materialize.Flake? && node.policy.cacheOnly then Some(ResolutionError(EvaluationDisabled, false))
    else if r.materialize.Flake? && !DaemonAdmitsScheme(UriOf(r.materialize.installable)) then
      Some(InvalidRequestError())
    else if r.materialize.Flake? && !HasAllowedPrefix(node.policy, UriOf(r.materialize.installable)) then
      Some(ResolutionError(PolicyDenied, false))
    else if !r.bundleIsCanonical then Some(InvalidRequestError())
    else None
  }

  function UriOf(installable: string): string {
    match RSplitOnce(installable, "#") case None => "" case Some((uri, _)) => uri
  }

  predicate HasAllowedPrefix(policy: Policy, uri: string) {
    exists i :: 0 <= i < |policy.allowedUriPrefixes| && policy.allowedUriPrefixes[i] <= uri
  }

  /** What a caller carries into the flight: its request, the key computed from
      it, its own deadline and its own selection. */
  datatype Job = Job(request: Request, key: string, deadline: nat, selected: Option<Selected>)

  /** The part of `resolve_detailed` before the flights lock. */
  function Begin(node: Node, r: Request, now: nat, fetched: Result<Bytes, ResolutionError>)
    : Result<Job, ResolutionError>
  {
    match ValidateRequest(node, r)
    case Some(error) => Err(error)
    case None =>
      if r.purpose == Inspect then Err(InvalidRequestError())
      else
        var deadline := now + if r.timeoutMs <= node.maxTimeout then r.timeoutMs else node.maxTimeout;
        if r.materialize.Release? then
          match SelectRelease(node, r.materialize.reference, r.containerName, r.purpose, fetched)
          case Err(error) => Err(error)
          case Ok(selected) => Ok(Job(r, Key(r.materialize), deadline, Some(selected)))
        else Ok(Job(r, Key(r.materialize), deadline, None))
  }

  /** Some request, with some fetch that could have happened, came to this job. */
  ghost predicate Admitted(node: Node, job: Job) {
    exists now, fetched :: Served(node, fetched) && Begin(node, job.request, now, fetched) == Ok(job)
  }

  // ----- what selection guarantees

  /** Every condition selection depends on, in no particular order. */
  ghost predicate Authorized(node: Node, reference: ReleaseReference, name: Option<string>, purpose: Purpose,
                             bytes: Bytes)
  {
    && reference.issuer in node.policy.issuers
    && PermitsRelease(node.policy.issuers[reference.issuer], reference.name)
    && ParseManifest(node, bytes, reference).Ok?
    && var manifest := ParseManifest(node, bytes, reference).value;
    && (purpose == Runtime ==> Permits(manifest.selectors, name))
    && node.policy.system in manifest.targets
    && manifest.targets[node.policy.system].cache in node.policy.issuers[reference.issuer].caches
  }

  /** `bytes` is the manifest `reference` names, and `r` is word for word what it
      states for this node's own system. */
  ghost predicate StatedBy(node: Node, bytes: Bytes, reference: ReleaseReference, r: ResolvedRelease) {
    && node.digest(bytes) == reference.sha256
    && node.decode(bytes).Some?
    && var m := node.decode(bytes).value;
    && m.schema == "imageless.release.v1" && m.issuer == reference.issuer && m.name == reference.name
    && node.policy.system in m.targets
    && var target := m.targets[node.policy.system];
    && r.rootfs == target.rootfs && r.process == target.process && r.mounts == target.mounts
    && ParseReference(r.identity) == Some(reference)
  }

  /** A container may run it: it is listed, or nothing is, and it is not on the skip list. */
  ghost predicate OpenTo(node: Node, bytes: Bytes, container: Option<string>) {
    && node.decode(bytes).Some?
    && var selectors := node.decode(bytes).value.selectors;
    && (selectors.containers != [] ==> container.Some? && container.value in selectors.containers)
    && (container.Some? ==> container.value !in selectors.skipContainers)
  }

  /** A reference that survives selection is valid, even when it was never parsed. */
  lemma SelectedReferenceIsValid(node: Node, reference: ReleaseReference, name: Option<string>,
                                 purpose: Purpose, fetched: Result<Bytes, ResolutionError>)
    requires SelectRelease(node, reference, name, purpose, fetched).Ok?
    ensures ValidReference(reference)
    ensures ParseReference(Identity(reference)) == Some(reference)
  {
    var digest: Digest := node.digest(fetched.value);
    assert ValidDigest(digest);
    ParsePrinted(reference);
  }

  /** Selection succeeds exactly when the node's policy and the manifest authorize it
      and the answer fits a frame. */
  lemma SelectionIsAuthorized(node: Node, reference: ReleaseReference, name: Option<string>,
                              purpose: Purpose, fetched: Result<Bytes, ResolutionError>)
    ensures SelectRelease(node, reference, name, purpose, fetched).Ok? <==>
      && fetched.Ok? && Authorized(node, reference, name, purpose, fetched.value)
      && var target := ParseManifest(node, fetched.value, reference).value.targets[node.policy.system];
         var resolution := ResolvedRelease(Identity(reference), target.rootfs, target.process, target.mounts);
         node.frameBytes(resolution) <= MAX_FRAME_BYTES
  {
  }

  /** A manifest that is accepted is the one the reference names. */
  lemma AcceptedIsNamed(node: Node, bytes: Bytes, reference: ReleaseReference)
    requires ParseManifest(node, bytes, reference).Ok?
    ensures node.digest(bytes) == reference.sha256
    ensures node.decode(bytes) == Some(ParseManifest(node, bytes, reference).value)
    ensures ManifestIdentifies(ParseManifest(node, bytes, reference).value, reference)
    ensures ManifestIsWellFormed(ParseManifest(node, bytes, reference).value)
  {
  }

  /** Permitting a container is being open to it. */
  lemma PermitsIsOpen(node: Node, bytes: Bytes, container: Option<string>)
    requires node.decode(bytes).Some?
    ensures Permits(node.decode(bytes).value.selectors, container) <==> OpenTo(node, bytes, container)
  {
  }

  lemma SelectedIs(node: Node, reference: ReleaseReference, name: Option<string>,
                   purpose: Purpose, fetched: Result<Bytes, ResolutionError>)
    requires SelectRelease(node, reference, name, purpose, fetched).Ok?
    ensures fetched.Ok? && Authorized(node, reference, name, purpose, fetched.value)
    ensures var selected := SelectRelease(node, reference, name, purpose, fetched).value;
      var target := ParseManifest(node, fetched.value, reference).value.targets[node.policy.system];
      && selected.resolution == ResolvedRelease(Identity(reference), target.rootfs, target.process, target.mounts)
      && selected.cache == node.policy.issuers[reference.issuer].caches[target.cache]
  {
  }

  /** What it then selects is word for word the manifest's target for this node's own
      system, under a name that parses back to the reference, with the cache that the
      policy, not the manifest, defines; a running container is one the manifest is
      open to; and every path to realise is valid. */
  lemma SelectionIsTheTarget(node: Node, reference: ReleaseReference, name: Option<string>,
                             purpose: Purpose, fetched: Result<Bytes, ResolutionError>)
    requires SelectRelease(node, reference, name, purpose, fetched).Ok?
    ensures fetched.Ok?
    ensures var selected := SelectRelease(node, reference, name, purpose, fetched).value;
      && StatedBy(node, fetched.value, reference, selected.resolution)
      && (purpose == Runtime ==> OpenTo(node, fetched.value, name))
      && (var target := node.decode(fetched.value).value.targets[node.policy.system];
          selected.cache == node.policy.issuers[reference.issuer].caches[target.cache])
      && forall i :: 0 <= i < |StorePaths(selected.resolution)| ==> ValidStorePath(StorePaths(selected.resolution)[i])
  {
    SelectedIs(node, reference, name, purpose, fetched);
    SelectedReferenceIsValid(node, reference, name, purpose, fetched);
    AcceptedIsNamed(node, fetched.value, reference);
    PermitsIsOpen(node, fetched.value, name);
    assert ValidTarget(node.decode(fetched.value).value.targets[node.policy.system]);
  }

  /** A manifest has one accepted encoding, and so one digest to be referred to by. */
  lemma AcceptedBytesAreCanonical(node: Node, a: Bytes, ra: ReleaseReference, b: Bytes, rb: ReleaseReference)
    requires ParseManifest(node, a, ra).Ok? && ParseManifest(node, b, rb).Ok?
    requires ParseManifest(node, a, ra) == ParseManifest(node, b, rb)
    ensures a == b && ra == rb
  {
    assert node.encode(ParseManifest(node, a, ra).value) == a;
    assert node.encode(ParseManifest(node, b, rb).value) == b;
  }

  /** Why a selection is refused. The policy speaks first, whatever was fetched, and a
      fetch error is passed on ... */
  lemma PolicySpeaksFirst(node: Node, reference: ReleaseReference, name: Option<string>,
                          purpose: Purpose, fetched: Result<Bytes, ResolutionError>)
    ensures var allowed := reference.issuer in node.policy.issuers
                           && PermitsRelease(node.policy.issuers[reference.issuer], reference.name);
      var r := SelectRelease(node, reference, name, purpose, fetched);
      && (!allowed ==> r == Err(ResolutionError(PolicyDenied, false)))
      && (allowed && fetched.Err? ==> r == Err(fetched.error))
  {
  }

  lemma ManifestRefusals(node: Node, bytes: Bytes, reference: ReleaseReference)
    ensures var r := ParseManifest(node, bytes, reference);
      && (|bytes| > 65536 <==> r == Err(ManifestTooLarge))
      && (|bytes| <= 65536 && node.digest(bytes) != reference.sha256 <==> r == Err(DigestMismatch))
  {
  }

  /** ... then the size and the digest of the manifest, and a missing target only if the
      manifest is accepted and open to the container. */
  lemma RefusalsTell(node: Node, reference: ReleaseReference, name: Option<string>, purpose: Purpose, bytes: Bytes)
    requires reference.issuer in node.policy.issuers
    requires PermitsRelease(node.policy.issuers[reference.issuer], reference.name)
    ensures var r := SelectRelease(node, reference, name, purpose, Ok(bytes));
      && (r == Err(ResolutionError(ManifestFetch, false)) <==> |bytes| > 65536)
      && (r == Err(ResolutionError(DigestMismatchError, false)) <==>
            |bytes| <= 65536 && node.digest(bytes) != reference.sha256)
      && (r == Err(ResolutionError(ArchitectureMismatch, false)) <==>
            && ParseManifest(node, bytes, reference).Ok?
            && (purpose == Runtime ==> OpenTo(node, bytes, name))
            && node.policy.system !in node.decode(bytes).value.targets)
  {
    ManifestRefusals(node, bytes, reference);
    if ParseManifest(node, bytes, reference).Ok? {
      AcceptedIsNamed(node, bytes, reference);
      PermitsIsOpen(node, bytes, name);
    }
  }

  /** When a request gets as far as the flights: exactly when it speaks version 2, asks
      for between a millisecond and an hour in a canonical bundle, and names a valid
      store path, a release that is selected for it, or an installable that the worker
      will also accept, the node evaluates at all, and its policy allows. */
  lemma AdmissionIsExact(node: Node, r: Request, now: nat, fetched: Result<Bytes, ResolutionError>)
    ensures Begin(node, r, now, fetched).Ok? <==>
      && r.version == 2 && 1 <= r.timeoutMs <= 3_600_000 && r.bundleIsCanonical
      && match r.materialize
         case Closure(path) => r.purpose == Runtime && ValidStorePath(path)
         case Flake(installable) =>
           && r.purpose == Runtime
           && WorkerAdmits(installable)
           && !node.policy.cacheOnly
           && DaemonAdmitsScheme(UriOf(installable))
           && HasAllowedPrefix(node.policy, UriOf(installable))
         case Release(reference) =>
           && (r.purpose == Runtime || (r.purpose == Prewarm && r.containerName.None?))
           && SelectRelease(node, reference, r.containerName, r.purpose, fetched).Ok?
  {
    if r.materialize.Flake? {
      GrammarsAgree(r.materialize.installable);
    }
  }

  /** What it carries there: its own deadline, within what it asked for and within the
      node's limit, its own key, and the selection made for it alone. */
  lemma AdmittedRequestIsBounded(node: Node, r: Request, now: nat, fetched: Result<Bytes, ResolutionError>)
    requires Begin(node, r, now, fetched).Ok?
    ensures var job := Begin(node, r, now, fetched).value;
      && job.request == r && job.key == Key(r.materialize)
      && job.deadline <= now + r.timeoutMs && job.deadline <= now + node.maxTimeout
      && (job.deadline == now + r.timeoutMs || job.deadline == now + node.maxTimeout)
      && (node.maxTimeout > 0 ==> now < job.deadline)
      && (job.selected.Some? <==> r.materialize.Release?)
      && (r.materialize.Release? ==> SelectRelease(node, r.materialize.reference, r.containerName, r.purpose, fetched)
                                     == Ok(job.selected.value))
  {
  }

  /** Selection does not depend on who asks: two callers that both pass select
      the same resolution and the same cache, whatever each of them fetched. */
  lemma SelectionsAgree(node: Node, reference: ReleaseReference,
                        name1: Option<string>, purpose1: Purpose, fetched1: Result<Bytes, ResolutionError>,
                        name2: Option<string>, purpose2: Purpose, fetched2: Result<Bytes, ResolutionError>)
    requires NoCollisions(node) && Served(node, fetched1) && Served(node, fetched2)
    requires SelectRelease(node, reference, name1, purpose1, fetched1).Ok?
    requires SelectRelease(node, reference, name2, purpose2, fetched2).Ok?
    ensures SelectRelease(node, reference, name1, purpose1, fetched1)
         == SelectRelease(node, reference, name2, purpose2, fetched2)
  {
    assert node.digest(fetched1.value) == node.digest(fetched2.value);
  }

  lemma AdmittedKeyIsFaithful(node: Node, job: Job)
    requires Admitted(node, job)
    ensures KeyIsFaithful(job.request.materialize) && job.key == Key(job.request.materialize)
    ensures job.selected.Some? <==> job.request.materialize.Release?
  {
    var now, fetched :| Served(node, fetched) && Begin(node, job.request, now, fetched) == Ok(job);
    var r := job.request;
    if r.materialize.Release? {
      SelectedReferenceIsValid(node, r.materialize.reference, r.containerName, r.purpose, fetched);
    }
  }

  /** Admitted jobs with equal keys ask for the same thing and selected the same release. */
  lemma JobsAgree(node: Node, a: Job, b: Job)
    requires NoCollisions(node) && Admitted(node, a) && Admitted(node, b)
    requires a.key == b.key
    ensures a.request.materialize == b.request.materialize && a.selected == b.selected
  {
    AdmittedKeyIsFaithful(node, a);
    AdmittedKeyIsFaithful(node, b);
    KeyInjective(a.request.materialize, b.request.materialize);
    if a.request.materialize.Release? {
      var now1, fetched1 :| Served(node, fetched1) && Begin(node, a.request, now1, fetched1) == Ok(a);
      var now2, fetched2 :| Served(node, fetched2) && Begin(node, b.request, now2, fetched2) == Ok(b);
      SelectionsAgree(node, a.request.materialize.reference,
                      a.request.containerName, a.request.purpose, fetched1,
                      b.request.containerName, b.request.purpose, fetched2);
    }
  }

  /** What a caller that asked for a release may be given: what some served manifest
      states under that reference, one open to the caller's own container. */
  ghost predicate Granted(node: Node, job: Job, r: ResolvedRelease) {
    job.request.materialize.Release? ==>
      exists bytes ::
        && bytes in node.served
        && StatedBy(node, bytes, job.request.materialize.reference, r)
        && (job.request.purpose == Runtime ==> OpenTo(node, bytes, job.request.containerName))
  }

  lemma AdmittedIsGranted(node: Node, job: Job)
    requires Admitted(node, job) && job.selected.Some?
    ensures Granted(node, job, job.selected.value.resolution)
  {
    var now, fetched :| Served(node, fetched) && Begin(node, job.request, now, fetched) == Ok(job);
    if job.request.materialize.Release? {
      SelectionIsTheTarget(node, job.request.materialize.reference, job.request.containerName,
                           job.request.purpose, fetched);
      assert StatedBy(node, fetched.value, job.request.materialize.reference, job.selected.value.resolution);
    }
  }

  // ----- the assumption can be met

  /** A node whose catalog serves `bytes`, the encoding of `m`. */
  function NodeServing(m: Manifest, bytes: Bytes, other: Bytes, policy: Policy, digest: Digest, otherDigest: Digest)
    : Node
  {
    Node(policy, 1000, x => if x == bytes then digest else otherDigest,
         _ => Some(m), _ => bytes, _ => 0, {bytes, other})
  }

  lemma ServedManifestParses(m: Manifest, bytes: Bytes, other: Bytes, policy: Policy,
                             digest: Digest, otherDigest: Digest)
    requires |bytes| <= MAX_MANIFEST_BYTES && m.schema == RELEASE_SCHEMA && m.targets != map[]
    requires ValidIdentifier(m.issuer) && ValidReleaseName(m.name) && ManifestIsWellFormed(m)
    ensures var node := NodeServing(m, bytes, other, policy, digest, otherDigest);
      ParseManifest(node, bytes, ReleaseReference(m.issuer, m.name, digest)) == Ok(m)
  {
  }

  /** What is selected for a prewarm is admitted. */
  lemma SelectedIsAdmitted(node: Node, reference: ReleaseReference, bytes: Bytes) returns (job: Job)
    requires node.maxTimeout > 0 && bytes in node.served
    requires SelectRelease(node, reference, None, Prewarm, Ok(bytes)).Ok?
    ensures Admitted(node, job) && job.request.materialize == Release(reference)
  {
    var fetched: Result<Bytes, ResolutionError> := Ok(bytes);
    var request := Request(PROTOCOL_VERSION, Prewarm, Release(reference), true, 1, None);
    job := Begin(node, request, 0, fetched).value;
    assert Served(node, fetched) && Begin(node, job.request, 0, fetched) == Ok(job);
  }

  lemma ParsedIsSelected(node: Node, reference: ReleaseReference, bytes: Bytes, m: Manifest)
    requires ParseManifest(node, bytes, reference) == Ok(m) && reference.issuer in node.policy.issuers
    requires PermitsRelease(node.policy.issuers[reference.issuer], reference.name) && node.policy.system in m.targets
    requires m.targets[node.policy.system].cache in node.policy.issuers[reference.issuer].caches
    requires forall r :: node.frameBytes(r) <= MAX_FRAME_BYTES
    ensures SelectRelease(node, reference, None, Prewarm, Ok(bytes)).Ok?
  {
  }

  lemma ServedApart(m: Manifest, bytes: Bytes, other: Bytes, policy: Policy, digest: Digest, otherDigest: Digest)
    requires bytes != other && digest != otherDigest
    ensures var node := NodeServing(m, bytes, other, policy, digest, otherDigest);
      NoCollisions(node) && |node.served| == 2
  {
  }

  lemma ParsedIsAdmitted(node: Node, reference: ReleaseReference, bytes: Bytes, m: Manifest) returns (job: Job)
    requires ParseManifest(node, bytes, reference) == Ok(m) && reference.issuer in node.policy.issuers
    requires PermitsRelease(node.policy.issuers[reference.issuer], reference.name) && node.policy.system in m.targets
    requires m.targets[node.policy.system].cache in node.policy.issuers[reference.issuer].caches
    requires node.maxTimeout > 0 && bytes in node.served && forall r :: node.frameBytes(r) <= MAX_FRAME_BYTES
    ensures Admitted(node, job) && job.request.materialize == Release(reference)
  {
    ParsedIsSelected(node, reference, bytes, m);
    job := SelectedIsAdmitted(node, reference, bytes);
  }

  /** Nodes without collisions exist and admit releases: any well-formed manifest,
      under any policy that authorizes it, is selected by some such node. */
  lemma NoCollisionsIsMet(m: Manifest, bytes: Bytes, other: Bytes, policy: Policy, digest: Digest, otherDigest: Digest)
    returns (job: Job)
    requires bytes != other && digest != otherDigest && |bytes| <= MAX_MANIFEST_BYTES
    requires m.schema == RELEASE_SCHEMA && ValidIdentifier(m.issuer) && ValidReleaseName(m.name)
    requires ManifestIsWellFormed(m) && policy.system in m.targets && m.issuer in policy.issuers
    requires PermitsRelease(policy.issuers[m.issuer], m.name)
    requires m.targets[policy.system].cache in policy.issuers[m.issuer].caches
    ensures var node := NodeServing(m, bytes, other, policy, digest, otherDigest);
      && NoCollisions(node) && |node.served| == 2
      && Admitted(node, job) && job.request.materialize == Release(ReleaseReference(m.issuer, m.name, digest))
  {
    assert m.targets != map[];
    ServedApart(m, bytes, other, policy, digest, otherDigest);
    ServedManifestParses(m, bytes, other, policy, digest, otherDigest);
    job := ParsedIsAdmitted(NodeServing(m, bytes, other, policy, digest, otherDigest),
                            ReleaseReference(m.issuer, m.name, digest), bytes, m);
  }

  lemma OneCharIdentifier(value: string)
    requires |value| == 1 && IsIdentifierChar(value[0]) && value[0] != '-'
    ensures ValidIdentifier(value) && ValidReleaseName(value) && ValidSystem(value)
  {
    ByteLenAscii(value);
    SplitNone(value, '/');
  }

  /** Such manifests and policies exist, so the assumption excludes no node worth modelling. */
  lemma SomeReleaseIsAdmitted() returns (node: Node, job: Job)
    ensures NoCollisions(node) && |node.served| == 2 && Admitted(node, job) && job.request.materialize.Release?
  {
    var path := SomeStorePath();
    var name := "a";
    OneCharIdentifier(name);
    var target := ReleaseTarget(path, name, None, []);
    var m := Manifest(RELEASE_SCHEMA, name, name, Selectors([], []), map[name := target], []);
    var issuer := IssuerPolicy(["*"], map[name := CachePolicy("", [])]);
    assert issuer.allowedReleases[0] == "*";
    var policy := Policy(name, true, [], map[name := issuer]);
    node := NodeServing(m, [], [0], policy, Repeated('0'), Repeated('1'));
    job := NoCollisionsIsMet(m, [], [0], policy, Repeated('0'), Repeated('1'));
  }
}
