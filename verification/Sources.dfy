/**
 The grammars of development sources: what the annotation planner builds, what
 the resolver daemon admits, and what the unprivileged worker admits.
 */
module Sources {
  import opened Wrappers
  import opened Text
  import opened Paths

  const MAX_ANNOTATION_VALUE_BYTES: nat := 4096
  const MAX_INSTALLABLE_BYTES: nat := 4608
  const MAX_OUTPUT_BYTES: nat := 256

  predicate ValidScalar(value: string, maxBytes: nat) {
    value != "" && ByteLen(value) <= maxBytes && NoControl(value)
  }

  predicate IsOutputChar(c: char) {
    IsAlphanumeric(c) || c == '+' || c == '-' || c == '.' || c == '_'
  }

  predicate ValidOutput(output: string) {
    && ValidScalar(output, MAX_OUTPUT_BYTES)
    && forall i :: 0 <= i < |output| ==> IsOutputChar(output[i])
  }

  predicate IsStoreHashChar(c: char) {
    IsDigit(c) || (IsLower(c) && c != 'e' && c != 'o' && c != 't' && c != 'u')
  }

  predicate IsStoreNameChar(c: char) {
    IsOutputChar(c) || c == '?' || c == '='
  }

  const STORE_PREFIX := "/nix/store/"

  /** A canonical direct child of `/nix/store`. */
  predicate ValidStorePath(value: string) {
    && ValidScalar(value, MAX_ANNOTATION_VALUE_BYTES)
    && STORE_PREFIX <= value
    && var basename := value[|STORE_PREFIX|..];
    && '/' !in basename
    && |basename| > 33
    && (forall i :: 0 <= i < 32 ==> IsStoreHashChar(basename[i]))
    && basename[32] == '-'
    && (forall i :: 33 <= i < |basename| ==> IsStoreNameChar(basename[i]))
  }

  /** Everything of the right shape is a store path. */
  lemma StorePathShape(basename: string)
    requires 33 < |basename| <= 4000 && basename[32] == '-'
    requires forall i :: 0 <= i < 32 ==> IsStoreHashChar(basename[i])
    requires forall i :: 33 <= i < |basename| ==> IsStoreNameChar(basename[i])
    ensures ValidStorePath(STORE_PREFIX + basename)
  {
    var path := STORE_PREFIX + basename;
    assert IsAscii(basename) && NoControl(basename) && '/' !in basename;
    PlainAsciiConcat(STORE_PREFIX, basename);
    ByteLenAscii(path);
    assert path[|STORE_PREFIX|..] == basename;
  }

  lemma SomeStorePath() returns (path: string)
    ensures ValidStorePath(path)
  {
    var basename := seq(32, _ => '0') + "-r";
    StorePathShape(basename);
    path := STORE_PREFIX + basename;
  }

  /** The scheme before the first colon, when it holds no slash. */
  function SchemeOf(uri: string): Option<string> {
    match SplitOnce(uri, ':')
    case None => None
    case Some((scheme, _)) => if '/' in scheme then None else Some(Lower(scheme))
  }

  function LastPart(s: string, c: char): string {
    var parts := Split(s, c);
    parts[|parts| - 1]
  }

  predicate NodeLocalScheme(scheme: string) {
    scheme == "path" || LastPart(scheme, '+') == "file"
  }

  predicate CanonicalRelative(relative: string) {
    relative == "" ||
    forall i :: 0 <= i < |Split(relative, '/')| ==>
      Split(relative, '/')[i] != "" && Split(relative, '/')[i] != "." && Split(relative, '/')[i] != ".."
  }

  /** The planner's test of a `run.imageless.source` annotation. */
  predicate ValidSource(source: string) {
    && ValidScalar(source, MAX_ANNOTATION_VALUE_BYTES)
    && NoWhitespace(source)
    && '#' !in source
    && if source[0] == '/' then CanonicalRelative(source[1..])
       else
         match SchemeOf(source)
         case None => false
         case Some(scheme) => scheme != "flake" && !NodeLocalScheme(scheme)
  }

  /** `Path::join` of a rootfs and a relative path. */
  function JoinPath(base: string, relative: string): string {
    if relative != "" && relative[0] == '/' then relative
    else if base == "" || base[|base| - 1] == '/' then base + relative
    else base + "/" + relative
  }

  function SourceUri(source: string, rootfs: string): string
    requires source != ""
  {
    if source[0] == '/' then "path:" + JoinPath(rootfs, source[1..]) else source
  }

  /** The tail of `plan`: the installable built from a source and an output. */
  function PlanFlake(source: string, output: string, rootfs: string): Option<string> {
    if ValidSource(source) && ValidOutput(output)
    then Some(SourceUri(source, rootfs) + "#" + output)
    else None
  }

  /** The daemon's `validate_installable`. */
  predicate DaemonAdmits(installable: string) {
    && installable != ""
    && ByteLen(installable) <= MAX_ANNOTATION_VALUE_BYTES + 512
    && NoWhitespace(installable)
    && NoControl(installable)
    && match RSplitOnce(installable, "#")
       case None => false
       case Some((flake, output)) => flake != "" && '#' !in flake && ValidOutput(output)
  }

  /** The worker's `valid_installable`, written independently in another crate. */
  predicate WorkerAdmits(value: string) {
    && value != ""
    && ByteLen(value) <= MAX_INSTALLABLE_BYTES
    && NoWhitespace(value)
    && NoControl(value)
    && match RSplitOnce(value, "#")
       case None => false
       case Some((flake, output)) =>
         && flake != ""
         && '#' !in flake
         && output != ""
         && ByteLen(output) <= 256
         && forall i :: 0 <= i < |output| ==>
              IsAlphanumeric(output[i]) || output[i] == '+' || output[i] == '-' || output[i] == '_' || output[i] == '.'
  }

  /** The daemon's `uri_carries_remote_scheme`. */
  predicate CarriesRemoteScheme(uri: string) {
    match SchemeOf(uri)
    case None => false
    case Some(scheme) => scheme != "" && scheme != "flake" && !NodeLocalScheme(scheme)
  }

  predicate DaemonAdmitsScheme(uri: string) {
    "path:" <= uri || CarriesRemoteScheme(uri)
  }

  // ----- the layers agree

  lemma OutputCharsArePlain(output: string)
    requires forall i :: 0 <= i < |output| ==> IsOutputChar(output[i])
    ensures NoControl(output) && NoWhitespace(output) && '#' !in output && IsAscii(output)
    ensures ByteLen(output) == |output|
  {
    ByteLenAscii(output);
  }

  /** Daemon and worker accept the same installables. */
  lemma GrammarsAgree(s: string)
    ensures DaemonAdmits(s) <==> WorkerAdmits(s)
  {
    match RSplitOnce(s, "#")
    case None =>
    case Some((flake, output)) =>
      if WorkerAdmits(s) {
        OutputCharsArePlain(output);
      }
  }

  /** What a rootfs path must look like to be quoted in an installable. */
  predicate PlainText(s: string) {
    NoWhitespace(s) && NoControl(s) && '#' !in s
  }

  lemma PlainConcat(a: string, b: string)
    ensures PlainText(a + b) <==> PlainText(a) && PlainText(b)
  {
    var s := a + b;
    assert forall i :: 0 <= i < |a| ==> s[i] == a[i];
    assert forall i :: 0 <= i < |b| ==> s[|a| + i] == b[i];
  }

  lemma InImageUri(source: string, rootfs: string)
    requires ValidSource(source) && source[0] == '/'
    ensures var base := if rootfs == "" || rootfs[|rootfs| - 1] == '/' then rootfs else rootfs + "/";
            SourceUri(source, rootfs) == "path:" + base + source[1..]
  {
    var relative := source[1..];
    if relative != "" {
      assert Split(relative, '/')[0] != "";
    }
    var base := if rootfs == "" || rootfs[|rootfs| - 1] == '/' then rootfs else rootfs + "/";
    assert "path:" + (base + relative) == "path:" + base + relative;
  }

  /** A planned installable splits back at its last `#` into exactly the two
      parts it was joined from. */
  lemma PlanSplitsBack(source: string, output: string, rootfs: string)
    requires PlanFlake(source, output, rootfs).Some?
    ensures RSplitOnce(PlanFlake(source, output, rootfs).value, "#")
         == Some((SourceUri(source, rootfs), output))
  {
    OutputCharsArePlain(output);
    RSplitOnceAt(SourceUri(source, rootfs), "#", output);
  }

  lemma PlainMiddle(left: string, middle: string, right: string)
    requires PlainText(left) && PlainText(right)
    ensures PlainText(left + middle + right) <==> PlainText(middle)
  {
    PlainConcat(left, middle);
    PlainConcat(left + middle, right);
  }

  lemma RelativeIsPlain(source: string)
    requires ValidSource(source) && source[0] == '/'
    ensures PlainText(source[1..])
  {
    assert forall i :: 0 <= i < |source[1..]| ==> source[1..][i] == source[i + 1];
  }

  lemma InImageUriIsPlain(source: string, rootfs: string)
    requires ValidSource(source) && source[0] == '/'
    ensures PlainText(SourceUri(source, rootfs)) <==> PlainText(rootfs)
  {
    InImageUri(source, rootfs);
    RelativeIsPlain(source);
    PlainConcat(rootfs, "/");
    var base := if rootfs == "" || rootfs[|rootfs| - 1] == '/' then rootfs else rootfs + "/";
    PlainMiddle("path:", base, source[1..]);
  }

  /** When the daemon and the worker accept what was planned from an in-image path:
      exactly when the rootfs can be quoted and the whole fits. */
  lemma PlannedInImageAdmitted(source: string, output: string, rootfs: string)
    requires PlanFlake(source, output, rootfs).Some? && source[0] == '/'
    ensures DaemonAdmits(PlanFlake(source, output, rootfs).value)
       <==> PlainText(rootfs) && ByteLen(PlanFlake(source, output, rootfs).value) <= MAX_INSTALLABLE_BYTES
    ensures DaemonAdmitsScheme(SourceUri(source, rootfs))
  {
    PlanSplitsBack(source, output, rootfs);
    OutputCharsArePlain(output);
    InImageUriIsPlain(source, rootfs);
    WithoutHash(SourceUri(source, rootfs), output);
  }

  lemma WithoutHash(uri: string, output: string)
    requires PlainText(output)
    ensures NoWhitespace(uri + "#" + output) <==> NoWhitespace(uri)
    ensures NoControl(uri + "#" + output) <==> NoControl(uri)
  {
    var s := uri + "#" + output;
    assert forall i :: 0 <= i < |uri| ==> s[i] == uri[i];
    assert forall i :: 0 <= i < |output| ==> s[|uri| + 1 + i] == output[i];
  }

  lemma PlannedLength(source: string, output: string, rootfs: string)
    requires PlanFlake(source, output, rootfs).Some? && source[0] == '/'
    ensures ByteLen(PlanFlake(source, output, rootfs).value)
         <= ByteLen(rootfs) + ByteLen(source) + ByteLen(output) + 6
  {
    var base := if rootfs == "" || rootfs[|rootfs| - 1] == '/' then rootfs else rootfs + "/";
    var relative := source[1..];
    InImageUri(source, rootfs);
    assert source == "/" + relative;
    ByteLenAround("/", relative);
    ByteLenAround("/", rootfs);
    ByteLenAround("path:", base);
    ByteLenConcat("path:" + base, relative);
    ByteLenAround("#", SourceUri(source, rootfs));
    ByteLenConcat(SourceUri(source, rootfs) + "#", output);
  }

  /** ASCII text put before or after a string adds its own length. */
  lemma ByteLenAround(ascii: string, s: string)
    requires IsAscii(ascii)
    ensures ByteLen(ascii + s) == |ascii| + ByteLen(s) && ByteLen(s + ascii) == ByteLen(s) + |ascii|
  {
    ByteLenAscii(ascii);
    ByteLenConcat(ascii, s);
    ByteLenConcat(s, ascii);
  }

  /** A rootfs of at most 250 bytes always leaves room. */
  lemma ShortRootfsFits(source: string, output: string, rootfs: string)
    requires PlanFlake(source, output, rootfs).Some? && source[0] == '/'
    requires PlainText(rootfs) && ByteLen(rootfs) <= 250
    ensures DaemonAdmits(PlanFlake(source, output, rootfs).value)
    ensures WorkerAdmits(PlanFlake(source, output, rootfs).value)
  {
    PlannedLength(source, output, rootfs);
    PlannedInImageAdmitted(source, output, rootfs);
    GrammarsAgree(PlanFlake(source, output, rootfs).value);
  }

  /** An external source always passes both grammars, and passes the daemon's
      scheme test exactly when it does not start with a colon: the planner
      admits an empty scheme and the daemon does not. */
  lemma PlannedExternalAdmitted(source: string, output: string, rootfs: string)
    requires PlanFlake(source, output, rootfs).Some? && source[0] != '/'
    ensures DaemonAdmits(PlanFlake(source, output, rootfs).value)
    ensures WorkerAdmits(PlanFlake(source, output, rootfs).value)
    ensures DaemonAdmitsScheme(SourceUri(source, rootfs)) <==> source[0] != ':'
  {
    var planned := PlanFlake(source, output, rootfs).value;
    PlanSplitsBack(source, output, rootfs);
    OutputCharsArePlain(output);
    WithoutHash(source, output);
    ByteLenAround("#", source);
    ByteLenConcat(source + "#", output);
    GrammarsAgree(planned);
    ExternalScheme(source);
  }

  lemma ExternalScheme(source: string)
    requires ValidSource(source) && source[0] != '/'
    ensures DaemonAdmitsScheme(source) <==> source[0] != ':'
  {
    var (scheme, rest) := SplitOnce(source, ':').value;
    assert source == scheme + ":" + rest;
    assert scheme == "" <==> source[0] == ':';
    assert Lower(scheme) == "" <==> scheme == "";
    if "path:" <= source {
      assert source == "path" + [':'] + source[5..];
      SplitOnceAt("path", ':', source[5..]);
    }
  }

  /** The planner's empty-scheme hole is real. */
  lemma EmptySchemeDisagreement()
    ensures ValidSource(":x") && !DaemonAdmitsScheme(":x")
  {
    ByteLenAscii(":x");
    assert ":x" == "" + [':'] + "x";
    SplitOnceAt("", ':', "x");
    assert Lower("") == "";
    assert Split("", '+') == [""];
  }

  // ----- node-local schemes

  /** The same letter, the second one in lower case. */
  predicate SameLetter(c: char, lower: char) {
    c == lower || ('a' <= lower <= 'z' && c as int + 32 == lower as int)
  }

  predicate SameLetters(s: string, lower: string) {
    |s| == |lower| && forall i :: 0 <= i < |s| ==> SameLetter(s[i], lower[i])
  }

  lemma LowerOfSame(s: string, lower: string)
    requires SameLetters(s, lower) && forall i :: 0 <= i < |lower| ==> !IsUpper(lower[i])
    ensures Lower(s) == lower
  {
  }

  lemma SchemeIs(scheme: string, rest: string)
    requires ':' !in scheme && '/' !in scheme
    ensures SchemeOf(scheme + [':'] + rest) == Some(Lower(scheme))
  {
    SplitOnceAt(scheme, ':', rest);
  }

  /** No annotation names node-local content or the registry, however the scheme is
      capitalized and whatever the reference behind it: neither planner nor daemon lets
      it through as an external source. */
  lemma NodeLocalIsRefused(scheme: string, lower: string, rest: string)
    requires SameLetters(scheme, lower) && lower in ["path", "file", "flake"]
    ensures !ValidSource(scheme + [':'] + rest) && !CarriesRemoteScheme(scheme + [':'] + rest)
  {
    LowerOfSame(scheme, lower);
    assert ':' !in scheme && '/' !in scheme;
    SchemeIs(scheme, rest);
    SplitNone(lower, '+');
    assert (scheme + [':'] + rest)[0] == scheme[0];
  }

  /** Nor a file behind another transport. */
  lemma FileTransportIsRefused(transport: string, file: string, rest: string)
    requires ':' !in transport && '/' !in transport && SameLetters(file, "file")
    ensures var source := transport + ['+'] + file + [':'] + rest;
      !ValidSource(source) && !CarriesRemoteScheme(source)
  {
    var scheme := transport + ['+'] + file;
    LowerOfSame(file, "file");
    assert ':' !in file && '/' !in file;
    SchemeIs(scheme, rest);
    LowerSplit(transport, file);
    assert (scheme + [':'] + rest)[0] == scheme[0];
  }

  lemma LowerSplit(transport: string, file: string)
    requires Lower(file) == "file"
    ensures LastPart(Lower(transport + ['+'] + file), '+') == "file"
  {
    var left := Lower(transport);
    assert Lower(transport + ['+'] + file) == left + ['+'] + "file";
    SplitConcat(left, '+', "file");
    SplitNone("file", '+');
  }
}
