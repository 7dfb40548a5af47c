/**
 The name grammars read a second way: policy patterns as globs, identifiers as the
 language of an automaton, and the manifest's own copy of the store path check.
 */
module Grammars {
  import opened Wrappers
  import opened Text
  import opened Sources
  import opened Releases

  // ----- policy patterns

  /** `str::trim_end_matches('/')`. */
  function TrimSlashes(s: string): string {
    if s != "" && s[|s| - 1] == '/' then TrimSlashes(s[..|s| - 1]) else s
  }

  /** `valid_release_prefix`. */
  predicate ValidReleasePrefix(value: string) {
    forall part :: part in Split(TrimSlashes(value), '/') ==> ValidIdentifier(part)
  }

  /** What `validate_policy` asks of an allowed release. */
  predicate ValidPattern(pattern: string) {
    || pattern == "*"
    || ValidReleaseName(pattern)
    || (|pattern| > 1 && pattern[|pattern| - 1] == '*' && ValidReleasePrefix(pattern[..|pattern| - 1]))
  }

  /** Ordinary glob matching: a star stands for any text, wherever it is. */
  ghost predicate Glob(pattern: string, s: string)
    decreases |pattern|
  {
    if pattern == "" then s == ""
    else if pattern[0] == '*' then exists k :: 0 <= k <= |s| && Glob(pattern[1..], s[k..])
    else s != "" && s[0] == pattern[0] && Glob(pattern[1..], s[1..])
  }

  lemma {:induction false} GlobWithoutStar(pattern: string, s: string)
    requires '*' !in pattern
    ensures Glob(pattern, s) <==> pattern == s
    decreases |pattern|
  {
    if pattern != "" && s != "" {
      GlobWithoutStar(pattern[1..], s[1..]);
      assert pattern == [pattern[0]] + pattern[1..] && s == [s[0]] + s[1..];
    }
  }

  lemma {:induction false} GlobWithFinalStar(prefix: string, s: string)
    requires '*' !in prefix
    ensures Glob(prefix + "*", s) <==> prefix <= s
    decreases |prefix|
  {
    var pattern := prefix + "*";
    if prefix == "" {
      assert pattern[1..] == "" && s[|s|..] == "";
      assert Glob(pattern[1..], s[|s|..]);
    } else {
      assert pattern[1..] == prefix[1..] + "*";
      if s != "" {
        GlobWithFinalStar(prefix[1..], s[1..]);
        assert prefix == [prefix[0]] + prefix[1..] && s == [s[0]] + s[1..];
      }
    }
  }

  lemma {:induction false} TrimSlashesKeeps(s: string, x: char)
    requires x != '/'
    ensures x in s <==> x in TrimSlashes(s)
    decreases |s|
  {
    if s != "" && s[|s| - 1] == '/' {
      TrimSlashesKeeps(s[..|s| - 1], x);
      assert s == s[..|s| - 1] + [s[|s| - 1]];
    }
  }

  lemma NoStarInParts(s: string)
    requires forall part :: part in Split(s, '/') ==> ValidIdentifier(part)
    ensures '*' !in s
  {
    SplitChars(s, '/', '*');
    forall i | 0 <= i < |Split(s, '/')|
      ensures '*' !in Split(s, '/')[i]
    {
      assert Split(s, '/')[i] in Split(s, '/');
    }
  }

  /** A valid pattern has a star at its end or none at all. */
  lemma StarsAreFinal(pattern: string)
    requires ValidPattern(pattern)
    ensures pattern != "" && '*' !in pattern[..|pattern| - 1]
  {
    if ValidReleaseName(pattern) {
      NoStarInParts(pattern);
    } else if pattern != "*" {
      var prefix := pattern[..|pattern| - 1];
      NoStarInParts(TrimSlashes(prefix));
      TrimSlashesKeeps(prefix, '*');
    }
  }

  lemma PatternIsGlob(pattern: string, name: string)
    requires ValidPattern(pattern)
    ensures PatternPermits(pattern, name) <==> Glob(pattern, name)
  {
    StarsAreFinal(pattern);
    var prefix, last := pattern[..|pattern| - 1], pattern[|pattern| - 1];
    assert pattern == prefix + [last];
    if last == '*' {
      GlobWithFinalStar(prefix, name);
      assert pattern == name ==> prefix <= name;
    } else {
      GlobWithoutStar(pattern, name);
    }
  }

  /** For patterns that the policy check admits, the node's matching is glob matching. */
  lemma PatternsAreGlobs(issuer: IssuerPolicy, name: string)
    requires forall pattern :: pattern in issuer.allowedReleases ==> ValidPattern(pattern)
    ensures PermitsRelease(issuer, name) <==>
      exists pattern :: pattern in issuer.allowedReleases && Glob(pattern, name)
  {
    var patterns := issuer.allowedReleases;
    forall i | 0 <= i < |patterns|
      ensures PatternPermits(patterns[i], name) <==> Glob(patterns[i], name)
    {
      assert patterns[i] in patterns;
      PatternIsGlob(patterns[i], name);
    }
    if PermitsRelease(issuer, name) {
      var i :| 0 <= i < |patterns| && PatternPermits(patterns[i], name);
      assert patterns[i] in patterns;
    }
  }

  // ----- identifiers

  /** An automaton for DNS labels: letters and digits, with hyphens only between them. */
  datatype LabelState = Empty | Open | Hyphen | Dead

  function LabelStep(state: LabelState, c: char): LabelState {
    if 'a' <= c <= 'z' || '0' <= c <= '9' then
      if state == Dead then Dead else Open
    else if c == '-' then
      if state == Open || state == Hyphen then Hyphen else Dead
    else Dead
  }

  function LabelRun(s: string): LabelState {
    if s == "" then Empty else LabelStep(LabelRun(s[..|s| - 1]), s[|s| - 1])
  }

  lemma {:induction false} LabelRunMeans(s: string)
    requires s != ""
    ensures LabelRun(s) != Empty
    ensures LabelRun(s) != Dead <==> s[0] != '-' && forall i :: 0 <= i < |s| ==> IsIdentifierChar(s[i])
    ensures LabelRun(s) == Hyphen ==> s[|s| - 1] == '-'
    ensures LabelRun(s) == Open ==> s[|s| - 1] != '-'
    decreases |s|
  {
    var init := s[..|s| - 1];
    if init == "" {
      assert LabelRun(init) == Empty;
    } else {
      LabelRunMeans(init);
      assert forall i :: 0 <= i < |init| ==> s[i] == init[i];
    }
  }

  /** Issuers, caches and container selectors are exactly the DNS labels: at most 63
      characters that the automaton accepts. */
  lemma IdentifiersAreLabels(s: string)
    ensures ValidIdentifier(s) <==> |s| <= 63 && LabelRun(s) == Open
  {
    if s != "" {
      LabelRunMeans(s);
      if LabelRun(s) != Dead {
        ByteLenAscii(s);
      }
    }
  }

  function Letters(n: nat): (s: string)
    ensures |s| == n && forall i :: 0 <= i < n ==> s[i] == 'a'
  {
    seq(n, _ => 'a')
  }

  lemma LettersAreIdentifier(s: string)
    requires 1 <= |s| <= 63 && s == Letters(|s|)
    ensures ValidIdentifier(s)
  {
    ByteLenAscii(s);
  }

  lemma ThreeParts(a: string, b: string, c: string, name: string)
    requires name == a + ['/'] + (b + ['/'] + c) && '/' !in a && '/' !in b && '/' !in c
    ensures Split(name, '/') == [a, b, c] && |name| == |a| + |b| + |c| + 2
  {
    var rest := b + ['/'] + c;
    assert Split(rest, '/') == [b, c] by {
      SplitFirst(b, '/', c);
      SplitNone(c, '/');
    }
    SplitFirst(a, '/', rest);
  }

  lemma AsciiAround(left: string, c: char, right: string)
    requires IsAscii(left) && IsAscii(right) && c as int < 0x80
    ensures IsAscii(left + [c] + right)
  {
  }

  lemma PartsMakeName(name: string, parts: seq<string>)
    requires Split(name, '/') == parts && forall i :: 0 <= i < |parts| ==> ValidIdentifier(parts[i])
    requires IsAscii(name) && 0 < |name| <= 128 && name[0] == 'a' && name[|name| - 1] == 'a'
    ensures ValidReleaseName(name)
  {
    assert ByteLen(name) <= 128 by {
      ByteLenAscii(name);
    }
    assert name[0] !in "-./";
    assert name[|name| - 1] !in "-./";
    assert forall i :: 0 <= i < |Split(name, '/')| ==> ValidIdentifier(Split(name, '/')[i]);
  }

  lemma EndsOf(a: string, b: string, c: string, name: string)
    requires name == a + ['/'] + (b + c) && a != "" && c != ""
    ensures name[0] == a[0] && name[|name| - 1] == c[|c| - 1]
  {
  }

  lemma LettersMakeName(a: string, b: string, c: string, name: string)
    requires name == a + ['/'] + (b + ['/'] + c) && |name| <= 128
    requires a == Letters(|a|) && b == Letters(|b|) && c == Letters(|c|)
    requires ValidIdentifier(a) && ValidIdentifier(b) && ValidIdentifier(c)
    ensures ValidReleaseName(name)
  {
    ThreeParts(a, b, c, name);
    AsciiAround(b, '/', c);
    AsciiAround(a, '/', b + ['/'] + c);
    EndsOf(a, b + ['/'], c, name);
    PartsMakeName(name, [a, b, c]);
  }

  /** The bound on a printed reference is reached. */
  lemma LongestReference(a: string, b: string, c: string, digest: Digest)
    requires a == Letters(|a|) && b == Letters(|b|) && c == Letters(|c|)
    requires |a| == 63 && |b| == 62 && |c| == 1
    ensures var r := ReleaseReference(a, a + ['/'] + (b + ['/'] + c), digest);
      ValidReference(r) && ByteLen(Identity(r)) == 264
  {
    var name := a + ['/'] + (b + ['/'] + c);
    LettersAreIdentifier(a);
    LettersAreIdentifier(b);
    LettersAreIdentifier(c);
    LettersMakeName(a, b, c, name);
    DigestLength(digest);
    ReferenceChars(ReleaseReference(a, name, digest));
  }

  lemma DigestLength(digest: Digest)
    ensures |digest| == 64
  {
    ByteLenAscii(digest);
  }

  // ----- store paths

  const NIX_BASE32 := "0123456789abcdfghijklmnpqrsvwxyz"

  /** The manifest's own `validate_store_path`, in another file than the request's. */
  predicate ManifestAdmitsPath(value: string) {
    && ByteLen(value) <= 4096
    && NoControl(value)
    && "/nix/store/" <= value
    && var basename := value[11..];
    && '/' !in basename
    && |basename| >= 33
    && (forall i :: 0 <= i < 32 ==> basename[i] in NIX_BASE32)
    && basename[32] == '-'
    && var suffix := basename[33..];
    && suffix != ""
    && forall i :: 0 <= i < |suffix| ==> IsAlphanumeric(suffix[i]) || suffix[i] in "+-._?="
  }

  lemma Base32Chars(c: char)
    ensures c in NIX_BASE32 <==> IsStoreHashChar(c)
  {
  }

  /** A manifest may name exactly the store paths that a request may name. */
  lemma StoreGrammarsAgree(value: string)
    ensures ManifestAdmitsPath(value) <==> ValidStorePath(value)
  {
    forall c
      ensures c in NIX_BASE32 <==> IsStoreHashChar(c)
    {
      Base32Chars(c);
    }
    if STORE_PREFIX <= value && |value| >= 44 {
      var basename := value[11..];
      assert basename[33..] == seq(|basename| - 33, i requires 0 <= i < |basename| - 33 => basename[33 + i]);
    }
  }
}
