/**
 Where an absolute path leads when it is followed component by component, and what
 splitting and joining do to it. Symbolic links are not followed.
 */
module Paths {
  import opened Wrappers
  import opened Text

  /** From one directory along the given components: `..` goes back to the parent, the
      root being its own, and an empty component or `.` stays. */
  function Walk(from: seq<string>, parts: seq<string>): seq<string>
    decreases |parts|
  {
    if parts == [] then from
    else
      var here := parts[|parts| - 1];
      var before := Walk(from, parts[..|parts| - 1]);
      if here == "" || here == "." then before
      else if here == ".." then (if before == [] then [] else before[..|before| - 1])
      else before + [here]
  }

  /** The directories between the root and where `path` leads. */
  function Resolved(path: string): seq<string> { Walk([], Split(path, '/')) }

  /** The shortest absolute path that leads there. */
  function Spelled(place: seq<string>): string {
    if place == [] then "/" else "/" + Join(place, '/')
  }

  /** At `place`, or somewhere below it. */
  predicate AtOrBelow(path: string, place: seq<string>) { place <= Resolved(path) }

  /** The k-th component stays or goes down. */
  predicate Descends(from: seq<string>, parts: seq<string>, k: nat)
    requires k < |parts|
  {
    Walk(from, parts[..k]) <= Walk(from, parts[..k + 1])
  }

  /** Every component does, wherever the walk began. */
  ghost predicate NeverClimbs(parts: seq<string>) {
    forall from, k :: 0 <= k < |parts| ==> Descends(from, parts, k)
  }

  predicate Plain(parts: seq<string>) { forall i :: 0 <= i < |parts| ==> parts[i] !in ["", ".", ".."] }

  predicate Unsplit(parts: seq<string>, c: char) { forall i :: 0 <= i < |parts| ==> c !in parts[i] }

  lemma WalkSnoc(from: seq<string>, init: seq<string>, here: string)
    ensures var before := Walk(from, init);
      Walk(from, init + [here]) ==
        if here == "" || here == "." then before
        else if here == ".." then (if before == [] then [] else before[..|before| - 1])
        else before + [here]
  {
    assert (init + [here])[..|init + [here]| - 1] == init;
  }

  lemma {:induction false} WalkAppend(from: seq<string>, a: seq<string>, b: seq<string>)
    ensures Walk(from, a + b) == Walk(Walk(from, a), b)
    decreases |b|
  {
    if b == [] {
      assert a + b == a;
    } else {
      var init, here := b[..|b| - 1], b[|b| - 1];
      WalkAppend(from, a, init);
      WalkSnoc(from, a + init, here);
      assert a + b == a + init + [here];
    }
  }

  /** Plain components are simply appended. */
  lemma {:induction false} PlainWalk(from: seq<string>, parts: seq<string>)
    requires Plain(parts)
    ensures Walk(from, parts) == from + parts
    decreases |parts|
  {
    if parts == [] {
      assert from + parts == from;
    } else {
      var init, here := parts[..|parts| - 1], parts[|parts| - 1];
      PlainWalk(from, init);
      assert from + init + [here] == from + parts;
    }
  }

  lemma LeadingEmpty(parts: seq<string>)
    ensures Walk([], [""] + parts) == Walk([], parts)
  {
    WalkAppend([], [""], parts);
    assert [""][..0] == [];
  }

  /** Only plain names are ever entered. */
  lemma {:induction false} WalkIsPlain(parts: seq<string>, c: char)
    requires Unsplit(parts, c)
    ensures Plain(Walk([], parts)) && Unsplit(Walk([], parts), c)
    decreases |parts|
  {
    if parts != [] {
      WalkIsPlain(parts[..|parts| - 1], c);
    }
  }

  /** A walk that never climbs has no `..` in it, and conversely. */
  lemma ClimbingNeedsParent(parts: seq<string>)
    ensures NeverClimbs(parts) <==> ".." !in parts
  {
    if ".." !in parts {
      forall from: seq<string>, k | 0 <= k < |parts|
        ensures Descends(from, parts, k)
      {
        assert parts[k] in parts;
        assert parts[..k + 1] == parts[..k] + [parts[k]];
        WalkSnoc(from, parts[..k], parts[k]);
      }
    } else {
      var k := FirstParent(parts);
      var from := ["a"];
      assert parts[..k + 1] == parts[..k] + [".."];
      WalkSnoc(from, parts[..k], "..");
      WalkKeeps(from, parts[..k]);
      assert !Descends(from, parts, k);
    }
  }

  lemma FirstParent(parts: seq<string>) returns (k: nat)
    requires ".." in parts
    ensures k < |parts| && parts[k] == ".." && ".." !in parts[..k]
  {
    k := 0;
    while parts[k] != ".."
      invariant k < |parts| && ".." !in parts[..k] && ".." in parts[k..]
      decreases |parts| - k
    {
      assert parts[..k + 1] == parts[..k] + [parts[k]] && parts[k..] == [parts[k]] + parts[k + 1..];
      k := k + 1;
    }
  }

  lemma {:induction false} WalkKeeps(from: seq<string>, parts: seq<string>)
    requires ".." !in parts
    ensures from <= Walk(from, parts)
    decreases |parts|
  {
    if parts != [] {
      assert parts[|parts| - 1] in parts;
      WalkKeeps(from, parts[..|parts| - 1]);
    }
  }

  // ----- splitting and joining

  /** Joining then splitting is the identity on parts without the separator. */
  lemma {:induction false} SplitJoin(parts: seq<string>, c: char)
    requires parts != [] && Unsplit(parts, c)
    ensures Split(Join(parts, c), c) == parts
  {
    if |parts| == 1 {
      SplitNone(parts[0], c);
    } else {
      SplitJoin(parts[1..], c);
      SplitFirst(parts[0], c, Join(parts[1..], c));
      assert parts == [parts[0]] + parts[1..];
    }
  }

  lemma SplitFirstPart(s: string, c: char, i: nat)
    requires Find(s, c) == Some(i)
    ensures s == s[..i] + [c] + s[i + 1..] && Split(s, c) == [s[..i]] + Split(s[i + 1..], c)
  {
  }

  lemma Around<T>(head: seq<T>, c: T, rest: seq<T>, b: seq<T>)
    ensures head + [c] + rest + [c] + b == head + [c] + (rest + [c] + b)
  {
  }

  lemma SplitConcatStep(head: string, c: char, rest: string, b: string)
    requires c !in head && Split(rest + [c] + b, c) == Split(rest, c) + Split(b, c)
    ensures Split(head + [c] + rest + [c] + b, c) == [head] + Split(rest, c) + Split(b, c)
  {
    var tail := rest + [c] + b;
    Around(head, c, rest, b);
    SplitFirst(head, c, tail);
    Associate([head], Split(rest, c), Split(b, c));
  }

  lemma Associate<T>(a: seq<T>, b: seq<T>, c: seq<T>)
    ensures a + (b + c) == a + b + c
  {
  }

  /** Splitting around a separator splits either side. */
  lemma {:induction false} SplitConcat(a: string, c: char, b: string)
    ensures Split(a + [c] + b, c) == Split(a, c) + Split(b, c)
    decreases |a|
  {
    var at := Find(a, c);
    if at.None? {
      SplitNone(a, c);
      SplitFirst(a, c, b);
    } else {
      var i := at.value;
      SplitFirstPart(a, c, i);
      SplitConcat(a[i + 1..], c, b);
      SplitConcatStep(a[..i], c, a[i + 1..], b);
    }
  }

  lemma {:induction false} JoinEnds(parts: seq<string>, c: char)
    requires parts != [] && parts[|parts| - 1] != ""
    ensures Join(parts, c) != ""
    ensures Join(parts, c)[|Join(parts, c)| - 1] == parts[|parts| - 1][|parts[|parts| - 1]| - 1]
  {
    if |parts| > 1 {
      JoinEnds(parts[1..], c);
    }
  }

  lemma LeadingSlash(path: string)
    requires path != "" && path[0] == '/'
    ensures Split(path, '/') == [""] + Split(path[1..], '/')
  {
    SplitFirst("", '/', path[1..]);
    assert path == "" + ['/'] + path[1..];
  }

  lemma RootResolves(path: string)
    requires path == "/"
    ensures Split(path, '/') == ["", ""] && Resolved(path) == []
  {
    LeadingSlash(path);
    assert path[1..] == "";
    SplitNone(path[1..], '/');
    LeadingEmpty([""]);
    LeadingEmpty([]);
    assert [""] + [] == [""];
  }

  /** A place is spelled with its own components, and the spelling leads there. */
  lemma SpelledLeadsThere(place: seq<string>)
    requires Plain(place) && Unsplit(place, '/') && place != []
    ensures Split(Spelled(place), '/') == [""] + place && Resolved(Spelled(place)) == place
    ensures Spelled(place)[|Spelled(place)| - 1] != '/'
  {
    var path := Spelled(place);
    assert path == "/" + Join(place, '/') && path[1..] == Join(place, '/');
    LeadingSlash(path);
    SplitJoin(place, '/');
    LeadingEmpty(place);
    PlainWalk([], place);
    assert place[|place| - 1] !in ["", ".", ".."];
    JoinEnds(place, '/');
    assert path[|path| - 1] == Join(place, '/')[|Join(place, '/')| - 1];
    assert '/' !in place[|place| - 1];
  }
}
