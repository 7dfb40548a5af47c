/**
 File trees as both sides see them: a directory is its listing, in whatever
 order the file system enumerates it.
 */
module Trees {
  import opened Bytes
  import opened Order

  datatype Node = File(mode: nat, data: seq<byte>) | Dir(listing: seq<Named>) | Symlink | Special

  datatype Named = Named(name: Text, node: Node)

  /** `mode & 0o111 != 0`. */
  predicate AnyExecute(mode: nat) {
    (mode / 64) % 2 == 1 || (mode / 8) % 2 == 1 || mode % 2 == 1
  }

  /** The rights of the owner, the group or the others, as an octal digit. */
  datatype Rights = Rights(read: bool, write: bool, execute: bool)

  function Digit(r: Rights): (d: nat)
    ensures d < 8
  {
    (if r.read then 4 else 0) + (if r.write then 2 else 0) + (if r.execute then 1 else 0)
  }

  lemma OctalDigits(high: nat, o: nat, g: nat, w: nat)
    requires o < 8 && g < 8 && w < 8
    ensures var mode := 512 * high + 64 * o + 8 * g + w;
      mode / 8 == 64 * high + 8 * o + g && mode / 64 == 8 * high + o
  {
  }

  lemma DigitParity(r: Rights)
    ensures Digit(r) % 2 == 1 <==> r.execute
  {
  }

  /** It holds exactly if somebody may execute the file, whatever other bits are set. */
  lemma AnyExecuteMeans(high: nat, owner: Rights, group: Rights, others: Rights)
    ensures AnyExecute(512 * high + 64 * Digit(owner) + 8 * Digit(group) + Digit(others))
       <==> owner.execute || group.execute || others.execute
  {
    var o, g, w := Digit(owner), Digit(group), Digit(others);
    OctalDigits(high, o, g, w);
    DigitParity(owner);
    DigitParity(group);
    DigitParity(others);
    assert (8 * high + o) % 2 == o % 2;
    assert (64 * high + 8 * o + g) % 2 == g % 2;
    assert (512 * high + 64 * o + 8 * g + w) % 2 == w % 2;
  }

  predicate IsContinuation(b: byte) { 0x80 <= b < 0xC0 }

  /** Well-formed UTF-8, which is what `into_string` asks of a file name. */
  predicate ValidUtf8(s: Text) {
    if s == [] then true
    else if s[0] < 0x80 then ValidUtf8(s[1..])
    else if 0xC2 <= s[0] < 0xE0 then |s| >= 2 && IsContinuation(s[1]) && ValidUtf8(s[2..])
    else if 0xE0 <= s[0] < 0xF0 then
      && |s| >= 3 && IsContinuation(s[1]) && IsContinuation(s[2])
      && (s[0] == 0xE0 ==> s[1] >= 0xA0) && (s[0] == 0xED ==> s[1] < 0xA0)
      && ValidUtf8(s[3..])
    else
      && 0xF0 <= s[0] < 0xF5
      && |s| >= 4 && IsContinuation(s[1]) && IsContinuation(s[2]) && IsContinuation(s[3])
      && (s[0] == 0xF0 ==> s[1] >= 0x90) && (s[0] == 0xF4 ==> s[1] < 0x90)
      && ValidUtf8(s[4..])
  }

  predicate Names(listing: seq<Named>, name: Text) {
    exists i :: 0 <= i < |listing| && listing[i].name == name
  }

  predicate DistinctNames(listing: seq<Named>) {
    forall i, j :: 0 <= i < j < |listing| ==> listing[i].name != listing[j].name
  }

  /** What a file system guarantees of names: distinct, nonempty, no slash, no NUL. */
  predicate WellFormed(node: Node)
    decreases node
  {
    node.Dir? ==>
      && DistinctNames(node.listing)
      && forall e :: e in node.listing ==> e.name != [] && SLASH !in e.name && 0 !in e.name && WellFormed(e.node)
  }

  // ----- sorting a listing by name

  function NamesOf(listing: seq<Named>): (r: seq<Text>)
    ensures |r| == |listing| && forall i :: 0 <= i < |r| ==> r[i] == listing[i].name
  {
    seq(|listing|, i requires 0 <= i < |listing| => listing[i].name)
  }

  function ByName(e: Named): Key { e.name }

  function Insert(e: Named, sorted: seq<Named>): (r: seq<Named>)
    ensures multiset(r) == multiset(sorted) + multiset{e}
  {
    InsertBy(e, sorted, ByName)
  }

  lemma InsertBefore(e: Named, sorted: seq<Named>)
    requires sorted == [] || LexLe(e.name, sorted[0].name)
    ensures Insert(e, sorted) == [e] + sorted
  {
  }

  lemma InsertPast(e: Named, head: Named, tail: seq<Named>)
    requires !LexLe(e.name, head.name)
    ensures Insert(e, [head] + tail) == [head] + Insert(e, tail)
  {
    assert ([head] + tail)[1..] == tail;
  }

  /** `names.sort()`, carrying each name's node along. */
  function SortByName(listing: seq<Named>): (r: seq<Named>)
    ensures multiset(r) == multiset(listing)
  {
    SortBy(listing, ByName)
  }

  lemma SortCons(e: Named, rest: seq<Named>)
    ensures SortByName([e] + rest) == Insert(e, SortByName(rest))
    ensures SortByName([]) == []
  {
    assert ([e] + rest)[1..] == rest;
  }

  lemma SortedMembers(listing: seq<Named>)
    ensures |SortByName(listing)| == |listing|
    ensures forall e :: e in SortByName(listing) <==> e in listing
  {
    var sorted := SortByName(listing);
    assert |multiset(sorted)| == |multiset(listing)|;
    assert forall e :: e in sorted <==> e in multiset(sorted);
    assert forall e :: e in listing <==> e in multiset(listing);
  }

  /** Distinct names end up strictly ascending. */
  lemma SortAscends(listing: seq<Named>)
    requires DistinctNames(listing)
    ensures Ascending(NamesOf(SortByName(listing)))
  {
    var sorted := SortByName(listing);
    SortOrders(listing, ByName);
    DistinctPermutes(listing, sorted);
    forall i | 0 <= i < |sorted| - 1
      ensures LexLt(NamesOf(sorted)[i], NamesOf(sorted)[i + 1])
    {
      assert LexLe(ByName(sorted[i]), ByName(sorted[i + 1]));
    }
  }

  lemma {:induction false} DistinctCountsOnce(listing: seq<Named>, e: Named)
    requires DistinctNames(listing)
    ensures multiset(listing)[e] <= 1
  {
    if listing != [] {
      var tail := listing[1..];
      assert listing == [listing[0]] + tail;
      DistinctCountsOnce(tail, e);
      forall n | n in tail
        ensures n.name != listing[0].name
      {
        var i :| 0 <= i < |tail| && tail[i] == n;
        assert listing[i + 1] == n;
      }
    }
  }

  lemma TwiceListed(listing: seq<Named>, i: nat, j: nat)
    requires i < j < |listing| && listing[i] == listing[j]
    ensures multiset(listing)[listing[i]] >= 2
  {
    assert listing == listing[..j] + [listing[j]] + listing[j + 1..];
    assert listing[..j][i] in listing[..j];
  }

  lemma DistinctPermutes(a: seq<Named>, b: seq<Named>)
    requires multiset(a) == multiset(b) && DistinctNames(a)
    ensures DistinctNames(b)
  {
    forall i, j | 0 <= i < j < |b|
      ensures b[i].name != b[j].name
    {
      assert b[i] in multiset(b) && b[j] in multiset(b);
      assert b[i] in a && b[j] in a;
      if b[i] == b[j] {
        TwiceListed(b, i, j);
        DistinctCountsOnce(a, b[i]);
      }
    }
  }

  lemma NameInNames(listing: seq<Named>, name: Text)
    ensures name in NamesOf(listing) <==> exists e :: e in listing && e.name == name
  {
    if name in NamesOf(listing) {
      var i :| 0 <= i < |listing| && NamesOf(listing)[i] == name;
      assert listing[i] in listing;
    }
    if e :| e in listing && e.name == name {
      var i :| 0 <= i < |listing| && listing[i] == e;
      assert NamesOf(listing)[i] == name;
    }
  }

  lemma NamesSurviveSort(listing: seq<Named>)
    ensures forall name :: name in NamesOf(SortByName(listing)) <==> Names(listing, name)
  {
    SortedMembers(listing);
    forall name
      ensures name in NamesOf(SortByName(listing)) <==> Names(listing, name)
    {
      NameInNames(listing, name);
      NameInNames(SortByName(listing), name);
      assert Names(listing, name) <==> name in NamesOf(listing);
    }
  }

  // ----- the same tree, listed in another order

  /** Equal up to the order of every listing and up to mode bits that staging ignores. */
  ghost predicate SameTree(a: Node, b: Node)
    decreases a
  {
    match a
    case File(mode, data) => b.File? && data == b.data && (AnyExecute(mode) <==> AnyExecute(b.mode))
    case Symlink => b.Symlink?
    case Special => b.Special?
    case Dir(listing) =>
      && b.Dir?
      && (forall e :: e in b.listing ==> Names(listing, e.name))
      && (forall e :: e in listing ==> Names(b.listing, e.name))
      && (forall e, e' :: e in listing && e' in b.listing && e.name == e'.name ==> SameTree(e.node, e'.node))
  }

  /** Sorting undoes the enumeration order. */
  lemma SortedNamesAgree(a: Node, b: Node)
    requires a.Dir? && SameTree(a, b) && DistinctNames(a.listing) && DistinctNames(b.listing)
    ensures NamesOf(SortByName(a.listing)) == NamesOf(SortByName(b.listing))
  {
    var x, y := SortByName(a.listing), SortByName(b.listing);
    SortAscends(a.listing);
    SortAscends(b.listing);
    NamesSurviveSort(a.listing);
    NamesSurviveSort(b.listing);
    forall name
      ensures name in NamesOf(x) <==> name in NamesOf(y)
    {
      assert Names(a.listing, name) <==> Names(b.listing, name);
    }
    AscendingUnique(NamesOf(x), NamesOf(y));
  }
}
