/** Lexicographic order on byte or code-point strings, and sorted sequences. */
module Order {

  type Key = seq<int>

  predicate LexLe(a: Key, b: Key) {
    a == [] || (b != [] && (a[0] < b[0] || (a[0] == b[0] && LexLe(a[1..], b[1..]))))
  }

  predicate LexLt(a: Key, b: Key) { LexLe(a, b) && a != b }

  lemma {:induction false} LexTotal(a: Key, b: Key)
    ensures LexLe(a, b) || LexLe(b, a)
  {
    if a != [] && b != [] && a[0] == b[0] {
      LexTotal(a[1..], b[1..]);
    }
  }

  lemma {:induction false} LexAntisymmetric(a: Key, b: Key)
    requires LexLe(a, b) && LexLe(b, a)
    ensures a == b
  {
    if a != [] && b != [] {
      LexAntisymmetric(a[1..], b[1..]);
      assert a == [a[0]] + a[1..] && b == [b[0]] + b[1..];
    }
  }

  lemma {:induction false} LexTransitive(a: Key, b: Key, c: Key)
    requires LexLe(a, b) && LexLe(b, c)
    ensures LexLe(a, c)
  {
    if a != [] && a[0] == b[0] && b[0] == c[0] {
      LexTransitive(a[1..], b[1..], c[1..]);
    }
  }

  lemma LexLtTransitive(a: Key, b: Key, c: Key)
    requires LexLt(a, b) && LexLt(b, c)
    ensures LexLt(a, c)
  {
    LexTransitive(a, b, c);
    if a == c {
      LexAntisymmetric(a, b);
    }
  }

  /** Strictly ascending neighbours. */
  predicate Ascending(keys: seq<Key>) {
    forall i :: 0 <= i < |keys| - 1 ==> LexLt(keys[i], keys[i + 1])
  }

  lemma {:induction false} AscendingPairs(keys: seq<Key>, i: nat, j: nat)
    requires Ascending(keys) && i < j < |keys|
    ensures LexLt(keys[i], keys[j])
    decreases j
  {
    if i + 1 < j {
      AscendingPairs(keys, i, j - 1);
      LexLtTransitive(keys[i], keys[j - 1], keys[j]);
    }
  }

  /** An ascending sequence is determined by its set of keys. */
  lemma {:induction false} AscendingUnique(a: seq<Key>, b: seq<Key>)
    requires Ascending(a) && Ascending(b)
    requires forall k :: k in a <==> k in b
    ensures a == b
  {
    assert |b| > 0 ==> b[0] in a;
    if a != [] {
      assert a[0] in b && b[0] in a;
      HeadIsLeast(a, b[0]);
      HeadIsLeast(b, a[0]);
      LexAntisymmetric(a[0], b[0]);
      forall k
        ensures k in a[1..] <==> k in b[1..]
      {
        TailMembers(a, k);
        TailMembers(b, k);
      }
      AscendingUnique(a[1..], b[1..]);
      assert a == [a[0]] + a[1..] && b == [b[0]] + b[1..];
    }
  }

  lemma {:induction false} LexReflexive(a: Key)
    ensures LexLe(a, a)
  {
    if a != [] {
      LexReflexive(a[1..]);
    }
  }

  lemma HeadIsLeast(a: seq<Key>, k: Key)
    requires Ascending(a) && k in a
    ensures LexLe(a[0], k)
  {
    var i :| 0 <= i < |a| && a[i] == k;
    if i == 0 {
      LexReflexive(k);
    } else {
      AscendingPairs(a, 0, i);
    }
  }

  lemma TailMembers(a: seq<Key>, k: Key)
    requires Ascending(a) && a != []
    ensures k in a[1..] <==> k in a && k != a[0]
  {
    if k in a[1..] {
      var i :| 0 <= i < |a[1..]| && a[1..][i] == k;
      AscendingPairs(a, 0, i + 1);
      LexReflexive(k);
    }
  }

  // ----- sorting by a key

  function InsertBy<T>(x: T, sorted: seq<T>, key: T -> Key): (r: seq<T>)
    ensures multiset(r) == multiset(sorted) + multiset{x}
  {
    if sorted == [] then [x]
    else
      assert sorted == [sorted[0]] + sorted[1..];
      if LexLe(key(x), key(sorted[0])) then [x] + sorted else [sorted[0]] + InsertBy(x, sorted[1..], key)
  }

  /** A stable sort. */
  function SortBy<T>(xs: seq<T>, key: T -> Key): (r: seq<T>)
    ensures multiset(r) == multiset(xs)
  {
    if xs == [] then []
    else
      assert xs == [xs[0]] + xs[1..];
      InsertBy(xs[0], SortBy(xs[1..], key), key)
  }

  ghost predicate OrderedBy<T>(xs: seq<T>, key: T -> Key) {
    forall i, j :: 0 <= i < j < |xs| ==> LexLe(key(xs[i]), key(xs[j]))
  }

  lemma OrderedCons<T>(x: T, rest: seq<T>, key: T -> Key)
    requires OrderedBy(rest, key) && forall y :: y in rest ==> LexLe(key(x), key(y))
    ensures OrderedBy([x] + rest, key)
  {
    var xs := [x] + rest;
    forall i, j | 0 <= i < j < |xs|
      ensures LexLe(key(xs[i]), key(xs[j]))
    {
      assert xs[j] == rest[j - 1];
      assert i > 0 ==> xs[i] == rest[i - 1];
    }
  }

  lemma OrderedHead<T>(x: T, sorted: seq<T>, key: T -> Key)
    requires OrderedBy(sorted, key) && (sorted != [] ==> LexLe(key(x), key(sorted[0])))
    ensures forall y :: y in sorted ==> LexLe(key(x), key(y))
  {
    forall y | y in sorted
      ensures LexLe(key(x), key(y))
    {
      var i :| 0 <= i < |sorted| && sorted[i] == y;
      if i > 0 {
        LexTransitive(key(x), key(sorted[0]), key(y));
      }
    }
  }

  lemma OrderedTail<T>(sorted: seq<T>, key: T -> Key)
    requires sorted != [] && OrderedBy(sorted, key)
    ensures OrderedBy(sorted[1..], key) && forall y :: y in sorted[1..] ==> LexLe(key(sorted[0]), key(y))
  {
    var tail := sorted[1..];
    forall y | y in tail
      ensures LexLe(key(sorted[0]), key(y))
    {
      var i :| 0 <= i < |tail| && tail[i] == y;
      assert sorted[i + 1] == y;
    }
    forall i, j | 0 <= i < j < |tail|
      ensures LexLe(key(tail[i]), key(tail[j]))
    {
      assert tail[i] == sorted[i + 1] && tail[j] == sorted[j + 1];
    }
  }

  lemma InsertMember<T>(x: T, sorted: seq<T>, key: T -> Key, y: T)
    requires y in InsertBy(x, sorted, key)
    ensures y == x || y in sorted
  {
    assert y in multiset(InsertBy(x, sorted, key));
  }

  lemma {:induction false} InsertOrders<T>(x: T, sorted: seq<T>, key: T -> Key)
    requires OrderedBy(sorted, key)
    ensures OrderedBy(InsertBy(x, sorted, key), key)
    decreases |sorted|
  {
    if sorted == [] || LexLe(key(x), key(sorted[0])) {
      OrderedHead(x, sorted, key);
      OrderedCons(x, sorted, key);
      assert InsertBy(x, sorted, key) == [x] + sorted;
    } else {
      var head, tail := sorted[0], sorted[1..];
      LexTotal(key(x), key(head));
      OrderedTail(sorted, key);
      InsertOrders(x, tail, key);
      forall y | y in InsertBy(x, tail, key)
        ensures LexLe(key(head), key(y))
      {
        InsertMember(x, tail, key, y);
      }
      OrderedCons(head, InsertBy(x, tail, key), key);
    }
  }

  lemma {:induction false} SortOrders<T>(xs: seq<T>, key: T -> Key)
    ensures OrderedBy(SortBy(xs, key), key)
    decreases |xs|
  {
    if xs != [] {
      SortOrders(xs[1..], key);
      InsertOrders(xs[0], SortBy(xs[1..], key), key);
    }
  }
}
