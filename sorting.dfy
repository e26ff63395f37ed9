/**
 * The `ORDER BY data` and `ORDER BY data DESC` clauses of the table's
 * queries (app.py:149, 166): ordering a sequence by an integer key. The
 * store leaves the order of rows with equal keys open, so what is promised
 * of a query result is "a permutation, ordered by key"; the insertion sort
 * here is one order that meets that promise.
 */
module Sorting {

  datatype Direction = Ascending | Descending

  predicate InOrder(a: int, b: int, dir: Direction)
  {
    if dir == Ascending then a <= b else a >= b
  }

  /** Every earlier element's key comes before every later element's key. */
  predicate SortedBy<T>(s: seq<T>, key: T -> int, dir: Direction)
  {
    forall i, j :: 0 <= i < j < |s| ==> InOrder(key(s[i]), key(s[j]), dir)
  }

  /** The keys of `s`, in the order of `s`. */
  function Keys<T>(s: seq<T>, key: T -> int): seq<int>
  {
    seq(|s|, i requires 0 <= i < |s| => key(s[i]))
  }

  /**
   * If `s[0]` comes before every later element of `s` and before `x`, it
   * comes before every element of a permutation of `s[1..]` plus `x`.
   */
  lemma FirstPrecedesPermutation<T>(s: seq<T>, x: T, t: seq<T>, key: T -> int, dir: Direction)
    requires s != [] && SortedBy(s, key, dir) && InOrder(key(s[0]), key(x), dir)
    requires multiset(t) == multiset(s[1..]) + multiset{x}
    ensures forall k :: 0 <= k < |t| ==> InOrder(key(s[0]), key(t[k]), dir)
  {
    forall k | 0 <= k < |t|
      ensures InOrder(key(s[0]), key(t[k]), dir)
    {
      assert t[k] in multiset(t);
      if t[k] != x {
        assert t[k] in multiset(s[1..]);
        var i :| 0 <= i < |s[1..]| && s[1..][i] == t[k];
        assert s[i + 1] == t[k];
      }
    }
  }

  /** `x` placed into the sorted `s` before the first element it may precede. */
  function Insert<T>(x: T, s: seq<T>, key: T -> int, dir: Direction): (r: seq<T>)
    requires SortedBy(s, key, dir)
    ensures SortedBy(r, key, dir)
    ensures multiset(r) == multiset(s) + multiset{x}
  {
    if s == [] || InOrder(key(x), key(s[0]), dir) then
      [x] + s
    else
      var tail := Insert(x, s[1..], key, dir);
      assert s == [s[0]] + s[1..];
      FirstPrecedesPermutation(s, x, tail, key, dir);
      [s[0]] + tail
  }

  /** Insertion sort: a permutation of `s` ordered by `key` in direction `dir`. */
  function Sort<T>(s: seq<T>, key: T -> int, dir: Direction): (r: seq<T>)
    ensures SortedBy(r, key, dir)
    ensures multiset(r) == multiset(s)
  {
    if s == [] then []
    else
      assert s == [s[0]] + s[1..];
      Insert(s[0], Sort(s[1..], key, dir), key, dir)
  }

  /** An integer used as its own sort key. */
  function Identity(x: int): int { x }

  /** An integer sequence ordered in direction `dir`: sorted by its own value. */
  predicate Monotone(k: seq<int>, dir: Direction)
  {
    SortedBy(k, Identity, dir)
  }

  /** The keys of a sorted sequence are ordered. */
  lemma SortedKeysMonotone<T>(s: seq<T>, key: T -> int, dir: Direction)
    requires SortedBy(s, key, dir)
    ensures Monotone(Keys(s, key), dir)
  {
  }

  /** Ordered integer sequences holding the same values start with the same value. */
  lemma MonotoneSameHead(a: seq<int>, b: seq<int>, dir: Direction)
    requires Monotone(a, dir) && Monotone(b, dir)
    requires a != [] && multiset(a) == multiset(b)
    ensures b != [] && a[0] == b[0]
  {
    assert a[0] in multiset(b);
    var k :| 0 <= k < |b| && b[k] == a[0];
    assert b[0] in multiset(a);
    var m :| 0 <= m < |a| && a[m] == b[0];
    assert InOrder(b[0], b[k], dir) && InOrder(a[0], a[m], dir);
  }

  /** Ordered integer sequences holding the same values are the same sequence. */
  lemma {:induction false} MonotoneUnique(a: seq<int>, b: seq<int>, dir: Direction)
    requires Monotone(a, dir) && Monotone(b, dir)
    requires multiset(a) == multiset(b)
    ensures a == b
    decreases |a|
  {
    if a == [] {
      assert |b| == |multiset(b)| == 0;
    } else {
      MonotoneSameHead(a, b, dir);
      assert a == [a[0]] + a[1..] && b == [b[0]] + b[1..];
      assert multiset(a[1..]) == multiset(a) - multiset{a[0]};
      assert multiset(b[1..]) == multiset(b) - multiset{b[0]};
      MonotoneUnique(a[1..], b[1..], dir);
    }
  }

  /** The keys of a concatenation are the concatenated keys. */
  lemma KeysConcat<T>(u: seq<T>, v: seq<T>, key: T -> int)
    ensures Keys(u + v, key) == Keys(u, key) + Keys(v, key)
  {
  }

  /** The first element of `a` occurs in its permutation `b`; taking it out of both leaves permutations. */
  lemma SplitAtFirst<T>(a: seq<T>, b: seq<T>) returns (front: seq<T>, back: seq<T>)
    requires a != [] && multiset(a) == multiset(b)
    ensures b == front + [a[0]] + back
    ensures multiset(a[1..]) == multiset(front + back)
  {
    var x := a[0];
    assert x in multiset(b);
    var k :| 0 <= k < |b| && b[k] == x;
    front, back := b[..k], b[k + 1..];
    assert b == front + [x] + back;
    assert a == [x] + a[1..];
    assert multiset(a[1..]) == multiset(a) - multiset{x};
    assert multiset(front + back) == multiset(b) - multiset{x};
  }

  /** Putting one element back into both sides keeps the key multisets equal. */
  lemma KeysOfSplice<T>(a: seq<T>, front: seq<T>, back: seq<T>, key: T -> int)
    requires a != []
    requires multiset(Keys(a[1..], key)) == multiset(Keys(front + back, key))
    ensures multiset(Keys(a, key)) == multiset(Keys(front + [a[0]] + back, key))
  {
    var x := a[0];
    assert a == [x] + a[1..];
    KeysConcat([x], a[1..], key);
    KeysConcat(front + [x], back, key);
    KeysConcat(front, [x], key);
    KeysConcat(front, back, key);
  }

  /** A permutation permutes the keys too. */
  lemma {:induction false} KeysOfPermutation<T>(a: seq<T>, b: seq<T>, key: T -> int)
    requires multiset(a) == multiset(b)
    ensures multiset(Keys(a, key)) == multiset(Keys(b, key))
    decreases |a|
  {
    if a == [] {
      assert |b| == |multiset(b)| == 0;
    } else {
      var front, back := SplitAtFirst(a, b);
      KeysOfPermutation(a[1..], front + back, key);
      KeysOfSplice(a, front, back, key);
    }
  }

  /**
   * Two orderings of the same elements by the same key differ at most in the
   * order of elements with equal keys: their key sequences coincide.
   */
  lemma SortedPermutationsAgreeOnKeys<T>(a: seq<T>, b: seq<T>, key: T -> int, dir: Direction)
    requires SortedBy(a, key, dir) && SortedBy(b, key, dir)
    requires multiset(a) == multiset(b)
    ensures Keys(a, key) == Keys(b, key)
  {
    KeysOfPermutation(a, b, key);
    SortedKeysMonotone(a, key, dir);
    SortedKeysMonotone(b, key, dir);
    MonotoneUnique(Keys(a, key), Keys(b, key), dir);
  }

  /** In a sorted permutation of `s + [x]`, an `x` whose key strictly beats all of `s` comes first. */
  lemma StrictExtremeFirst<T>(h: seq<T>, s: seq<T>, x: T, key: T -> int, dir: Direction)
    requires SortedBy(h, key, dir)
    requires multiset(h) == multiset(s) + multiset{x}
    requires forall y :: y in s ==> InOrder(key(x), key(y), dir) && key(x) != key(y)
    ensures h != [] && h[0] == x
  {
    assert x in multiset(h);
    var k :| 0 <= k < |h| && h[k] == x;
    assert InOrder(key(h[0]), key(x), dir);
    assert h[0] !in s;
    assert h[0] in multiset(h);
  }
}
