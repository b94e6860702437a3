/** Sorting by a key so that elements of equal keys keep their order. */
module StableSort {

  predicate Ascending<T>(key: T -> nat, s: seq<T>) {
    forall i, j :: 0 <= i < j < |s| ==> key(s[i]) <= key(s[j])
  }

  /** The elements of one key, in order. */
  function OfKey<T>(key: T -> nat, s: seq<T>, k: nat): seq<T> {
    if s == [] then []
    else
      var last := s[|s| - 1];
      OfKey(key, s[..|s| - 1], k) + if key(last) == k then [last] else []
  }

  /** After the last element that is not larger. */
  function Inserted<T>(key: T -> nat, s: seq<T>, x: T): (r: seq<T>)
    ensures |r| == |s| + 1
  {
    if s == [] || key(s[|s| - 1]) <= key(x) then s + [x]
    else Inserted(key, s[..|s| - 1], x) + [s[|s| - 1]]
  }

  function SortedBy<T>(key: T -> nat, s: seq<T>): (r: seq<T>)
    ensures |r| == |s|
  {
    if s == [] then [] else Inserted(key, SortedBy(key, s[..|s| - 1]), s[|s| - 1])
  }

  lemma {:induction false} InsertedElements<T>(key: T -> nat, s: seq<T>, x: T)
    ensures multiset(Inserted(key, s, x)) == multiset(s) + multiset{x}
  {
    if s != [] && key(s[|s| - 1]) > key(x) {
      InsertedElements(key, s[..|s| - 1], x);
      assert s == s[..|s| - 1] + [s[|s| - 1]];
    }
  }

  lemma AscendingSnoc<T>(key: T -> nat, s: seq<T>, last: T)
    requires Ascending(key, s) && forall y :: y in s ==> key(y) <= key(last)
    ensures Ascending(key, s + [last])
  {
  }

  lemma {:induction false} InsertedAscends<T>(key: T -> nat, s: seq<T>, x: T)
    requires Ascending(key, s)
    ensures Ascending(key, Inserted(key, s, x))
  {
    if s == [] || key(s[|s| - 1]) <= key(x) {
      AscendingSnoc(key, s, x);
    } else {
      var front := s[..|s| - 1];
      InsertedAscends(key, front, x);
      InsertedElements(key, front, x);
      forall y | y in Inserted(key, front, x)
        ensures key(y) <= key(s[|s| - 1])
      {
        assert y in multiset(Inserted(key, front, x));
      }
      AscendingSnoc(key, Inserted(key, front, x), s[|s| - 1]);
    }
  }

  /** Sorting is a permutation into ascending order. */
  lemma {:induction false} SortedAscends<T>(key: T -> nat, s: seq<T>)
    ensures Ascending(key, SortedBy(key, s)) && multiset(SortedBy(key, s)) == multiset(s)
  {
    if s != [] {
      SortedAscends(key, s[..|s| - 1]);
      InsertedAscends(key, SortedBy(key, s[..|s| - 1]), s[|s| - 1]);
      InsertedElements(key, SortedBy(key, s[..|s| - 1]), s[|s| - 1]);
      assert s == s[..|s| - 1] + [s[|s| - 1]];
    }
  }

  lemma {:induction false} InsertedOfKey<T>(key: T -> nat, s: seq<T>, x: T, k: nat)
    requires Ascending(key, s)
    ensures OfKey(key, Inserted(key, s, x), k) == OfKey(key, s, k) + if key(x) == k then [x] else []
  {
    var r := Inserted(key, s, x);
    if s == [] || key(s[|s| - 1]) <= key(x) {
      assert r[..|s|] == s;
    } else {
      InsertedOfKey(key, s[..|s| - 1], x, k);
      assert r[..|s|] == Inserted(key, s[..|s| - 1], x);
    }
  }

  /** Elements of equal keys keep their order. */
  lemma {:induction false} SortedIsStable<T>(key: T -> nat, s: seq<T>, k: nat)
    ensures OfKey(key, SortedBy(key, s), k) == OfKey(key, s, k)
  {
    if s != [] {
      SortedIsStable(key, s[..|s| - 1], k);
      SortedAscends(key, s[..|s| - 1]);
      InsertedOfKey(key, SortedBy(key, s[..|s| - 1]), s[|s| - 1], k);
    }
  }

  lemma {:induction false} OfKeyMeaning<T>(key: T -> nat, s: seq<T>, k: nat)
    ensures OfKey(key, s, k) != [] <==> exists i :: 0 <= i < |s| && key(s[i]) == k
  {
    if s != [] {
      OfKeyMeaning(key, s[..|s| - 1], k);
      assert forall i :: 0 <= i < |s| - 1 ==> s[..|s| - 1][i] == s[i];
    }
  }

  ghost predicate Agree<T>(key: T -> nat, a: seq<T>, b: seq<T>) {
    forall k: nat :: OfKey(key, a, k) == OfKey(key, b, k)
  }

  lemma LastNotSmaller<T>(key: T -> nat, a: seq<T>, b: seq<T>)
    requires Ascending(key, a) && b != [] && Agree(key, a, b)
    ensures a != [] && key(a[|a| - 1]) >= key(b[|b| - 1])
  {
    var k := key(b[|b| - 1]);
    OfKeyMeaning(key, b, k);
    OfKeyMeaning(key, a, k);
    var i :| 0 <= i < |a| && key(a[i]) == k;
  }

  lemma OfKeySnoc<T>(key: T -> nat, s: seq<T>, x: T, k: nat)
    ensures OfKey(key, s + [x], k) == if key(x) == k then OfKey(key, s, k) + [x] else OfKey(key, s, k)
  {
    assert (s + [x])[..|s|] == s;
  }

  lemma AgreeBefore<T>(key: T -> nat, a: seq<T>, x: T, b: seq<T>, y: T)
    requires Agree(key, a + [x], b + [y]) && key(x) == key(y)
    ensures Agree(key, a, b) && x == y
  {
    OfKeySnoc(key, a, x, key(x));
    OfKeySnoc(key, b, y, key(x));
    SameEnd(OfKey(key, a, key(x)), x, OfKey(key, b, key(x)), y);
    forall k: nat
      ensures OfKey(key, a, k) == OfKey(key, b, k)
    {
      OfKeySnoc(key, a, x, k);
      OfKeySnoc(key, b, y, k);
      assert OfKey(key, a + [x], k) == OfKey(key, b + [y], k);
    }
  }

  /** There is only one way to sort so: whichever stable algorithm is used, this is its result. */
  lemma {:induction false} StableIsUnique<T>(key: T -> nat, a: seq<T>, b: seq<T>)
    requires Ascending(key, a) && Ascending(key, b) && Agree(key, a, b)
    ensures a == b
    decreases |a|
  {
    if a == [] {
      if b != [] {
        LastNotSmaller(key, a, b);
      }
    } else {
      LastNotSmaller(key, b, a);
      LastNotSmaller(key, a, b);
      var (c, d) := (a[..|a| - 1], b[..|b| - 1]);
      var (x, y) := (a[|a| - 1], b[|b| - 1]);
      assert a == c + [x] && b == d + [y];
      AgreeBefore(key, c, x, d, y);
      StableIsUnique(key, c, d);
    }
  }

  lemma SameEnd<T>(a: seq<T>, x: T, b: seq<T>, y: T)
    requires a + [x] == b + [y]
    ensures a == b && x == y
  {
    assert |a| == |b|;
    assert (a + [x])[|a|] == x && (b + [y])[|b|] == y;
    assert a == (a + [x])[..|a|] && b == (b + [y])[..|b|];
  }

  /** Sorts by inserting one element after the other. */
  method SortBy<T>(key: T -> nat, s: seq<T>) returns (sorted: seq<T>)
    ensures sorted == SortedBy(key, s)
  {
    sorted := [];
    for n := 0 to |s|
      invariant sorted == SortedBy(key, s[..n])
    {
      var (x, at: nat) := (s[n], n);
      InsertedAt(key, sorted, x);
      hide *;
      while at > 0 && key(sorted[at - 1]) > key(x)
        invariant at <= n == |sorted|
        invariant Inserted(key, sorted, x) == Inserted(key, sorted[..at], x) + sorted[at..]
      {
        InsertedBefore(key, sorted, x, at);
        at := at - 1;
      }
      InsertedHere(key, sorted, x, at);
      NextSorted(key, s, n);
      sorted := sorted[..at] + [x] + sorted[at..];
    }
    assert s[..|s|] == s;
  }

  lemma InsertedAt<T>(key: T -> nat, s: seq<T>, x: T)
    ensures Inserted(key, s, x) == Inserted(key, s[..|s|], x) + s[|s|..]
  {
    assert s[..|s|] == s && s[|s|..] == [];
  }

  lemma InsertedBefore<T>(key: T -> nat, s: seq<T>, x: T, at: nat)
    requires 0 < at <= |s| && key(s[at - 1]) > key(x)
    ensures Inserted(key, s[..at], x) + s[at..] == Inserted(key, s[..at - 1], x) + s[at - 1..]
  {
    assert s[..at][..at - 1] == s[..at - 1];
    assert [s[at - 1]] + s[at..] == s[at - 1..];
  }

  lemma InsertedHere<T>(key: T -> nat, s: seq<T>, x: T, at: nat)
    requires at <= |s| && (at > 0 ==> key(s[at - 1]) <= key(x))
    ensures Inserted(key, s[..at], x) == s[..at] + [x]
  {
  }

  lemma NextSorted<T>(key: T -> nat, s: seq<T>, n: nat)
    requires n < |s|
    ensures SortedBy(key, s[..n + 1]) == Inserted(key, SortedBy(key, s[..n]), s[n])
  {
    assert s[..n + 1][..n] == s[..n];
  }
}
