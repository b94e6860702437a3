/** The block cache of a streamed file: a short queue, least recently used first. */
module StreamCache {
  import opened Collections
  import opened Wrappers

  const CAPACITY: nat := 6

  datatype Entry<D> = Entry(index: nat, data: D)

  function Indices<D>(blocks: seq<Entry<D>>): (r: seq<nat>)
    ensures |r| == |blocks| && forall i :: 0 <= i < |r| ==> r[i] == blocks[i].index
  {
    seq(|blocks|, i requires 0 <= i < |blocks| => blocks[i].index)
  }

  /** Moves the entry at `position` to the back. */
  function Touched<D>(blocks: seq<Entry<D>>, position: nat): seq<Entry<D>>
    requires position < |blocks|
  {
    blocks[..position] + blocks[position + 1..] + [blocks[position]]
  }

  /** Adds a block that is not there yet, dropping the front of a full queue. */
  function Remembered<D>(blocks: seq<Entry<D>>, index: nat, data: D): seq<Entry<D>> {
    if index in Indices(blocks) then blocks
    else (if |blocks| == CAPACITY then blocks[1..] else blocks) + [Entry(index, data)]
  }

  class Cache<D(==)> {
    var blocks: seq<Entry<D>>
    /** Every use of a block: a hit, or its arrival. */
    ghost var history: seq<nat>

    ghost predicate Valid()
      reads this
    {
      Indices(blocks) == LastSix(Recency(history))
    }

    constructor ()
      ensures Valid() && blocks == [] && history == []
    {
      blocks, history := [], [];
    }

    method Cached(index: nat) returns (data: Option<D>)
      requires Valid()
      modifies this
      ensures Valid()
      ensures data.None? <==> index !in Indices(old(blocks))
      ensures data.None? ==> blocks == old(blocks) && history == old(history)
      ensures data.Some? ==>
                && history == old(history) + [index]
                && exists p :: 0 <= p < |old(blocks)| && old(blocks)[p] == Entry(index, data.value)
                            && blocks == Touched(old(blocks), p)
    {
      hide Recency, LastSix;
      var position := 0;
      while position < |blocks| && blocks[position].index != index
        invariant position <= |blocks|
        invariant forall i :: 0 <= i < position ==> Indices(blocks)[i] != index
      {
        position := position + 1;
      }
      if position == |blocks| {
        return None;
      }
      assert Indices(blocks)[position] == index;
      HitKeepsOrder(history, blocks, position);
      var entry := blocks[position];
      blocks := blocks[..position] + blocks[position + 1..];
      blocks := blocks + [entry];
      history := history + [index];
      return Some(entry.data);
    }

    method Remember(index: nat, data: D)
      requires Valid()
      modifies this
      ensures Valid()
      ensures blocks == Remembered(old(blocks), index, data)
      ensures history == if index in Indices(old(blocks)) then old(history) else old(history) + [index]
    {
      hide Recency, LastSix;
      var i := 0;
      while i < |blocks|
        invariant i <= |blocks|
        invariant forall k :: 0 <= k < i ==> Indices(blocks)[k] != index
      {
        if blocks[i].index == index {
          assert Indices(blocks)[i] == index;
          return;
        }
        i := i + 1;
      }
      ArrivalKeepsOrder(history, blocks, index, data);
      if |blocks| == CAPACITY {
        blocks := blocks[1..];
      }
      blocks := blocks + [Entry(index, data)];
      history := history + [index];
    }
  }

  // ---- Least recently used ----

  function Without(s: seq<nat>, x: nat): seq<nat> {
    if s == [] then [] else (if s[0] == x then [] else [s[0]]) + Without(s[1..], x)
  }

  /** The distinct blocks used so far, by their last use. */
  function Recency(history: seq<nat>): seq<nat> {
    if history == [] then []
    else
      var last := history[|history| - 1];
      Without(Recency(history[..|history| - 1]), last) + [last]
  }

  function LastSix(s: seq<nat>): seq<nat> {
    if |s| <= 6 then s else s[|s| - 6..]
  }

  lemma Associative(a: seq<nat>, b: seq<nat>, c: seq<nat>)
    ensures (a + b) + c == a + (b + c)
  {
  }

  lemma WithoutHead(head: nat, tail: seq<nat>, x: nat)
    ensures Without([head] + tail, x) == (if head == x then [] else [head]) + Without(tail, x)
  {
    assert ([head] + tail)[1..] == tail;
  }

  lemma {:induction false} WithoutConcat(a: seq<nat>, b: seq<nat>, x: nat)
    ensures Without(a + b, x) == Without(a, x) + Without(b, x)
  {
    if a == [] {
      assert a + b == b;
    } else {
      WithoutConcat(a[1..], b, x);
      hide Without;
      Associative([a[0]], a[1..], b);
      assert a == [a[0]] + a[1..];
      WithoutHead(a[0], a[1..], x);
      WithoutHead(a[0], a[1..] + b, x);
      Associative(if a[0] == x then [] else [a[0]], Without(a[1..], x), Without(b, x));
    }
  }

  lemma {:induction false} WithoutAbsent(s: seq<nat>, x: nat)
    requires x !in s
    ensures Without(s, x) == s
  {
    if s != [] {
      assert s[0] in s && forall y :: y in s[1..] ==> y in s;
      WithoutAbsent(s[1..], x);
      assert s == [s[0]] + s[1..];
    }
  }

  lemma {:induction false} WithoutKeepsDistinct(s: seq<nat>, x: nat)
    requires Distinct(s)
    ensures x !in Without(s, x) && Distinct(Without(s, x))
    ensures forall y :: y in Without(s, x) ==> y in s
  {
    if s != [] {
      WithoutKeepsDistinct(s[1..], x);
      assert forall y :: y in s[1..] ==> y in s;
      assert s[0] !in s[1..];
    }
  }

  lemma {:induction false} RecencyDistinct(history: seq<nat>)
    ensures Distinct(Recency(history))
  {
    if history != [] {
      RecencyDistinct(history[..|history| - 1]);
      WithoutKeepsDistinct(Recency(history[..|history| - 1]), history[|history| - 1]);
    }
  }

  lemma RecencySnoc(history: seq<nat>, x: nat)
    ensures Recency(history + [x]) == Without(Recency(history), x) + [x]
  {
    assert (history + [x])[..|history|] == history;
  }

  lemma WithoutMiddle(front: seq<nat>, x: nat, back: seq<nat>)
    requires x !in front && x !in back
    ensures Without(front + [x] + back, x) == front + back
  {
    WithoutConcat(front + [x], back, x);
    WithoutConcat(front, [x], x);
    WithoutAbsent(front, x);
    WithoutAbsent(back, x);
    WithoutSelf(x);
    hide Without;
    assert front + [] == front;
  }

  lemma WithoutSelf(x: nat)
    ensures Without([x], x) == []
  {
    assert [x][1..] == [];
  }

  lemma SplitAt(s: seq<nat>, k: nat)
    requires Distinct(s) && k < |s|
    ensures s == s[..k] + [s[k]] + s[k + 1..] && s[k] !in s[..k] && s[k] !in s[k + 1..]
  {
  }

  lemma MovedToBack(r: seq<nat>, k: nat)
    requires Distinct(r) && k < |r|
    ensures Without(r, r[k]) + [r[k]] == r[..k] + r[k + 1..] + [r[k]]
  {
    SplitAt(r, k);
    WithoutMiddle(r[..k], r[k], r[k + 1..]);
  }

  /** Whatever stands before the last six stays before them. */
  lemma LastSixUsed(r: seq<nat>, front: seq<nat>, s: seq<nat>, p: nat)
    requires Distinct(r) && r == front + s && s == LastSix(r) && p < |s|
    ensures LastSix(Without(r, s[p]) + [s[p]]) == s[..p] + s[p + 1..] + [s[p]]
  {
    hide Without, Distinct;
    var k := |front| + p;
    MovedToBack(r, k);
    var moved := s[..p] + s[p + 1..] + [s[p]];
    assert r[..k] + r[k + 1..] + [r[k]] == front + moved by {
      hide LastSix;
      assert r[..k] == front + s[..p] && r[k + 1..] == s[p + 1..] && r[k] == s[p];
      Associative(front, s[..p], s[p + 1..]);
      Associative(front, s[..p] + s[p + 1..], [s[p]]);
    }
    Tail(front, moved);
  }

  lemma Tail(front: seq<nat>, s: seq<nat>)
    requires |s| <= CAPACITY && (|s| < CAPACITY ==> front == [])
    ensures LastSix(front + s) == s
  {
  }

  lemma LastSixArrived(r: seq<nat>, front: seq<nat>, s: seq<nat>, x: nat)
    requires r == front + s && s == LastSix(r) && x !in s
    ensures LastSix(Without(r, x) + [x]) == (if |s| == CAPACITY then s[1..] else s) + [x]
  {
    WithoutConcat(front, s, x);
    WithoutAbsent(s, x);
    if |s| == CAPACITY {
      var moved := s[1..] + [x];
      assert Without(r, x) + [x] == (Without(front, x) + [s[0]]) + moved;
      Tail(Without(front, x) + [s[0]], moved);
    } else {
      assert front == [];
      assert Without(r, x) + [x] == s + [x];
    }
  }

  lemma FrontAndLastSix(r: seq<nat>) returns (front: seq<nat>)
    ensures r == front + LastSix(r)
  {
    front := r[..|r| - |LastSix(r)|];
  }

  lemma HitKeepsOrder<D>(history: seq<nat>, blocks: seq<Entry<D>>, position: nat)
    requires Indices(blocks) == LastSix(Recency(history)) && position < |blocks|
    ensures Indices(Touched(blocks, position)) == LastSix(Recency(history + [blocks[position].index]))
  {
    hide Without, LastSix, Recency;
    RecencyDistinct(history);
    RecencySnoc(history, blocks[position].index);
    var s := Indices(blocks);
    var front := FrontAndLastSix(Recency(history));
    LastSixUsed(Recency(history), front, s, position);
    assert Indices(Touched(blocks, position)) == s[..position] + s[position + 1..] + [s[position]];
  }

  lemma ArrivalKeepsOrder<D>(history: seq<nat>, blocks: seq<Entry<D>>, index: nat, data: D)
    requires Indices(blocks) == LastSix(Recency(history)) && index !in Indices(blocks)
    ensures Indices(Remembered(blocks, index, data)) == LastSix(Recency(history + [index]))
  {
    hide Without, LastSix, Recency;
    RecencySnoc(history, index);
    var s := Indices(blocks);
    var front := FrontAndLastSix(Recency(history));
    LastSixArrived(Recency(history), front, s, index);
    assert Indices(Remembered(blocks, index, data)) == (if |s| == CAPACITY then s[1..] else s) + [index];
  }

  /** The queue never grows beyond six entries and never holds a block twice. */
  lemma BoundedAndDistinct<D>(history: seq<nat>, blocks: seq<Entry<D>>)
    requires Indices(blocks) == LastSix(Recency(history))
    ensures |blocks| <= 6 && Distinct(Indices(blocks))
  {
    RecencyDistinct(history);
  }

  /** The position of the last use. */
  function LastUse(history: seq<nat>, x: nat): (k: nat)
    requires x in history
    ensures k < |history| && history[k] == x && x !in history[k + 1..]
  {
    if history[|history| - 1] == x then |history| - 1
    else
      var k := LastUse(history[..|history| - 1], x);
      assert history[k + 1..] == history[..|history| - 1][k + 1..] + [history[|history| - 1]];
      k
  }

  lemma WithoutOrder(history: seq<nat>, r: seq<nat>, x: nat)
    requires forall i, j :: 0 <= i < j < |r| ==> r[i] in history && r[j] in history
                                                 && LastUse(history, r[i]) < LastUse(history, r[j])
    requires forall i :: 0 <= i < |r| ==> r[i] in history
    ensures forall i :: 0 <= i < |Without(r, x)| ==> Without(r, x)[i] in history
    ensures forall i, j :: 0 <= i < j < |Without(r, x)| ==>
              LastUse(history, Without(r, x)[i]) < LastUse(history, Without(r, x)[j])
    decreases |r|
  {
    hide LastUse;
    if r != [] {
      WithoutOrder(history, r[1..], x);
      WithoutMembers(r[1..], x);
      var w := Without(r[1..], x);
      forall i | 0 <= i < |w|
        ensures LastUse(history, r[0]) < LastUse(history, w[i])
      {
        assert w[i] in w;
        var k :| 0 <= k < |r[1..]| && r[1..][k] == w[i];
        assert r[k + 1] == w[i];
      }
    }
  }

  lemma {:induction false} WithoutMembers(r: seq<nat>, x: nat)
    ensures forall y :: y in Without(r, x) <==> y in r && y != x
  {
    if r != [] {
      WithoutMembers(r[1..], x);
      assert r == [r[0]] + r[1..];
    }
  }

  /** Exactly the blocks ever used, in the order of their last uses. */
  lemma {:induction false} RecencyExactly(history: seq<nat>)
    ensures forall x :: x in Recency(history) <==> x in history
    ensures forall i, j :: 0 <= i < j < |Recency(history)| ==>
              LastUse(history, Recency(history)[i]) < LastUse(history, Recency(history)[j])
  {
    if history != [] {
      var (front, last) := (history[..|history| - 1], history[|history| - 1]);
      assert history == front + [last];
      RecencyExactly(front);
      WithoutMembers(Recency(front), last);
      WithoutOrder(front, Recency(front), last);
      hide Recency, Without, LastUse;
      RecencyLast(history);
      var w := Without(Recency(front), last);
      forall x | x in w
        ensures LastUse(history, x) == LastUse(front, x)
        ensures LastUse(history, x) < LastUse(history, last)
      {
        UseBefore(front, last, x);
      }
    }
  }

  lemma RecencyLast(history: seq<nat>)
    requires history != []
    ensures Recency(history)
         == Without(Recency(history[..|history| - 1]), history[|history| - 1]) + [history[|history| - 1]]
  {
  }

  lemma UseBefore(front: seq<nat>, last: nat, x: nat)
    requires x in front && x != last
    ensures LastUse(front + [last], x) == LastUse(front, x) < |front| == LastUse(front + [last], last)
  {
    assert (front + [last])[..|front|] == front;
  }
}
