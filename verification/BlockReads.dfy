/** Reading a byte range of a streamed file block by block. */
module BlockReads {
  import opened Bytes
  import opened StreamCache
  import opened Wrappers

  const U64_MAX: nat := 0xFFFF_FFFF_FFFF_FFFF
  const U32_LIMIT: nat := 0x1_0000_0000

  /** Where each block starts, and the total length at the end. */
  predicate Partition(starts: seq<nat>) {
    && |starts| > 0 && starts[0] == 0 && starts[|starts| - 1] <= U64_MAX
    && forall i, j :: 0 <= i <= j < |starts| ==> starts[i] <= starts[j]
  }

  function Length(starts: seq<nat>): nat
    requires Partition(starts)
  {
    starts[|starts| - 1]
  }

  /** Adds up the claimed sizes; the result is a partition when the total fits 64 bits. */
  method NewReader(sizes: seq<nat>) returns (starts: seq<nat>)
    ensures |starts| == |sizes| + 1 && starts[0] == 0
    ensures forall i :: 0 <= i < |sizes| ==> starts[i + 1] == starts[i] + sizes[i]
    ensures Partition(starts) <==> starts[|sizes|] <= U64_MAX
  {
    var offset := 0;
    starts := [offset];
    for n := 0 to |sizes|
      invariant |starts| == n + 1 && starts[0] == 0 && starts[n] == offset
      invariant forall i :: 0 <= i < n ==> starts[i + 1] == starts[i] + sizes[i]
      invariant forall i, j :: 0 <= i <= j <= n ==> starts[i] <= starts[j]
    {
      offset := offset + sizes[n];
      starts := starts + [offset];
    }
  }

  /** The last of the first `n` starts that is not after `offset`. */
  function LastNotAfter(starts: seq<nat>, offset: nat, n: nat): (r: nat)
    requires 0 < n <= |starts| && starts[0] <= offset
    ensures r < n && starts[r] <= offset && forall j :: r < j < n ==> offset < starts[j]
  {
    if starts[n - 1] <= offset then n - 1 else LastNotAfter(starts, offset, n - 1)
  }

  function BlockAt(starts: seq<nat>, offset: nat): (r: Option<nat>)
    requires Partition(starts)
    ensures r.None? <==> offset >= Length(starts)
    ensures r.Some? ==> r.value + 1 < |starts| && starts[r.value] <= offset < starts[r.value + 1]
  {
    if offset >= Length(starts) then None else Some(LastNotAfter(starts, offset, |starts|))
  }

  datatype Outcome = Ok(bytes: seq<Byte>, last: Option<nat>) | Failed(index: nat) | TooShort(index: nat)

  type Source = nat -> Option<seq<Byte>>

  function Taken(starts: seq<nat>, data: seq<Byte>, index: nat, position: nat, end: nat): (take: nat)
    requires index < |starts| && starts[index] <= position < end
    ensures take <= end - position
    ensures take > 0 ==> position - starts[index] + take <= |data|
  {
    var start := position - starts[index];
    Min(end - position, if |data| > start then |data| - start else 0)
  }

  function Min(a: nat, b: nat): nat {
    if a <= b then a else b
  }

  function Prefixed(out: seq<Byte>, r: Outcome): Outcome {
    if r.Ok? then r.(bytes := out + r.bytes) else r
  }

  lemma PrefixedTwice(a: seq<Byte>, b: seq<Byte>, r: Outcome)
    ensures Prefixed(a, Prefixed(b, r)) == Prefixed(a + b, r)
    ensures Prefixed([], r) == r
  {
    if r.Ok? {
      assert (a + b) + r.bytes == a + (b + r.bytes);
      assert [] + r.bytes == r.bytes;
    }
  }

  datatype Piece = Got(index: nat, bytes: seq<Byte>) | Stop(outcome: Outcome)

  /** What one turn of the read loop adds at `position`. */
  function NextPiece(starts: seq<nat>, source: Source, position: nat, end: nat): (p: Piece)
    requires Partition(starts) && position < end <= Length(starts)
    ensures p.Got? ==> 0 < |p.bytes| <= end - position
    ensures p.Stop? ==> !p.outcome.Ok?
  {
    var index := BlockAt(starts, position).value;
    var data := source(index);
    if data.None? then Stop(Failed(index))
    else
      var start := position - starts[index];
      var take := Taken(starts, data.value, index, position, end);
      if take == 0 then Stop(TooShort(index)) else Got(index, data.value[start..start + take])
  }

  /** The rest of a read at `position`; `last` is the block read before. */
  function ReadFrom(starts: seq<nat>, source: Source, position: nat, end: nat, last: Option<nat>): (r: Outcome)
    requires Partition(starts) && end <= Length(starts)
    ensures r.Ok? && position <= end ==> |r.bytes| == end - position
    decreases end - position
  {
    if position >= end then Ok([], last)
    else
      match NextPiece(starts, source, position, end)
      case Stop(outcome) => outcome
      case Got(index, bytes) => Prefixed(bytes, ReadFrom(starts, source, position + |bytes|, end, Some(index)))
  }

  lemma ReadDone(starts: seq<nat>, source: Source, position: nat, end: nat, last: Option<nat>)
    requires Partition(starts) && end <= Length(starts) && end <= position
    ensures ReadFrom(starts, source, position, end, last) == Ok([], last)
  {
  }

  lemma Accumulated(starts: seq<nat>, source: Source, position: nat, end: nat, last: Option<nat>, out: seq<Byte>)
    requires Partition(starts) && position < end <= Length(starts)
    ensures Prefixed(out, ReadFrom(starts, source, position, end, last)) ==
            match NextPiece(starts, source, position, end)
            case Stop(outcome) => outcome
            case Got(index, bytes) => Prefixed(out + bytes,
                ReadFrom(starts, source, position + |bytes|, end, Some(index)))
  {
    var piece := NextPiece(starts, source, position, end);
    if piece.Got? {
      PrefixedTwice(out, piece.bytes, ReadFrom(starts, source, position + |piece.bytes|, end, Some(piece.index)));
    }
  }

  lemma AllRead(starts: seq<nat>, source: Source, position: nat, end: nat, last: Option<nat>, out: seq<Byte>)
    requires Partition(starts) && end <= Length(starts) && end <= position
    ensures Prefixed(out, ReadFrom(starts, source, position, end, last)) == Ok(out, last)
  {
    assert out + [] == out;
  }

  /** The end of a request: 64-bit saturating, capped by the file. */
  function End(starts: seq<nat>, offset: nat, size: nat): (end: nat)
    requires Partition(starts)
    ensures end <= Length(starts)
    ensures end == Min(offset + size, Length(starts))
  {
    Min(Min(offset + size, U64_MAX), Length(starts))
  }

  method Read(starts: seq<nat>, source: Source, offset: nat, size: nat) returns (r: Outcome)
    requires Partition(starts) && offset <= U64_MAX && size < U32_LIMIT
    ensures r == ReadFrom(starts, source, offset, End(starts, offset, size), None)
  {
    var end := End(starts, offset, size);
    var out: seq<Byte>, position: int, last := [], offset, None;
    PrefixedTwice([], [], ReadFrom(starts, source, offset, end, None));
    hide Taken, Partition, BlockAt, End, ReadFrom, Prefixed;
    while position < end
      invariant 0 <= position
      invariant ReadFrom(starts, source, offset, end, None)
          == Prefixed(out, ReadFrom(starts, source, position, end, last))
      decreases end - position
    {
      ghost var piece := NextPiece(starts, source, position, end);
      Accumulated(starts, source, position, end, last, out);
      var index := BlockAt(starts, position).value;
      var data := source(index);
      if data.None? {
        return Failed(index);
      }
      var start := position - starts[index];
      var take := Taken(starts, data.value, index, position, end);
      if take == 0 {
        return TooShort(index);
      }
      assert piece == Got(index, data.value[start..start + take]);
      out := out + data.value[start..start + take];
      position := position + take;
      last := Some(index);
    }
    AllRead(starts, source, position, end, last, out);
    return Ok(out, last);
  }

  // ---- The right bytes ----

  /** Whatever a downloaded block holds, within the file, is the file's. */
  ghost predicate Agrees(starts: seq<nat>, source: Source, content: seq<Byte>, i: nat)
    requires i < |starts|
  {
    source(i).Some? ==>
      forall k :: 0 <= k < |source(i).value| && starts[i] + k < |content| ==>
          source(i).value[k] == content[starts[i] + k]
  }

  /** A block that some offset falls into; blocks of size 0 are never downloaded. */
  predicate Readable(starts: seq<nat>, i: nat) {
    i + 1 < |starts| && starts[i] < starts[i + 1]
  }

  ghost predicate RightAnswer(starts: seq<nat>, source: Source, content: seq<Byte>, offset: nat, size: nat)
    requires Partition(starts) && Length(starts) == |content|
  {
    var end := End(starts, offset, size);
    var r := ReadFrom(starts, source, offset, end, None);
    r.Ok? ==> r.bytes == if offset < end then content[offset..end] else []
  }

  lemma SliceAgrees(starts: seq<nat>, source: Source, content: seq<Byte>, index: nat, position: nat, take: nat)
    requires index < |starts| && starts[index] <= position && position + take <= |content|
    requires source(index).Some? && position - starts[index] + take <= |source(index).value|
    requires Agrees(starts, source, content, index)
    ensures var start := position - starts[index];
            source(index).value[start..start + take] == content[position..position + take]
  {
    var start := position - starts[index];
    var data := source(index).value;
    forall k | start <= k < start + take
      ensures data[k] == content[starts[index] + k]
    {
    }
  }

  lemma {:induction false} AgreeingBlocks(starts: seq<nat>, source: Source, content: seq<Byte>,
                                          position: nat, end: nat, last: Option<nat>)
    requires Partition(starts) && Length(starts) == |content| && position <= end <= |content|
    requires forall i :: Readable(starts, i) ==> Agrees(starts, source, content, i)
    requires ReadFrom(starts, source, position, end, last).Ok?
    ensures ReadFrom(starts, source, position, end, last).bytes == content[position..end]
    decreases end - position
  {
    hide Agrees, Partition, Taken;
    if position < end {
      var index := BlockAt(starts, position).value;
      var take := |NextPiece(starts, source, position, end).bytes|;
      AgreeingBlocks(starts, source, content, position + take, end, Some(index));
      assert Readable(starts, index);
      SliceAgrees(starts, source, content, index, position, take);
      assert content[position..end] == content[position..position + take] + content[position + take..end];
    }
  }

  lemma DisagreeingBlock(starts: seq<nat>, source: Source, content: seq<Byte>, i: nat, k: nat)
    requires Partition(starts) && Length(starts) == |content| && Readable(starts, i)
    requires source(i).Some? && k < |source(i).value| && starts[i] + k < |content|
    requires source(i).value[k] != content[starts[i] + k]
    ensures !RightAnswer(starts, source, content, starts[i], k + 1)
  {
    var end := End(starts, starts[i], k + 1);
    assert BlockAt(starts, starts[i]).value == i;
    var r := ReadFrom(starts, source, starts[i], end, None);
    assert Taken(starts, source(i).value, i, starts[i], end) == k + 1;
    assert ReadFrom(starts, source, end, end, Some(i)) == Ok([], Some(i));
    assert r.bytes == source(i).value[..k + 1] + [];
    assert r.bytes[k] == source(i).value[k] && content[starts[i]..end][k] == content[starts[i] + k];
  }

  /** Every successful read returns exactly the requested bytes of the file if and only if every block
      that can be read agrees with the file wherever it has bytes. A block that is too short does no harm;
      one that is too long does, unless its surplus repeats what follows. */
  lemma ReadsAreRight(starts: seq<nat>, source: Source, content: seq<Byte>)
    requires Partition(starts) && Length(starts) == |content|
    requires forall i :: Readable(starts, i) && source(i).Some? ==> |source(i).value| < U32_LIMIT
    ensures (forall offset: nat, size: nat :: size < U32_LIMIT ==> RightAnswer(starts, source, content, offset, size))
            <==> (forall i :: Readable(starts, i) ==> Agrees(starts, source, content, i))
  {
    if forall i :: Readable(starts, i) ==> Agrees(starts, source, content, i) {
      forall offset: nat, size: nat | size < U32_LIMIT
        ensures RightAnswer(starts, source, content, offset, size)
      {
        var end := End(starts, offset, size);
        if offset < end && ReadFrom(starts, source, offset, end, None).Ok? {
          AgreeingBlocks(starts, source, content, offset, end, None);
        }
      }
    } else {
      var i: nat :| Readable(starts, i) && !Agrees(starts, source, content, i);
      var k: nat :| k < |source(i).value| && starts[i] + k < |content| && source(i).value[k] != content[starts[i] + k];
      DisagreeingBlock(starts, source, content, i, k);
    }
  }

  // ---- Short blocks ----

  predicate NoneTooLong(starts: seq<nat>, source: Source) {
    forall i: nat :: i + 1 < |starts| && source(i).Some? ==> starts[i] + |source(i).value| <= starts[i + 1]
  }

  /** Block `i` has all the bytes a read up to `end` wants from it. */
  predicate Covers(starts: seq<nat>, source: Source, end: nat, i: nat)
    requires i + 1 < |starts|
  {
    source(i).Some? && starts[i] + |source(i).value| >= Min(end, starts[i + 1])
  }

  predicate Wanted(starts: seq<nat>, position: nat, end: nat, i: nat) {
    Readable(starts, i) && position < end && position < starts[i + 1] && starts[i] < end
  }

  ghost predicate AllCovered(starts: seq<nat>, source: Source, position: nat, end: nat) {
    forall i :: Wanted(starts, position, end, i) ==> Covers(starts, source, end, i)
  }

  lemma CoveredNext(starts: seq<nat>, source: Source, position: nat, end: nat, index: nat, take: nat)
    requires Partition(starts) && position < end <= Length(starts) && NoneTooLong(starts, source)
    requires BlockAt(starts, position) == Some(index) && source(index).Some?
    requires take == Taken(starts, source(index).value, index, position, end)
    ensures AllCovered(starts, source, position, end) <==> take > 0 && AllCovered(starts, source, position + take, end)
    ensures take > 0 && position + take == end ==> BlockAt(starts, end - 1) == Some(index)
  {
    assert Wanted(starts, position, end, index);
    if Covers(starts, source, end, index) {
      assert position + take == Min(end, starts[index + 1]);
      forall i | Wanted(starts, position, end, i) && i != index
        ensures Wanted(starts, position + take, end, i)
      {
      }
    } else if take > 0 {
      assert Wanted(starts, position + take, end, index);
    }
  }

  /** A read succeeds exactly when every block it wants was downloaded and is long enough; then the block
      remembered for read-ahead is the one holding the last byte. */
  lemma {:induction false} ShortBlocksReported(starts: seq<nat>, source: Source, position: nat, end: nat,
        last: Option<nat>)
    requires Partition(starts) && position <= end <= Length(starts) && NoneTooLong(starts, source)
    ensures var r := ReadFrom(starts, source, position, end, last);
            && (r.Ok? <==> AllCovered(starts, source, position, end))
            && (r.Ok? && position < end ==> r.last == BlockAt(starts, end - 1))
    decreases end - position
  {
    hide AllCovered, NoneTooLong, Partition, Taken;
    if position == end {
      NothingWanted(starts, source, end);
    } else {
      var index := BlockAt(starts, position).value;
      if source(index).Some? {
        var take := Taken(starts, source(index).value, index, position, end);
        CoveredNext(starts, source, position, end, index, take);
        if take > 0 {
          ShortBlocksReported(starts, source, position + take, end, Some(index));
          ReadDone(starts, source, end, end, Some(index));
        }
      } else {
        MissingBlock(starts, source, position, end, index);
      }
    }
  }

  lemma NothingWanted(starts: seq<nat>, source: Source, end: nat)
    requires Partition(starts)
    ensures AllCovered(starts, source, end, end)
  {
  }

  lemma MissingBlock(starts: seq<nat>, source: Source, position: nat, end: nat, index: nat)
    requires Partition(starts) && position < end <= Length(starts)
    requires BlockAt(starts, position) == Some(index) && source(index).None?
    ensures !AllCovered(starts, source, position, end)
  {
    assert Wanted(starts, position, end, index) && !Covers(starts, source, end, index);
  }
}
