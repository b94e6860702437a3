/** Reassembly of chunked document updates: pieces of several messages arrive interleaved
    with each other and with plain updates. */
module Chunks {
  import opened Bytes

  datatype Update = Update(content: seq<Byte>, version: int, timestamp: nat, author: string, uuid: string)

  /** The ASCII bytes of `update-chunk-header`. */
  const CHUNK_SIGNAL: seq<Byte> :=
    [117, 112, 100, 97, 116, 101, 45, 99, 104, 117, 110, 107, 45, 104, 101, 97, 100, 101, 114]
  const HEADER_LENGTH: nat := 23

  predicate IsChunk(content: seq<Byte>) {
    |content| >= HEADER_LENGTH && CHUNK_SIGNAL <= content
  }

  // ---- The merge ----

  /** The pieces of one message received so far, and how many it announced. */
  datatype Partial = Partial(total: Byte, chunks: map<nat, seq<Byte>>)

  datatype State = State(pending: map<Byte, Partial>, out: seq<Update>)

  /** The pieces below `n` in index order, skipping missing ones. */
  function Assembled(chunks: map<nat, seq<Byte>>, n: nat): seq<Byte> {
    if n == 0 then []
    else Assembled(chunks, n - 1) + if n - 1 in chunks then chunks[n - 1] else []
  }

  function Step(s: State, u: Update): State {
    if !IsChunk(u.content) then s.(out := s.out + [u])
    else
      var data := u.content[|CHUNK_SIGNAL|..];
      var version, id, total, index := data[0], data[1], data[2], data[3];
      if version != 0 then s
      else
        var entry := if id in s.pending then s.pending[id] else Partial(total, map[]);
        var filled := entry.(chunks := entry.chunks[index := u.content[HEADER_LENGTH..]]);
        // The piece count is compared as an 8-bit number.
        if |filled.chunks| % 256 == filled.total then
          State(s.pending - {id}, s.out + [u.(content := Assembled(filled.chunks, filled.total))])
        else
          s.(pending := s.pending[id := filled])
  }

  function Run(updates: seq<Update>): State {
    if updates == [] then State(map[], []) else Step(Run(updates[..|updates| - 1]), updates[|updates| - 1])
  }

  function Merged(updates: seq<Update>): seq<Update> {
    Run(updates).out
  }

  method Assemble(chunks: map<nat, seq<Byte>>, total: nat) returns (merged: seq<Byte>)
    ensures merged == Assembled(chunks, total)
  {
    merged := [];
    for i := 0 to total
      invariant merged == Assembled(chunks, i)
    {
      if i in chunks {
        merged := merged + chunks[i];
      }
    }
  }

  method MergeChunkedUpdates(updates: seq<Update>) returns (out: seq<Update>)
    ensures out == Merged(updates)
  {
    var pending: map<Byte, Partial> := map[];
    out := [];
    NoUpdates();
    for k := 0 to |updates|
      invariant State(pending, out) == Run(updates[..k])
    {
      hide Run, Assembled;
      RunMore(updates, k);
      var update := updates[k];
      if |update.content| < HEADER_LENGTH || !(CHUNK_SIGNAL <= update.content) {
        out := out + [update];
        continue;
      }
      var data := update.content[|CHUNK_SIGNAL|..];
      var id, total, index := data[1], data[2], data[3];
      if data[0] != 0 {
        continue;
      }
      var entry := if id in pending then pending[id] else Partial(total, map[]);
      var chunks := entry.chunks[index := update.content[HEADER_LENGTH..]];
      if |chunks| % 256 == entry.total {
        var merged := Assemble(chunks, entry.total);
        pending := pending - {id};
        out := out + [update.(content := merged)];
      } else {
        pending := pending[id := Partial(entry.total, chunks)];
      }
    }
    assert updates[..|updates|] == updates;
  }

  lemma NoUpdates()
    ensures Run([]) == State(map[], [])
  {
  }

  lemma RunMore(updates: seq<Update>, k: nat)
    requires k < |updates|
    ensures Run(updates[..k + 1]) == Step(Run(updates[..k]), updates[k])
  {
    assert updates[..k + 1][..k] == updates[..k];
  }

  // ---- What a sender may put on the wire ----

  datatype Message = Message(id: Byte, pieces: seq<seq<Byte>>)

  /** A plain update, or one piece of a message in a carrier that supplies the metadata. */
  datatype Event = Plain(update: Update) | Piece(message: nat, index: nat, carrier: Update)

  function Wire(messages: seq<Message>, e: Event): Update
    requires e.Piece? ==> e.message < |messages| && e.index < |messages[e.message].pieces| <= 255
  {
    match e
    case Plain(u) => u
    case Piece(m, i, carrier) =>
      var message := messages[m];
      carrier.(content := CHUNK_SIGNAL + [0, message.id, |message.pieces|, i] + message.pieces[i])
  }

  /** The indices of message `m` that have been sent. */
  function Received(events: seq<Event>, m: nat): set<nat> {
    if events == [] then {}
    else
      var last := events[|events| - 1];
      Received(events[..|events| - 1], m) + if last.Piece? && last.message == m then {last.index} else {}
  }

  predicate Complete(messages: seq<Message>, events: seq<Event>, m: nat)
    requires m < |messages|
  {
    forall i :: 0 <= i < |messages[m].pieces| ==> i in Received(events, m)
  }

  predicate Live(messages: seq<Message>, events: seq<Event>, m: nat)
    requires m < |messages|
  {
    Received(events, m) != {} && !Complete(messages, events, m)
  }

  /** `e` may follow `before`: a piece belongs to an unfinished message of 1 to 255 pieces (it may
      repeat one already sent) and no other unfinished message uses the same id. */
  ghost predicate MayFollow(messages: seq<Message>, before: seq<Event>, e: Event) {
    match e
    case Plain(u) => !IsChunk(u.content)
    case Piece(m, i, _) =>
      && m < |messages| && i < |messages[m].pieces| <= 255
      && !Complete(messages, before, m)
      && forall other :: 0 <= other < |messages| && other != m && messages[other].id == messages[m].id
                     ==> !Live(messages, before, other)
  }

  ghost predicate WellFormed(messages: seq<Message>, events: seq<Event>) {
    events != [] ==>
      && WellFormed(messages, events[..|events| - 1])
      && MayFollow(messages, events[..|events| - 1], events[|events| - 1])
  }

  ghost function OnWire(messages: seq<Message>, events: seq<Event>): seq<Update>
    requires WellFormed(messages, events)
  {
    if events == [] then []
    else OnWire(messages, events[..|events| - 1]) + [Wire(messages, events[|events| - 1])]
  }

  /** What the receiver should see: plain updates, and each message whole where it completes. */
  ghost function Expected(messages: seq<Message>, events: seq<Event>): seq<Update>
    requires WellFormed(messages, events)
  {
    if events == [] then []
    else
      var last := events[|events| - 1];
      Expected(messages, events[..|events| - 1]) +
      match last
      case Plain(u) => [u]
      case Piece(m, _, carrier) =>
        if Complete(messages, events, m) then [carrier.(content := Flat(messages[m].pieces))] else []
  }

  // ---- Correctness of the merge ----

  ghost predicate Holds(p: Partial, message: Message, received: set<nat>) {
    && p.total == |message.pieces|
    && p.chunks.Keys == received
    && forall i :: i in received ==> i < |message.pieces| && p.chunks[i] == message.pieces[i]
  }

  /** The pending entries are exactly the unfinished messages. */
  ghost predicate Tracks(messages: seq<Message>, events: seq<Event>, pending: map<Byte, Partial>) {
    && (forall m :: 0 <= m < |messages| && Live(messages, events, m) ==>
          messages[m].id in pending && Holds(pending[messages[m].id], messages[m], Received(events, m)))
    && (forall id :: id in pending ==>
          exists m :: 0 <= m < |messages| && Live(messages, events, m) && messages[m].id == id)
  }

  lemma {:induction false} SizeOfPrefix(n: nat, s: set<nat>)
    requires forall i :: i in s ==> i < n
    ensures |s| <= n
    ensures |s| == n <==> forall i :: 0 <= i < n ==> i in s
  {
    if n > 0 {
      SizeOfPrefix(n - 1, s - {n - 1});
      if n - 1 in s {
        assert s == (s - {n - 1}) + {n - 1};
      } else {
        assert s - {n - 1} == s;
      }
    } else {
      assert s == {};
    }
  }

  lemma {:induction false} AssembledIsFlat(chunks: map<nat, seq<Byte>>, pieces: seq<seq<Byte>>, n: nat)
    requires n <= |pieces|
    requires forall i :: 0 <= i < n ==> i in chunks && chunks[i] == pieces[i]
    ensures Assembled(chunks, n) == Flat(pieces[..n])
  {
    if n > 0 {
      AssembledIsFlat(chunks, pieces, n - 1);
      FlatSnoc(pieces[..n - 1], pieces[n - 1]);
      assert pieces[..n] == pieces[..n - 1] + [pieces[n - 1]];
    }
  }

  lemma {:induction false} ReceivedInRange(messages: seq<Message>, events: seq<Event>, m: nat)
    requires WellFormed(messages, events) && m < |messages|
    ensures forall i :: i in Received(events, m) ==> i < |messages[m].pieces|
    decreases |events|
  {
    if events != [] {
      ReceivedInRange(messages, events[..|events| - 1], m);
    }
  }

  lemma WireFields(messages: seq<Message>, e: Event)
    requires e.Piece? && e.message < |messages| && e.index < |messages[e.message].pieces| <= 255
    ensures var content := Wire(messages, e).content;
            && IsChunk(content) && content[HEADER_LENGTH..] == messages[e.message].pieces[e.index]
            && content[19] == 0 && content[20] == messages[e.message].id
            && content[21] == |messages[e.message].pieces| && content[22] == e.index
  {
  }

  lemma ReceivedAfter(before: seq<Event>, e: Event, m: nat)
    ensures Received(before + [e], m) == Received(before, m) + if e.Piece? && e.message == m then {e.index} else {}
  {
    assert (before + [e])[..|before|] == before;
  }

  function EntryFor(pending: map<Byte, Partial>, message: Message): Partial
    requires |message.pieces| <= 255
  {
    if message.id in pending then pending[message.id] else Partial(|message.pieces|, map[])
  }

  function Filled(entry: Partial, message: Message, i: nat): Partial
    requires i < |message.pieces|
  {
    entry.(chunks := entry.chunks[i := message.pieces[i]])
  }

  /** What a step does with a piece of a message. */
  lemma StepOnPiece(messages: seq<Message>, e: Event, s: State)
    requires e.Piece? && e.message < |messages| && e.index < |messages[e.message].pieces| <= 255
    ensures var message := messages[e.message];
            var filled := Filled(EntryFor(s.pending, message), message, e.index);
            Step(s, Wire(messages, e)) ==
              if |filled.chunks| % 256 == filled.total
              then State(s.pending - {message.id},
                  s.out + [e.carrier.(content := Assembled(filled.chunks, filled.total))])
              else s.(pending := s.pending[message.id := filled])
  {
    WireFields(messages, e);
  }

  /** A pending entry belongs to the message itself, or the message is new. */
  lemma EntryHolds(messages: seq<Message>, before: seq<Event>, m: nat, pending: map<Byte, Partial>)
    requires m < |messages| && |messages[m].pieces| <= 255
    requires Tracks(messages, before, pending) && !Complete(messages, before, m)
    requires forall other :: 0 <= other < |messages| && other != m && messages[other].id == messages[m].id
                         ==> !Live(messages, before, other)
    ensures Holds(EntryFor(pending, messages[m]), messages[m], Received(before, m))
  {
    assert messages[m].id in pending <==> Live(messages, before, m);
  }

  lemma FilledEntry(entry: Partial, message: Message, received: set<nat>, i: nat)
    requires i < |message.pieces| <= 255 && Holds(entry, message, received)
    ensures Holds(Filled(entry, message, i), message, received + {i})
    ensures Filled(entry, message, i).chunks.Keys == received + {i}
        && Filled(entry, message, i).total == |message.pieces|
    ensures forall k :: k in received + {i} ==>
        k < |message.pieces| && Filled(entry, message, i).chunks[k] == message.pieces[k]
  {
  }

  /** The 8-bit comparison of the piece count sees exactly when all pieces are there. */
  lemma FilledHolds(entry: Partial, message: Message, received: set<nat>, i: nat)
    requires i < |message.pieces| <= 255 && Holds(entry, message, received)
    ensures var filled := Filled(entry, message, i);
            && Holds(filled, message, received + {i})
            && (|filled.chunks| % 256 == filled.total <==>
                forall k :: 0 <= k < |message.pieces| ==> k in received + {i})
            && (|filled.chunks| % 256 == filled.total ==>
                Assembled(filled.chunks, filled.total) == Flat(message.pieces))
  {
    hide Assembled, Flat, Holds, Filled;
    var filled, n := Filled(entry, message, i), |message.pieces|;
    FilledEntry(entry, message, received, i);
    SizeOfPrefix(n, received + {i});
    var size := |filled.chunks.Keys|;
    assert size <= 255 && |filled.chunks| == size;
    assert |filled.chunks| % 256 == size;
    AllPieces(filled.chunks, message.pieces, received + {i});
  }

  lemma AllPieces(chunks: map<nat, seq<Byte>>, pieces: seq<seq<Byte>>, received: set<nat>)
    requires chunks.Keys == received && forall k :: k in received ==> k < |pieces| && chunks[k] == pieces[k]
    ensures (forall k :: 0 <= k < |pieces| ==> k in received) ==> Assembled(chunks, |pieces|) == Flat(pieces)
  {
    if forall k :: 0 <= k < |pieces| ==> k in received {
      AssembledIsFlat(chunks, pieces, |pieces|);
      assert pieces[..|pieces|] == pieces;
    }
  }

  /** A piece of a message, after `before`, whether or not it completes the message. */
  lemma PieceStep(messages: seq<Message>, before: seq<Event>, e: Event, s: State)
    requires WellFormed(messages, before) && WellFormed(messages, before + [e]) && e.Piece?
    requires MayFollow(messages, before, e) && Tracks(messages, before, s.pending)
    ensures var next := Step(s, Wire(messages, e));
            && Tracks(messages, before + [e], next.pending)
            && next.out == s.out + if Complete(messages, before + [e], e.message)
                                   then [e.carrier.(content := Flat(messages[e.message].pieces))] else []
  {
    hide Received, Step, Wire, Assembled, Flat, WellFormed, Tracks, Holds, Filled, EntryFor, Live;
    var m, i := e.message, e.index;
    var message, events := messages[m], before + [e];
    forall k: nat
      ensures Received(events, k) == Received(before, k) + if k == m then {i} else {}
    {
      ReceivedAfter(before, e, k);
    }
    EntryHolds(messages, before, m, s.pending);
    var filled := Filled(EntryFor(s.pending, message), message, i);
    FilledHolds(EntryFor(s.pending, message), message, Received(before, m), i);
    StepOnPiece(messages, e, s);
    assert Complete(messages, events, m) <==> |filled.chunks| % 256 == filled.total;
    assert i in Received(events, m);
    var next := Step(s, Wire(messages, e));
    assert next.pending - {message.id} == s.pending - {message.id};
    LiveAfterPiece(messages, events, m);
    StillTracked(messages, before, events, m, s.pending, next.pending);
  }

  lemma LiveAfterPiece(messages: seq<Message>, events: seq<Event>, m: nat)
    requires m < |messages| && Received(events, m) != {}
    ensures Live(messages, events, m) == !Complete(messages, events, m)
  {
  }

  lemma SameReceivedSameLive(messages: seq<Message>, before: seq<Event>, events: seq<Event>, m: nat)
    requires m < |messages| && Received(events, m) == Received(before, m)
    ensures Live(messages, events, m) == Live(messages, before, m)
  {
  }

  /** Only message `m` moved, and its entry moved with it. */
  lemma StillTracked(messages: seq<Message>, before: seq<Event>, events: seq<Event>, m: nat,
                     pending: map<Byte, Partial>, next: map<Byte, Partial>)
    requires m < |messages| && Tracks(messages, before, pending)
    requires forall other: nat :: other != m ==> Received(events, other) == Received(before, other)
    requires forall other :: 0 <= other < |messages| && other != m && messages[other].id == messages[m].id
                         ==> !Live(messages, before, other)
    requires next - {messages[m].id} == pending - {messages[m].id}
    requires messages[m].id in next <==> Live(messages, events, m)
    requires messages[m].id in next ==> Holds(next[messages[m].id], messages[m], Received(events, m))
    ensures Tracks(messages, events, next)
  {
    hide Received, Live, Holds;
    var rest := pending - {messages[m].id};
    forall k | 0 <= k < |messages| && Live(messages, events, k)
      ensures messages[k].id in next && Holds(next[messages[k].id], messages[k], Received(events, k))
    {
      if k != m {
        SameReceivedSameLive(messages, before, events, k);
        assert messages[k].id in rest && rest[messages[k].id] == pending[messages[k].id];
      }
    }
    forall id | id in next
      ensures exists k :: 0 <= k < |messages| && Live(messages, events, k) && messages[k].id == id
    {
      if id == messages[m].id {
        assert Live(messages, events, m);
      } else {
        assert id in rest;
        var k :| 0 <= k < |messages| && Live(messages, before, k) && messages[k].id == id;
        SameReceivedSameLive(messages, before, events, k);
      }
    }
  }

  /** For every interleaving a sender may produce, the merge yields exactly what it should. */
  lemma {:induction false} MergeIsCorrect(messages: seq<Message>, events: seq<Event>)
    requires WellFormed(messages, events)
    ensures Merged(OnWire(messages, events)) == Expected(messages, events)
    ensures Tracks(messages, events, Run(OnWire(messages, events)).pending)
    decreases |events|
  {
    if events == [] {
    } else {
      var before, last := events[..|events| - 1], events[|events| - 1];
      MergeIsCorrect(messages, before);
      var wire := OnWire(messages, events);
      assert wire[..|wire| - 1] == OnWire(messages, before);
      assert before + [last] == events;
      var s := Run(OnWire(messages, before));
      if last.Piece? {
        PieceStep(messages, before, last, s);
      } else {
        forall m | 0 <= m < |messages|
          ensures Received(events, m) == Received(before, m)
        {
        }
        assert forall m :: 0 <= m < |messages| ==> Live(messages, events, m) == Live(messages, before, m);
      }
    }
  }

  // ---- Every message comes out once ----

  lemma {:induction false} ReceivedGrows(events: seq<Event>, k: nat, m: nat)
    requires k <= |events|
    ensures Received(events[..k], m) <= Received(events, m)
    decreases |events|
  {
    if k == |events| {
      assert events[..k] == events;
    } else {
      ReceivedGrows(events[..|events| - 1], k, m);
      assert events[..|events| - 1][..k] == events[..k];
    }
  }

  lemma {:induction false} PrefixWellFormed(messages: seq<Message>, events: seq<Event>, k: nat)
    requires WellFormed(messages, events) && k <= |events|
    ensures WellFormed(messages, events[..k])
    ensures k < |events| ==> MayFollow(messages, events[..k], events[k])
    decreases |events|
  {
    if k == |events| {
      assert events[..k] == events;
    } else {
      PrefixWellFormed(messages, events[..|events| - 1], k);
      assert events[..|events| - 1][..k] == events[..k];
    }
  }

  /** Position `t` is where message `m` comes out. */
  ghost predicate EmittedAt(messages: seq<Message>, events: seq<Event>, m: nat, t: nat)
    requires m < |messages|
  {
    t < |events| && events[t].Piece? && events[t].message == m && Complete(messages, events[..t + 1], m)
  }

  /** A message whose pieces are all sent comes out at exactly one position. */
  lemma EmittedOnce(messages: seq<Message>, events: seq<Event>, m: nat)
    requires WellFormed(messages, events) && m < |messages| && |messages[m].pieces| > 0
    requires Complete(messages, events, m)
    ensures exists t: nat :: EmittedAt(messages, events, m, t)
    ensures forall t: nat, u: nat :: EmittedAt(messages, events, m, t) && EmittedAt(messages, events, m, u) ==> t == u
  {
    FirstComplete(messages, events, m);
    forall t: nat, u: nat | EmittedAt(messages, events, m, t) && EmittedAt(messages, events, m, u)
      ensures t >= u
    {
      if t < u {
        assert events[..u][..t + 1] == events[..t + 1];
        PrefixWellFormed(messages, events, u);
        ReceivedGrows(events[..u], t + 1, m);
      }
    }
  }

  lemma {:induction false} FirstComplete(messages: seq<Message>, events: seq<Event>, m: nat)
    requires m < |messages| && |messages[m].pieces| > 0 && Complete(messages, events, m)
    ensures exists t: nat :: EmittedAt(messages, events, m, t)
    decreases |events|
  {
    assert 0 in Received(events, m);
    var n := |events| - 1;
    if Complete(messages, events[..n], m) {
      FirstComplete(messages, events[..n], m);
      var t: nat :| EmittedAt(messages, events[..n], m, t);
      assert events[..n][..t + 1] == events[..t + 1];
      assert EmittedAt(messages, events, m, t);
    } else {
      assert Received(events, m) != Received(events[..n], m);
      assert events[..n + 1] == events;
      assert EmittedAt(messages, events, m, n);
    }
  }
}
