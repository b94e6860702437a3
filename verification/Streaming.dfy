/** Readers and read-ahead tasks sharing one streamed file. Every lock section of the code is one
    atomic step: looking in the cache, claiming a block, storing a fetched block, releasing it. */
module Streaming {
  import opened Collections
  import opened StreamCache
  import opened Wrappers

  datatype File<!D> = File(blockCount: nat, content: nat -> D)

  /** Where a thread is. The last four belong to a spawned download, the others to a reader;
      `ahead` marks the reader's final read-ahead. An absent result is a failed download. */
  datatype Thread<D> =
    | Idle
    | Looking(index: nat, ahead: bool)
    | Claiming(index: nat, ahead: bool)
    | Asleep(index: nat)
    | Spawning(index: nat, ahead: bool)
    | Waiting(index: nat, task: nat)
    | Returned(index: nat, result: Option<D>)
    | Fetching(index: nat)
    | Storing(index: nat, data: D)
    | Releasing(index: nat, result: Option<D>)
    | Ended(index: nat, result: Option<D>)

  datatype State<D> = State(
    threads: map<nat, Thread<D>>,
    blocks: seq<Entry<D>>,
    fetching: set<nat>,
    history: seq<nat>)

  datatype Step =
    | Open(thread: nat)
    | Call(thread: nat, index: nat, ahead: bool)
    | Look(thread: nat)
    | Claim(thread: nat)
    | Wake(thread: nat)
    | Spawn(thread: nat, task: nat)
    | Receive(thread: nat)
    | Arrive(thread: nat, ok: bool)
    | Store(thread: nat)
    | Release(thread: nat)

  /** Where a cached block is; the queue's length when it is not there. */
  ghost function Position<D>(blocks: seq<Entry<D>>, index: nat): (p: nat)
    ensures p <= |blocks|
    ensures p < |blocks| ==> blocks[p].index == index
    ensures p == |blocks| ==> index !in Indices(blocks)
  {
    if exists k :: 0 <= k < |blocks| && blocks[k].index == index then
      var k :| 0 <= k < |blocks| && blocks[k].index == index; k
    else |blocks|
  }

  /** The state after `step`, or nothing where the step is not enabled. */
  ghost function Next<D>(f: File<D>, s: State<D>, step: Step): Option<State<D>> {
    if step.Open? then
      if step.thread in s.threads then None
      else Some(s.(threads := s.threads[step.thread := Idle]))
    else if step.thread !in s.threads then None
    else
      var t := step.thread;
      var pc := s.threads[t];
      match step
      case Call(_, index, ahead) =>
        if (pc.Idle? || pc.Returned?) && index < f.blockCount then Some(At(s, t, Looking(index, ahead))) else None
      case Look(_) =>
        if !pc.Looking? then None
        else
          var p := Position(s.blocks, pc.index);
          if p == |s.blocks| then Some(At(s, t, Claiming(pc.index, pc.ahead)))
          else
            var found := if pc.ahead then Idle else Returned(pc.index, Some(s.blocks[p].data));
            Some(At(s, t, found).(blocks := Touched(s.blocks, p), history := s.history + [pc.index]))
      case Claim(_) =>
        if !pc.Claiming? then None
        else if pc.index !in s.fetching then
          Some(At(s, t, Spawning(pc.index, pc.ahead)).(fetching := s.fetching + {pc.index}))
        else Some(At(s, t, if pc.ahead then Idle else Asleep(pc.index)))
      case Wake(_) =>
        if pc.Asleep? then Some(At(s, t, Looking(pc.index, false))) else None
      case Spawn(_, task) =>
        if pc.Spawning? && task !in s.threads then
          Some(At(At(s, task, Fetching(pc.index)), t, if pc.ahead then Idle else Waiting(pc.index, task)))
        else None
      case Receive(_) =>
        if pc.Waiting? && pc.task in s.threads && s.threads[pc.task].Ended? then
          Some(At(s, t, Returned(pc.index, s.threads[pc.task].result)))
        else None
      case Arrive(_, ok) =>
        if pc.Fetching? then
          Some(At(s, t, if ok then Storing(pc.index, f.content(pc.index)) else Releasing(pc.index, None)))
        else None
      case Store(_) =>
        if !pc.Storing? then None
        else
          var used := if pc.index in Indices(s.blocks) then s.history else s.history + [pc.index];
          Some(At(s, t, Releasing(pc.index, Some(pc.data)))
               .(blocks := Remembered(s.blocks, pc.index, pc.data), history := used))
      case Release(_) =>
        if pc.Releasing? then
          Some(At(s, t, Ended(pc.index, pc.result)).(fetching := s.fetching - {pc.index}))
        else None
  }

  function At<D>(s: State<D>, t: nat, pc: Thread<D>): State<D> {
    s.(threads := s.threads[t := pc])
  }

  function Initial<D>(): State<D> {
    State(map[], [], {}, [])
  }

  ghost function Run<D>(f: File<D>, steps: seq<Step>): Option<State<D>> {
    if steps == [] then Some(Initial())
    else
      var before := Run(f, steps[..|steps| - 1]);
      if before.None? then None else Next(f, before.value, steps[|steps| - 1])
  }

  // ---- What every run keeps ----

  /** The thread is responsible for a claimed block. */
  predicate Owning<D>(pc: Thread<D>) {
    pc.Spawning? || pc.Fetching? || pc.Storing? || pc.Releasing?
  }

  /** Which block each responsible thread has claimed. */
  ghost function Owners<D>(threads: map<nat, Thread<D>>): map<nat, nat> {
    map t | t in threads && Owning(threads[t]) :: threads[t].index
  }

  /** The in-flight set is exactly the set of owned blocks, each owned by one thread. */
  ghost predicate Exclusive(owners: map<nat, nat>, fetching: set<nat>) {
    && (forall t, u :: t in owners && u in owners && owners[t] == owners[u] ==> t == u)
    && (forall t :: t in owners ==> owners[t] in fetching)
    && (forall i :: i in fetching ==> i in owners.Values)
  }

  ghost predicate CacheSound<D>(f: File<D>, s: State<D>) {
    && Indices(s.blocks) == LastSix(Recency(s.history))
    && forall k :: 0 <= k < |s.blocks| ==> s.blocks[k].data == f.content(s.blocks[k].index)
  }

  ghost predicate Correct<D>(f: File<D>, index: nat, result: Option<D>) {
    result.Some? ==> result.value == f.content(index)
  }

  /** A reader waits for a download of the block it asked for, and all data is the file's. */
  ghost predicate ThreadSound<D>(f: File<D>, s: State<D>, pc: Thread<D>) {
    match pc
    case Waiting(index, task) =>
      && task in s.threads
      && var other := s.threads[task];
      && (other.Fetching? || other.Storing? || other.Releasing? || other.Ended?)
      && other.index == index
    case Storing(index, data) => data == f.content(index)
    case Returned(index, result) => Correct(f, index, result)
    case Releasing(index, result) => Correct(f, index, result)
    case Ended(index, result) => Correct(f, index, result)
    case _ => true
  }

  ghost predicate Invariant<D>(f: File<D>, s: State<D>) {
    && Exclusive(Owners(s.threads), s.fetching)
    && CacheSound(f, s)
    && forall t :: t in s.threads ==> ThreadSound(f, s, s.threads[t])
  }

  lemma OneOwnerMoves(owners: map<nat, nat>, fetching: set<nat>, t: nat, u: nat, i: nat)
    requires Exclusive(owners, fetching)
    ensures t !in owners && i !in fetching ==> Exclusive(owners[t := i], fetching + {i})
    ensures t in owners ==> Exclusive(owners - {t}, fetching - {owners[t]})
    ensures t in owners && u !in owners ==> Exclusive((owners - {t})[u := owners[t]], fetching)
  {
    if t !in owners {
      forall j | j in fetching + {i}
        ensures j in owners[t := i].Values
      {
        if j in fetching {
          var w :| w in owners && owners[w] == j;
          assert owners[t := i][w] == j;
        } else {
          assert owners[t := i][t] == j;
        }
      }
    } else {
      forall j | j in fetching && j != owners[t]
        ensures j in (owners - {t}).Values
      {
        var w :| w in owners && owners[w] == j;
        assert (owners - {t})[w] == j;
      }
      if u !in owners {
        var moved := (owners - {t})[u := owners[t]];
        forall j | j in fetching
          ensures j in moved.Values
        {
          var w :| w in owners && owners[w] == j;
          assert moved[if w == t then u else w] == j;
        }
      }
    }
  }

  lemma OwnersAfter<D>(threads: map<nat, Thread<D>>, t: nat, pc: Thread<D>)
    ensures Owners(threads[t := pc]) == if Owning(pc) then Owners(threads)[t := pc.index] else Owners(threads) - {t}
  {
  }

  lemma ExclusiveKept<D>(f: File<D>, s: State<D>, step: Step)
    requires Exclusive(Owners(s.threads), s.fetching) && Next(f, s, step).Some?
    ensures Exclusive(Owners(Next(f, s, step).value.threads), Next(f, s, step).value.fetching)
  {
    hide Touched, Remembered, Position, Exclusive;
    var n := Next(f, s, step).value;
    var t, owners := step.thread, Owners(s.threads);
    OwnersAfter(s.threads, t, n.threads[t]);
    assert t in owners ==> owners[t := owners[t]] == owners;
    assert t !in owners ==> owners - {t} == owners;
    var task := if step.Spawn? then step.task else 0;
    OneOwnerMoves(owners, s.fetching, t, task,
        if t in s.threads && s.threads[t].Claiming? then s.threads[t].index else 0);
    if step.Spawn? {
      OwnersAfter(s.threads, task, Fetching(s.threads[t].index));
      OwnersAfter(s.threads[task := Fetching(s.threads[t].index)], t, n.threads[t]);
      assert owners[task := owners[t]] - {t} == (owners - {t})[task := owners[t]];
    }
  }

  lemma CacheSoundKept<D>(f: File<D>, s: State<D>, step: Step)
    requires CacheSound(f, s) && Next(f, s, step).Some?
    requires forall t :: t in s.threads ==> ThreadSound(f, s, s.threads[t])
    ensures CacheSound(f, Next(f, s, step).value)
  {
    hide LastSix, Recency;
    if step.Look? {
      var p := Position(s.blocks, s.threads[step.thread].index);
      if p < |s.blocks| {
        HitKeepsOrder(s.history, s.blocks, p);
      }
    } else if step.Store? && s.threads[step.thread].index !in Indices(s.blocks) {
      ArrivalKeepsOrder(s.history, s.blocks, s.threads[step.thread].index, s.threads[step.thread].data);
    }
  }

  lemma ThreadsSoundKept<D>(f: File<D>, s: State<D>, step: Step, t: nat)
    requires Invariant(f, s) && Next(f, s, step).Some?
    requires t in Next(f, s, step).value.threads
    ensures ThreadSound(f, Next(f, s, step).value, Next(f, s, step).value.threads[t])
  {
    hide LastSix, Recency, Exclusive, Owners, Touched, Remembered;
    var n := Next(f, s, step).value;
    if t in s.threads {
      assert ThreadSound(f, s, s.threads[t]);
    }
    assert step.thread in s.threads ==> ThreadSound(f, s, s.threads[step.thread]);
  }

  lemma InvariantKept<D>(f: File<D>, s: State<D>, step: Step)
    requires Invariant(f, s) && Next(f, s, step).Some?
    ensures Invariant(f, Next(f, s, step).value)
  {
    hide CacheSound, Exclusive, ThreadSound, Next, Owners;
    ExclusiveKept(f, s, step);
    CacheSoundKept(f, s, step);
    forall t | t in Next(f, s, step).value.threads
      ensures ThreadSound(f, Next(f, s, step).value, Next(f, s, step).value.threads[t])
    {
      ThreadsSoundKept(f, s, step, t);
    }
  }

  /** In every run, however readers and read-ahead tasks interleave: the in-flight set is exactly the
      set of owned blocks, no block is being fetched twice, the cache is the last six distinct blocks
      used, least recent first, and everything cached or returned is the file's data. */
  lemma {:induction false} EveryRun<D>(f: File<D>, steps: seq<Step>)
    requires Run(f, steps).Some?
    ensures Invariant(f, Run(f, steps).value)
    ensures var s := Run(f, steps).value; |s.blocks| <= 6 && Distinct(Indices(s.blocks))
  {
    if steps != [] {
      EveryRun(f, steps[..|steps| - 1]);
      InvariantKept(f, Run(f, steps[..|steps| - 1]).value, steps[|steps| - 1]);
    }
    var s := Run(f, steps).value;
    BoundedAndDistinct(s.history, s.blocks);
  }

  // ---- No claim outlives its owner's next four steps ----

  /** Steps left before the owner of a claim gives it up. */
  function Remaining<D>(pc: Thread<D>): nat {
    match pc
    case Spawning(_, _) => 4
    case Fetching(_) => 3
    case Storing(_, _) => 2
    case Releasing(_, _) => 1
    case _ => 0
  }

  /** The one kind of step an owner can take; `task` is any unused thread id. */
  function OwnStep<D>(pc: Thread<D>, t: nat, task: nat, ok: bool): Step
    requires Owning(pc)
  {
    match pc
    case Spawning(_, _) => Spawn(t, task)
    case Fetching(_) => Arrive(t, ok)
    case Storing(_, _) => Store(t)
    case Releasing(_, _) => Release(t)
  }

  /** No deadlock: whoever a thread waits for can move. A sleeping or waiting reader's block is either
      free to claim, already delivered, or owned by a thread whose next step is enabled, whatever the
      others do, and brings its release one step closer. */
  lemma OwnersProgress<D>(f: File<D>, s: State<D>, t: nat, task: nat, ok: bool)
    requires Invariant(f, s) && t in s.threads && task !in s.threads
    ensures s.threads[t].Asleep? && s.threads[t].index in s.fetching ==>
              exists u :: u in s.threads && Owning(s.threads[u]) && s.threads[u].index == s.threads[t].index
    ensures s.threads[t].Waiting? ==>
              || Owning(s.threads[s.threads[t].task])
              || Next(f, s, Receive(t)).Some?
    ensures Owning(s.threads[t]) ==>
              && var n := Next(f, s, OwnStep(s.threads[t], t, task, ok));
              && n.Some?
              && var heir := if s.threads[t].Spawning? then task else t;
              && heir in n.value.threads
              && Remaining(n.value.threads[heir]) < Remaining(s.threads[t])
  {
    hide Touched, Remembered, LastSix, Recency;
    assert ThreadSound(f, s, s.threads[t]);
    var owners := Owners(s.threads);
    if s.threads[t].Asleep? && s.threads[t].index in s.fetching {
      var u :| u in owners && owners[u] == s.threads[t].index;
      assert u in s.threads && Owning(s.threads[u]);
    }
  }

  // ---- A block can be downloaded again while it is cached ----

  /** Two readers have both just missed block 0. */
  lemma BothMissed<D>(f: File<D>) returns (steps: seq<Step>, s: State<D>)
    requires f.blockCount > 0
    ensures Run(f, steps) == Some(s)
    ensures s == State(map[0 := Claiming(0, false), 1 := Claiming(0, false)], [], {}, [])
  {
    steps, s := [], Initial();
    RunEmpty(f);
    hide Run;
    steps, s := Extend(f, steps, s, Open(0), map[0 := Idle], [], {}, []);
    steps, s := Extend(f, steps, s, Open(1), map[0 := Idle, 1 := Idle], [], {}, []);
    steps, s := Extend(f, steps, s, Call(0, 0, false), map[0 := Looking(0, false), 1 := Idle], [], {}, []);
    steps, s := Extend(f, steps, s, Look(0), map[0 := Claiming(0, false), 1 := Idle], [], {}, []);
    steps, s := Extend(f, steps, s, Call(1, 0, false), map[0 := Claiming(0, false), 1 := Looking(0, false)], [], {},
        []);
    steps, s := Extend(f, steps, s, Look(1), map[0 := Claiming(0, false), 1 := Claiming(0, false)], [], {}, []);
  }

  /** The second reader claims the block and its download is delivered. */
  lemma Delivered<D>(f: File<D>) returns (steps: seq<Step>, s: State<D>)
    requires f.blockCount > 0
    ensures Run(f, steps) == Some(s)
    ensures s == State(map[0 := Claiming(0, false), 1 := Waiting(0, 2), 2 := Releasing(0, Some(f.content(0)))],
                       [Entry(0, f.content(0))], {0}, [0])
  {
    steps, s := BothMissed(f);
    hide Run;
    var late := Claiming(0, false);
    steps, s := Extend(f, steps, s, Claim(1), map[0 := late, 1 := Spawning(0, false)], [], {0}, []);
    steps, s := Extend(f, steps, s, Spawn(1, 2), map[0 := late, 1 := Waiting(0, 2), 2 := Fetching(0)], [], {0}, []);
    steps, s := Extend(f, steps, s, Arrive(2, true),
                       map[0 := late, 1 := Waiting(0, 2), 2 := Storing(0, f.content(0))], [], {0}, []);
    steps, s := Extend(f, steps, s, Store(2),
                       map[0 := late, 1 := Waiting(0, 2), 2 := Releasing(0, Some(f.content(0)))],
                       [Entry(0, f.content(0))], {0}, [0]);
  }

  /** The claim does not look in the cache again, so a block delivered between a reader's look and its
      claim is downloaded once more. */
  lemma CachedBlockClaimed<D>(f: File<D>) returns (steps: seq<Step>, s: State<D>)
    requires f.blockCount > 0
    ensures Run(f, steps) == Some(s)
    ensures Indices(s.blocks) == [0]
    ensures 0 in s.threads && s.threads[0] == Spawning(0, false)
  {
    steps, s := Delivered(f);
    hide Run, Remembered;
    var data, late := f.content(0), Claiming(0, false);
    steps, s := Extend(f, steps, s, Release(2), map[0 := late, 1 := Waiting(0, 2), 2 := Ended(0, Some(data))],
                       [Entry(0, data)], {}, [0]);
    steps, s := Extend(f, steps, s, Claim(0),
                       map[0 := Spawning(0, false), 1 := Waiting(0, 2), 2 := Ended(0, Some(data))],
                       [Entry(0, data)], {0}, [0]);
  }

  lemma RunEmpty<D>(f: File<D>)
    ensures Run(f, []) == Some(Initial())
  {
  }

  lemma Extend<D>(f: File<D>, steps: seq<Step>, s: State<D>, step: Step,
                  threads: map<nat, Thread<D>>, blocks: seq<Entry<D>>, fetching: set<nat>, history: seq<nat>)
    returns (longer: seq<Step>, n: State<D>)
    requires Run(f, steps) == Some(s)
    requires var n := Next(f, s, step);
             && n.Some? && n.value.threads == threads && n.value.blocks == blocks
             && n.value.fetching == fetching && n.value.history == history
    ensures longer == steps + [step] && n == State(threads, blocks, fetching, history)
    ensures Run(f, longer) == Some(n)
  {
    longer, n := steps + [step], State(threads, blocks, fetching, history);
    assert longer[..|steps|] == steps;
  }

  /** The step delivers block `i` to the cache. */
  ghost predicate Delivers<D>(f: File<D>, steps: seq<Step>, j: nat, i: nat) {
    && j < |steps| && steps[j].Store?
    && var s := Run(f, steps[..j]);
    && s.Some? && steps[j].thread in s.value.threads
    && s.value.threads[steps[j].thread].Storing? && s.value.threads[steps[j].thread].index == i
  }

  ghost predicate DeliveredSinceItsLook<D>(f: File<D>, steps: seq<Step>, t: nat, i: nat, j: nat) {
    && Delivers(f, steps, j, i)
    && forall k :: j <= k < |steps| ==> steps[k].thread != t
  }

  /** And that is the only way: a thread about to claim a cached block looked before its delivery. */
  lemma {:induction false} OnlyWhenDeliveredSinceItsLook<D>(f: File<D>, steps: seq<Step>, t: nat)
    requires Run(f, steps).Some?
    requires var s := Run(f, steps).value;
             t in s.threads && s.threads[t].Claiming? && s.threads[t].index in Indices(s.blocks)
    ensures exists j: nat :: DeliveredSinceItsLook(f, steps, t, Run(f, steps).value.threads[t].index, j)
  {
    hide Next, DeliveredSinceItsLook;
    var earlier, step := steps[..|steps| - 1], steps[|steps| - 1];
    var b, s := Run(f, earlier).value, Run(f, steps).value;
    var i := s.threads[t].index;
    ClaimingAfterLook(f, b, step, t);
    if i in Indices(b.blocks) {
      OnlyWhenDeliveredSinceItsLook(f, earlier, t);
      var j: nat :| DeliveredSinceItsLook(f, earlier, t, i, j);
      StillDelivered(f, steps, t, i, j);
    } else {
      assert steps[..|steps| - 1] == earlier;
      assert Delivers(f, steps, |steps| - 1, i);
      JustDelivered(f, steps, t, i);
    }
  }

  lemma StillDelivered<D>(f: File<D>, steps: seq<Step>, t: nat, i: nat, j: nat)
    requires steps != [] && DeliveredSinceItsLook(f, steps[..|steps| - 1], t, i, j) && steps[|steps| - 1].thread != t
    ensures DeliveredSinceItsLook(f, steps, t, i, j)
  {
    hide Run;
    var earlier := steps[..|steps| - 1];
    assert steps[..j] == earlier[..j];
    forall k | j <= k < |steps|
      ensures steps[k].thread != t
    {
      assert k < |earlier| ==> earlier[k] == steps[k];
    }
  }

  lemma JustDelivered<D>(f: File<D>, steps: seq<Step>, t: nat, i: nat)
    requires steps != [] && Delivers(f, steps, |steps| - 1, i) && steps[|steps| - 1].thread != t
    ensures DeliveredSinceItsLook(f, steps, t, i, |steps| - 1)
  {
  }

  lemma ClaimingAfterLook<D>(f: File<D>, s: State<D>, step: Step, t: nat)
    requires Next(f, s, step).Some?
    requires var n := Next(f, s, step).value;
             t in n.threads && n.threads[t].Claiming? && n.threads[t].index in Indices(n.blocks)
    ensures step.thread != t && t in s.threads && s.threads[t] == Next(f, s, step).value.threads[t]
    ensures s.threads[t].index !in Indices(s.blocks) ==>
              && step.Store? && step.thread in s.threads
              && s.threads[step.thread].Storing? && s.threads[step.thread].index == s.threads[t].index
  {
    if step.Look? && step.thread in s.threads && Position(s.blocks, s.threads[step.thread].index) < |s.blocks| {
      TouchedKeeps(s.blocks, Position(s.blocks, s.threads[step.thread].index));
    } else if step.Store? {
      RememberedAdds(s.blocks, s.threads[step.thread].index, s.threads[step.thread].data);
    }
  }

  lemma TouchedKeeps<D>(blocks: seq<Entry<D>>, p: nat)
    requires p < |blocks|
    ensures forall i :: i in Indices(Touched(blocks, p)) ==> i in Indices(blocks)
  {
    forall k | 0 <= k < |blocks|
      ensures Touched(blocks, p)[k].index in Indices(blocks)
    {
      var from := if k < p then k else if k < |blocks| - 1 then k + 1 else p;
      assert Touched(blocks, p)[k] == blocks[from] && Indices(blocks)[from] == blocks[from].index;
    }
  }

  lemma RememberedAdds<D>(blocks: seq<Entry<D>>, index: nat, data: D)
    ensures forall i :: i in Indices(Remembered(blocks, index, data)) && i != index ==> i in Indices(blocks)
  {
    var after := Remembered(blocks, index, data);
    forall k | 0 <= k < |after| && after[k].index != index
      ensures after[k].index in Indices(blocks)
    {
      var from := if index !in Indices(blocks) && |blocks| == CAPACITY then k + 1 else k;
      assert Indices(blocks)[from] == after[k].index;
    }
  }
}
