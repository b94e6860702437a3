/** What readers of a streamed file get, told from the steps that were taken, and that every reader can be served. */
module StreamingRuns {
  import opened Collections
  import opened StreamCache
  import opened Streaming
  import opened Wrappers

  // ---- What a reader gets ----

  /** The thread's last request. */
  function LastCall(steps: seq<Step>, t: nat): (r: Option<Step>)
    ensures r.Some? ==> r.value.Call?
  {
    if steps == [] then None
    else
      var step := steps[|steps| - 1];
      if step.Call? && step.thread == t then Some(step) else LastCall(steps[..|steps| - 1], t)
  }

  /** Whether the download of this task has arrived, and well. */
  function Arrival(steps: seq<Step>, task: nat): Option<bool> {
    if steps == [] then None
    else
      var step := steps[|steps| - 1];
      if step.Arrive? && step.thread == task then Some(step.ok) else Arrival(steps[..|steps| - 1], task)
  }

  /** A reader is at what it asked for last, and a download has what arrived for it. */
  predicate Told<D>(steps: seq<Step>, t: nat, pc: Thread<D>) {
    match pc
    case Idle => LastCall(steps, t).Some? ==> LastCall(steps, t).value.ahead
    case Looking(i, ahead) => LastCall(steps, t) == Some(Call(t, i, ahead))
    case Claiming(i, ahead) => LastCall(steps, t) == Some(Call(t, i, ahead))
    case Spawning(i, ahead) => LastCall(steps, t) == Some(Call(t, i, ahead))
    case Asleep(i) => LastCall(steps, t) == Some(Call(t, i, false))
    case Waiting(i, _) => LastCall(steps, t) == Some(Call(t, i, false))
    case Returned(i, _) => LastCall(steps, t) == Some(Call(t, i, false))
    case Fetching(_) => true
    case Storing(_, _) => Arrival(steps, t) == Some(true)
    case Releasing(_, result) => Arrival(steps, t) == Some(result.Some?)
    case Ended(_, result) => Arrival(steps, t) == Some(result.Some?)
  }

  /** A reader has nothing only if a download of its block has nothing. */
  ghost predicate Excused<D>(threads: map<nat, Thread<D>>, pc: Thread<D>) {
    pc.Returned? && pc.result.None? ==>
      exists task :: task in threads && threads[task] == Ended(pc.index, None)
  }

  lemma Longer(steps: seq<Step>, step: Step, t: nat)
    ensures LastCall(steps + [step], t) == if step.Call? && step.thread == t then Some(step) else LastCall(steps, t)
    ensures Arrival(steps + [step], t) == if step.Arrive? && step.thread == t then Some(step.ok) else Arrival(steps, t)
  {
    assert (steps + [step])[..|steps|] == steps;
  }

  /** How one step moves each thread. */
  lemma ToldKept<D>(f: File<D>, steps: seq<Step>, s: State<D>, step: Step, t: nat)
    requires Next(f, s, step).Some? && t in Next(f, s, step).value.threads
    requires if t in s.threads then Told(steps, t, s.threads[t]) else LastCall(steps, t).None?
    requires forall u :: u in s.threads ==> ThreadSound(f, s, s.threads[u])
    ensures Told(steps + [step], t, Next(f, s, step).value.threads[t])
  {
    hide LastCall, Arrival, Remembered, Touched;
    Longer(steps, step, t);
    assert step.thread in s.threads ==> ThreadSound(f, s, s.threads[step.thread]);
    hide ThreadSound;
  }

  lemma ExcusedKept<D>(f: File<D>, s: State<D>, step: Step, t: nat)
    requires Next(f, s, step).Some? && t in Next(f, s, step).value.threads
    requires forall u :: u in s.threads ==> ThreadSound(f, s, s.threads[u])
    requires t in s.threads ==> Excused(s.threads, s.threads[t])
    ensures Excused(Next(f, s, step).value.threads, Next(f, s, step).value.threads[t])
  {
    hide Remembered, Touched, Position;
    var (n, pc) := (Next(f, s, step).value, Next(f, s, step).value.threads[t]);
    EndedStays(f, s, step);
    if pc.Returned? && pc.result.None? {
      if step == Receive(t) {
        assert ThreadSound(f, s, s.threads[t]);
        assert n.threads[s.threads[t].task] == Ended(pc.index, None);
      } else {
        hide ThreadSound;
        assert pc == s.threads[t];
        var task :| task in s.threads && s.threads[task] == Ended(pc.index, None);
        assert n.threads[task] == Ended(pc.index, None);
      }
    }
  }

  lemma EndedStays<D>(f: File<D>, s: State<D>, step: Step)
    requires Next(f, s, step).Some?
    ensures forall u :: u in s.threads && s.threads[u].Ended? ==>
              u in Next(f, s, step).value.threads && Next(f, s, step).value.threads[u] == s.threads[u]
  {
    hide Remembered, Touched, Position;
  }

  lemma {:induction false} NotCalled<D>(f: File<D>, steps: seq<Step>, t: nat)
    requires Run(f, steps).Some? && t !in Run(f, steps).value.threads
    ensures LastCall(steps, t).None?
  {
    hide Next;
    if steps != [] {
      var (earlier, step) := (steps[..|steps| - 1], steps[|steps| - 1]);
      ThreadsStay(f, Run(f, earlier).value, step);
      NotCalled(f, earlier, t);
    }
  }

  lemma ThreadsStay<D>(f: File<D>, s: State<D>, step: Step)
    requires Next(f, s, step).Some?
    ensures s.threads.Keys <= Next(f, s, step).value.threads.Keys
    ensures step.Call? ==> step.thread in s.threads
  {
    hide Remembered, Touched, Position;
  }

  lemma {:induction false} AllTold<D>(f: File<D>, steps: seq<Step>, t: nat)
    requires Run(f, steps).Some? && t in Run(f, steps).value.threads
    ensures Told(steps, t, Run(f, steps).value.threads[t])
    ensures Excused(Run(f, steps).value.threads, Run(f, steps).value.threads[t])
  {
    hide Next, Told, Excused, ThreadSound, Exclusive, CacheSound;
    var (earlier, step) := (steps[..|steps| - 1], steps[|steps| - 1]);
    assert steps == earlier + [step];
    var s := Run(f, earlier).value;
    EveryRun(f, earlier);
    if t in s.threads {
      AllTold(f, earlier, t);
    } else {
      NotCalled(f, earlier, t);
    }
    ToldKept(f, earlier, s, step, t);
    ExcusedKept(f, s, step, t);
  }

  /** In every run a reader that comes back has what it asked for last: that block of the file, unless a download of the
      block has failed; only a read-ahead ends with nothing. */
  lemma ReadersGet<D>(f: File<D>, steps: seq<Step>, t: nat)
    requires Run(f, steps).Some? && t in Run(f, steps).value.threads && Run(f, steps).value.threads[t].Returned?
    ensures var (i, result) := (Run(f, steps).value.threads[t].index, Run(f, steps).value.threads[t].result);
            && LastCall(steps, t) == Some(Call(t, i, false)) && i < f.blockCount
            && match result
               case Some(data) => data == f.content(i)
               case None => exists task :: FailedFor(f, steps, task, i)
  {
    EveryRun(f, steps);
    AllTold(f, steps, t);
    CallInFile(f, steps, t);
    hide Run;
    var s := Run(f, steps).value;
    assert ThreadSound(f, s, s.threads[t]);
    if s.threads[t].result.None? {
      var task :| task in s.threads && s.threads[task] == Ended(s.threads[t].index, None);
      AllTold(f, steps, task);
      ArrivalTaken(steps, task);
      assert FailedFor(f, steps, task, s.threads[t].index);
    }
  }

  lemma {:induction false} CallInFile<D>(f: File<D>, steps: seq<Step>, t: nat)
    requires Run(f, steps).Some?
    ensures LastCall(steps, t).Some? ==> LastCall(steps, t).value.index < f.blockCount
  {
    hide Next;
    if steps != [] {
      var (earlier, step) := (steps[..|steps| - 1], steps[|steps| - 1]);
      OnlyInFile(f, Run(f, earlier).value, step);
      CallInFile(f, earlier, t);
    }
  }

  lemma OnlyInFile<D>(f: File<D>, s: State<D>, step: Step)
    requires Next(f, s, step).Some?
    ensures step.Call? ==> step.index < f.blockCount
  {
    hide Remembered, Touched, Position;
  }

  /** A download task of the block has failed. */
  ghost predicate FailedFor<D>(f: File<D>, steps: seq<Step>, task: nat, i: nat) {
    && Arrive(task, false) in steps && Run(f, steps).Some? && task in Run(f, steps).value.threads
    && Run(f, steps).value.threads[task] == Ended(i, None)
  }

  lemma {:induction false} ArrivalTaken(steps: seq<Step>, task: nat)
    ensures Arrival(steps, task).Some? ==> Arrive(task, Arrival(steps, task).value) in steps
  {
    if steps != [] {
      ArrivalTaken(steps[..|steps| - 1], task);
    }
  }

  // ---- What one step does to the cache ----

  lemma LookQueue<D>(f: File<D>, s: State<D>, t: nat)
    requires Invariant(f, s) && Next(f, s, Look(t)).Some?
    ensures var (n, q, i) := (Next(f, s, Look(t)).value, Indices(s.blocks), s.threads[t].index);
            if i in q then Indices(n.blocks) == Without(q, i) + [i] else n.blocks == s.blocks
  {
    hide Invariant, Without, Distinct, Touched;
    QueueDistinct(f, s);
    var p := Position(s.blocks, s.threads[t].index);
    if p < |s.blocks| {
      TouchedOrder(s.blocks, p);
    }
  }

  lemma TouchedOrder<D>(blocks: seq<Entry<D>>, p: nat)
    requires p < |blocks| && Distinct(Indices(blocks))
    ensures blocks[p].index in Indices(blocks)
    ensures Indices(Touched(blocks, p)) == Without(Indices(blocks), blocks[p].index) + [blocks[p].index]
  {
    hide Without, Distinct;
    var q := Indices(blocks);
    assert q[p] == blocks[p].index;
    MovedToBack(q, p);
    assert Indices(Touched(blocks, p)) == q[..p] + q[p + 1..] + [q[p]];
  }

  lemma StoreQueue<D>(f: File<D>, s: State<D>, t: nat)
    requires Next(f, s, Store(t)).Some?
    ensures var (n, q, i) := (Next(f, s, Store(t)).value, Indices(s.blocks), s.threads[t].index);
            if i !in q then Indices(n.blocks) == (if |q| == 6 then q[1..] else q) + [i] else n.blocks == s.blocks
  {
    var q := Indices(s.blocks);
    if s.threads[t].index !in q {
      assert Indices(Next(f, s, Store(t)).value.blocks) == (if |q| == 6 then q[1..] else q) + [s.threads[t].index];
    }
  }

  /** Only a look that finds its block and a stored block change the queue: the block goes to the back and the others
      keep their order; only a block that was not there may push the front one out of a queue of six. */
  lemma QueueMoves<D>(f: File<D>, s: State<D>, step: Step)
    requires Invariant(f, s) && Next(f, s, step).Some?
    ensures var (n, q) := (Next(f, s, step).value, Indices(s.blocks));
            if step.Look? && s.threads[step.thread].index in q then
              Indices(n.blocks) == Without(q, s.threads[step.thread].index) + [s.threads[step.thread].index]
            else if step.Store? && s.threads[step.thread].index !in q then
              Indices(n.blocks) == (if |q| == 6 then q[1..] else q) + [s.threads[step.thread].index]
            else n.blocks == s.blocks
  {
    hide Invariant, Remembered, Touched, Without;
    if step.Look? {
      LookQueue(f, s, step.thread);
    } else if step.Store? {
      StoreQueue(f, s, step.thread);
    }
  }

  lemma QueueDistinct<D>(f: File<D>, s: State<D>)
    requires Invariant(f, s)
    ensures Distinct(Indices(s.blocks))
  {
    BoundedAndDistinct(s.history, s.blocks);
  }

  // ---- Every reader can be served ----

  ghost function From<D>(f: File<D>, s: State<D>, steps: seq<Step>): Option<State<D>>
    decreases |steps|
  {
    if steps == [] then Some(s)
    else
      var n := Next(f, s, steps[0]);
      if n.None? then None else From(f, n.value, steps[1..])
  }

  lemma {:induction false} FromAppend<D>(f: File<D>, s: State<D>, a: seq<Step>, b: seq<Step>)
    requires From(f, s, a).Some?
    ensures From(f, s, a + b) == From(f, From(f, s, a).value, b)
    decreases |a|
  {
    hide Next;
    if a == [] {
      assert a + b == b;
    } else {
      FromAppend(f, Next(f, s, a[0]).value, a[1..], b);
      assert (a + b)[1..] == a[1..] + b;
    }
  }

  lemma FromOne<D>(f: File<D>, s: State<D>, step: Step, rest: seq<Step>)
    requires Next(f, s, step).Some?
    ensures From(f, s, [step] + rest) == From(f, Next(f, s, step).value, rest)
  {
    hide Next;
    assert ([step] + rest)[1..] == rest;
  }

  lemma {:induction false} Fresh(used: set<nat>) returns (t: nat)
    ensures t !in used && forall u :: u in used ==> u < t
  {
    t := 0;
    if u :| u in used {
      var rest := Fresh(used - {u});
      assert forall v :: v in used ==> v == u || v in used - {u};
      t := if u < rest then rest else u + 1;
    }
  }

  /** What is left alone when a task finishes its download: everything but the task and its claim. */
  ghost predicate Finished<D>(s: State<D>, task: nat, n: State<D>) {
    && task in s.threads && Owning(s.threads[task]) && n.fetching == s.fetching - {s.threads[task].index}
    && n.threads.Keys == s.threads.Keys && n.threads[task].Ended? && n.threads[task].index == s.threads[task].index
    && forall u :: u in s.threads && u != task ==> n.threads[u] == s.threads[u]
  }

  /** A download task can always finish, and well, whoever else there is. */
  lemma {:induction false} TaskFinishes<D>(f: File<D>, s: State<D>, task: nat) returns (steps: seq<Step>)
    requires task in s.threads
    requires s.threads[task].Fetching? || s.threads[task].Storing? || s.threads[task].Releasing?
    ensures From(f, s, steps).Some? && Finished(s, task, From(f, s, steps).value)
    ensures s.threads[task].Fetching? ==>
              From(f, s, steps).value.threads[task].result == Some(f.content(s.threads[task].index))
    ensures s.threads[task].Storing? ==>
              From(f, s, steps).value.threads[task].result == Some(s.threads[task].data)
    ensures s.threads[task].Releasing? ==>
              From(f, s, steps).value.threads[task].result == s.threads[task].result
    decreases Remaining(s.threads[task])
  {
    hide Remembered;
    var step := if s.threads[task].Fetching? then Arrive(task, true)
                else if s.threads[task].Storing? then Store(task) else Release(task);
    var n := Next(f, s, step).value;
    var rest := [];
    if !s.threads[task].Releasing? {
      rest := TaskFinishes(f, n, task);
    } else {
      assert From(f, n, []) == Some(n);
    }
    steps := [step] + rest;
    hide Next;
    FromOne(f, s, step, rest);
  }

  /** A claimed block can be brought to an end by its owner alone, without a step of reader `t`. */
  lemma OwnerFinishes<D>(f: File<D>, s: State<D>, t: nat, i: nat) returns (steps: seq<Step>)
    requires Invariant(f, s) && t in s.threads && s.threads[t].Claiming? && i in s.fetching
    ensures From(f, s, steps).Some?
    ensures var n := From(f, s, steps).value; t in n.threads && n.threads[t] == s.threads[t] && i !in n.fetching
  {
    var owners := Owners(s.threads);
    var u :| u in owners && owners[u] == i;
    hide CacheSound, Exclusive, ThreadSound;
    if s.threads[u].Spawning? {
      var task := Fresh(s.threads.Keys);
      var n := Next(f, s, Spawn(u, task)).value;
      var rest := TaskFinishes(f, n, task);
      steps := [Spawn(u, task)] + rest;
      hide Next;
      FromOne(f, s, Spawn(u, task), rest);
    } else {
      steps := TaskFinishes(f, s, u);
    }
  }

  /** A reader about to claim a free block can fetch it itself. */
  lemma ClaimServed<D>(f: File<D>, s: State<D>, t: nat, i: nat) returns (steps: seq<Step>)
    requires t in s.threads && s.threads[t] == Claiming(i, false) && i !in s.fetching
    ensures From(f, s, steps).Some?
    ensures var n := From(f, s, steps).value; t in n.threads && n.threads[t] == Returned(i, Some(f.content(i)))
  {
    var task := Fresh(s.threads.Keys);
    var a := Next(f, s, Claim(t)).value;
    var b := Next(f, a, Spawn(t, task)).value;
    var rest := TaskFinishes(f, b, task);
    var c := From(f, b, rest).value;
    var n := Next(f, c, Receive(t)).value;
    steps := [Claim(t)] + ([Spawn(t, task)] + (rest + [Receive(t)]));
    assert n.threads[t] == Returned(i, Some(f.content(i)));
    hide Next;
    FromOne(f, s, Claim(t), [Spawn(t, task)] + (rest + [Receive(t)]));
    FromOne(f, a, Spawn(t, task), rest + [Receive(t)]);
    FromAppend(f, b, rest, [Receive(t)]);
    FromOne(f, c, Receive(t), []);
    assert [Receive(t)] + [] == [Receive(t)] && From(f, n, []) == Some(n);
  }

  /** Whatever the other threads are in the middle of, a reader that starts to look for a block can be given it. */
  lemma ReaderServed<D>(f: File<D>, s: State<D>, t: nat, i: nat) returns (steps: seq<Step>)
    requires Invariant(f, s) && t in s.threads && s.threads[t] == Looking(i, false)
    ensures From(f, s, steps).Some?
    ensures var n := From(f, s, steps).value; t in n.threads && n.threads[t] == Returned(i, Some(f.content(i)))
  {
    LookWorks(f, s, t);
    InvariantKept(f, s, Look(t));
    hide Next, Invariant;
    var n := Next(f, s, Look(t)).value;
    var rest := [];
    if i in Indices(s.blocks) {
      assert From(f, n, []) == Some(n);
    } else if i in n.fetching {
      var wait := OwnerFinishes(f, n, t, i);
      var last := ClaimServed(f, From(f, n, wait).value, t, i);
      FromAppend(f, n, wait, last);
      rest := wait + last;
    } else {
      rest := ClaimServed(f, n, t, i);
    }
    FromOne(f, s, Look(t), rest);
    steps := [Look(t)] + rest;
  }

  /** A look for a block finds it exactly if it is cached: a reader gets it, a read-ahead has nothing to do. */
  lemma LookWorks<D>(f: File<D>, s: State<D>, t: nat)
    requires Invariant(f, s) && t in s.threads && s.threads[t].Looking?
    ensures Next(f, s, Look(t)).Some? && t in Next(f, s, Look(t)).value.threads
    ensures var (i, ahead, pc) := (s.threads[t].index, s.threads[t].ahead, Next(f, s, Look(t)).value.threads[t]);
            if i !in Indices(s.blocks) then pc == Claiming(i, ahead)
            else if ahead then pc == Idle
            else pc == Returned(i, Some(f.content(i)))
  {
    hide LastSix, Recency, Touched;
    var p := Position(s.blocks, s.threads[t].index);
    if p < |s.blocks| {
      assert Indices(s.blocks)[p] == s.threads[t].index;
    }
  }

  /** The same in every run, for a reader that has nothing under way. */
  lemma EveryReaderServed<D>(f: File<D>, earlier: seq<Step>, t: nat, i: nat) returns (steps: seq<Step>)
    requires Run(f, earlier).Some? && t in Run(f, earlier).value.threads && i < f.blockCount
    requires var pc := Run(f, earlier).value.threads[t]; pc.Idle? || pc.Returned?
    ensures From(f, Run(f, earlier).value, steps).Some?
    ensures var n := From(f, Run(f, earlier).value, steps).value;
            t in n.threads && n.threads[t] == Returned(i, Some(f.content(i)))
  {
    EveryRun(f, earlier);
    var s := Run(f, earlier).value;
    var n := Next(f, s, Call(t, i, false)).value;
    assert n.threads[t] == Looking(i, false);
    InvariantKept(f, s, Call(t, i, false));
    hide Next, Invariant, Run;
    var rest := ReaderServed(f, n, t, i);
    FromOne(f, s, Call(t, i, false), rest);
    steps := [Call(t, i, false)] + rest;
  }

  /** A thread in the middle of a read: of which block. */
  function Reading<D>(pc: Thread<D>): Option<nat> {
    match pc
    case Looking(i, ahead) => if ahead then None else Some(i)
    case Claiming(i, ahead) => if ahead then None else Some(i)
    case Spawning(i, ahead) => if ahead then None else Some(i)
    case Asleep(i) => Some(i)
    case Waiting(i, _) => Some(i)
    case _ => None
  }

  ghost predicate Answered<D>(f: File<D>, s: State<D>, steps: seq<Step>, t: nat, i: nat) {
    && From(f, s, steps).Some? && t in From(f, s, steps).value.threads
    && From(f, s, steps).value.threads[t].Returned? && From(f, s, steps).value.threads[t].index == i
  }

  lemma ClaimingAnswered<D>(f: File<D>, s: State<D>, t: nat, i: nat) returns (steps: seq<Step>)
    requires Invariant(f, s) && t in s.threads && s.threads[t] == Claiming(i, false)
    ensures Answered(f, s, steps, t, i)
  {
    if i in s.fetching {
      var wait := OwnerFinishes(f, s, t, i);
      hide Invariant, Next;
      var last := ClaimServed(f, From(f, s, wait).value, t, i);
      FromAppend(f, s, wait, last);
      steps := wait + last;
    } else {
      hide Invariant, Next;
      steps := ClaimServed(f, s, t, i);
    }
  }

  lemma WaitingAnswered<D>(f: File<D>, s: State<D>, t: nat) returns (steps: seq<Step>)
    requires Invariant(f, s) && t in s.threads && s.threads[t].Waiting?
    ensures Answered(f, s, steps, t, s.threads[t].index)
  {
    assert ThreadSound(f, s, s.threads[t]);
    hide Invariant;
    var task := s.threads[t].task;
    var wait := [];
    assert From(f, s, []) == Some(s);
    if !s.threads[task].Ended? {
      wait := TaskFinishes(f, s, task);
    }
    var m := From(f, s, wait).value;
    var n := Next(f, m, Receive(t)).value;
    assert n.threads[t].Returned? && n.threads[t].index == s.threads[t].index;
    hide Next;
    FromAppend(f, s, wait, [Receive(t)]);
    FromOne(f, m, Receive(t), []);
    assert [Receive(t)] + [] == [Receive(t)] && From(f, n, []) == Some(n);
    steps := wait + [Receive(t)];
  }

  lemma StepThen<D>(f: File<D>, s: State<D>, step: Step, rest: seq<Step>, t: nat, i: nat)
    requires Next(f, s, step).Some? && Answered(f, Next(f, s, step).value, rest, t, i)
    ensures Answered(f, s, [step] + rest, t, i)
  {
    hide Next;
    FromOne(f, s, step, rest);
  }

  /** No read is ever stuck: in every run, whatever a reader is in the middle of, there are steps after which it has an
      answer for its block. */
  lemma EveryReadAnswered<D>(f: File<D>, earlier: seq<Step>, t: nat) returns (steps: seq<Step>)
    requires Run(f, earlier).Some? && t in Run(f, earlier).value.threads
    requires Reading(Run(f, earlier).value.threads[t]).Some?
    ensures Answered(f, Run(f, earlier).value, steps, t, Reading(Run(f, earlier).value.threads[t]).value)
  {
    EveryRun(f, earlier);
    hide Run;
    steps := ReadAnswered(f, Run(f, earlier).value, t);
  }

  lemma ReadAnswered<D>(f: File<D>, s: State<D>, t: nat) returns (steps: seq<Step>)
    requires Invariant(f, s) && t in s.threads && Reading(s.threads[t]).Some?
    ensures Answered(f, s, steps, t, Reading(s.threads[t]).value)
  {
    hide Invariant, Answered;
    var i := Reading(s.threads[t]).value;
    match s.threads[t] {
      case Looking(_, _) => steps := LookingAnswered(f, s, t, i);
      case Claiming(_, _) => steps := ClaimingAnswered(f, s, t, i);
      case Waiting(_, _) => steps := WaitingAnswered(f, s, t);
      case Asleep(_) =>
        InvariantKept(f, s, Wake(t));
        var rest := LookingAnswered(f, Next(f, s, Wake(t)).value, t, i);
        StepThen(f, s, Wake(t), rest, t, i);
        steps := [Wake(t)] + rest;
      case Spawning(_, _) =>
        var task := Fresh(s.threads.Keys);
        InvariantKept(f, s, Spawn(t, task));
        var rest := WaitingAnswered(f, Next(f, s, Spawn(t, task)).value, t);
        StepThen(f, s, Spawn(t, task), rest, t, i);
        steps := [Spawn(t, task)] + rest;
    }
  }

  lemma LookingAnswered<D>(f: File<D>, s: State<D>, t: nat, i: nat) returns (steps: seq<Step>)
    requires Invariant(f, s) && t in s.threads && s.threads[t] == Looking(i, false)
    ensures Answered(f, s, steps, t, i)
  {
    hide Invariant, Next;
    steps := ReaderServed(f, s, t, i);
  }
}
