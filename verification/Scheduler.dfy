/** Event polling per scope: calls that move scopes between foreground and background race with one polling
    task per added scope. Every atomic access of the code is one step; the calls hold the scope map's lock. */
module Scheduler {
  import opened Wrappers

  datatype Command = PollNow | Reschedule

  /** Where a polling task is: about to loop (polling first or not), in the callback, about to read its flag,
      asleep with a timer armed for the foreground or background interval, or over. */
  datatype Loop = Top(poll: bool) | Polling | Arming | Sleeping(foreground: bool) | Over

  datatype Task = Task(id: string, isOwn: bool, foreground: bool, queue: seq<Command>, closed: bool, loop: Loop)

  /** The call holding the lock: clearing the other scopes' flags before raising the target's, or with one
      command still to send. */
  datatype Call =
    | Free
    | Clearing(target: nat, todo: set<nat>, sendTo: Option<nat>)
    | Raised(target: nat)
    | Lowered(target: nat)

  datatype State = State(own: string, scopes: map<string, nat>, tasks: map<nat, Task>, call: Call)

  datatype Step =
    | Add(id: string, task: nat)
    | Remove(id: string)
    | SetForeground(id: string)
    | Clear(task: nat)
    | SendReschedule
    | Raise
    | SendPollNow
    | SetBackground(id: string)
    | SendLowered
    | Begin(task: nat)
    | Return(task: nat)
    | Arm(task: nat)
    | Fire(task: nat)
    | Receive(task: nat)

  function With(s: State, t: nat, task: Task): State {
    s.(tasks := s.tasks[t := task])
  }

  function Sent(s: State, t: nat, command: Command): State
    requires t in s.tasks
  {
    With(s, t, s.tasks[t].(queue := s.tasks[t].queue + [command]))
  }

  function CallStep(s: State, step: Step): Option<State> {
    match step
    case Add(id, t) =>
      if s.call.Free? && id !in s.scopes && t !in s.tasks then
        Some(With(s, t, Task(id, id == s.own, id == s.own, [], false, Top(true))).(scopes := s.scopes[id := t]))
      else None
    case Remove(id) =>
      if s.call.Free? && id in s.scopes && s.scopes[id] in s.tasks then
        Some(With(s, s.scopes[id], s.tasks[s.scopes[id]].(closed := true)).(scopes := s.scopes - {id}))
      else None
    case SetForeground(id) =>
      if s.call.Free? && id in s.scopes && s.scopes[id] in s.tasks
         && !s.tasks[s.scopes[id]].isOwn && !s.tasks[s.scopes[id]].foreground then
        Some(s.(call := Clearing(s.scopes[id], s.scopes.Values, None)))
      else None
    case Clear(t) =>
      if s.call.Clearing? && s.call.sendTo.None? && t in s.call.todo && t in s.tasks then
        var rest := s.call.(todo := s.call.todo - {t});
        if !s.tasks[t].isOwn && s.tasks[t].foreground then
          Some(With(s, t, s.tasks[t].(foreground := false)).(call := rest.(sendTo := Some(t))))
        else Some(s.(call := rest))
      else None
    case SendReschedule =>
      if s.call.Clearing? && s.call.sendTo.Some? && s.call.sendTo.value in s.tasks then
        Some(Sent(s, s.call.sendTo.value, Reschedule).(call := s.call.(sendTo := None)))
      else None
    case Raise =>
      if s.call.Clearing? && s.call.sendTo.None? && s.call.todo == {} && s.call.target in s.tasks then
        Some(With(s, s.call.target, s.tasks[s.call.target].(foreground := true)).(call := Raised(s.call.target)))
      else None
    case SendPollNow =>
      if s.call.Raised? && s.call.target in s.tasks then Some(Sent(s, s.call.target, PollNow).(call := Free)) else None
    case SetBackground(id) =>
      if s.call.Free? && id in s.scopes && s.scopes[id] in s.tasks
         && !s.tasks[s.scopes[id]].isOwn && s.tasks[s.scopes[id]].foreground then
        Some(With(s, s.scopes[id], s.tasks[s.scopes[id]].(foreground := false)).(call := Lowered(s.scopes[id])))
      else None
    case SendLowered =>
      if s.call.Lowered? && s.call.target in s.tasks then Some(Sent(s, s.call.target, Reschedule).(call := Free))
          else None
    case _ => None
  }

  /** The polling loop of one task; a timer may fire even when a command is waiting or the scope is gone. */
  function LoopStep(task: Task, step: Step): Option<Task> {
    match step
    case Begin(_) => if task.loop.Top? then Some(task.(loop := if task.loop.poll then Polling else Arming)) else None
    case Return(_) => if task.loop.Polling? then Some(task.(loop := Arming)) else None
    case Arm(_) => if task.loop.Arming? then Some(task.(loop := Sleeping(task.foreground))) else None
    case Fire(_) => if task.loop.Sleeping? then Some(task.(loop := Top(true))) else None
    case Receive(_) =>
      if task.loop.Sleeping? && task.queue != [] then
        Some(task.(queue := task.queue[1..], loop := Top(task.queue[0].PollNow?)))
      else if task.loop.Sleeping? && task.closed then Some(task.(loop := Over))
      else None
    case _ => None
  }

  predicate OfLoop(step: Step) {
    step.Begin? || step.Return? || step.Arm? || step.Fire? || step.Receive?
  }

  function Next(s: State, step: Step): Option<State> {
    if !OfLoop(step) then CallStep(s, step)
    else if step.task !in s.tasks then None
    else
      var task := LoopStep(s.tasks[step.task], step);
      if task.None? then None else Some(With(s, step.task, task.value))
  }

  function Run(s: State, steps: seq<Step>): Option<State>
    decreases |steps|
  {
    if steps == [] then Some(s)
    else
      var n := Next(s, steps[0]);
      if n.None? then None else Run(n.value, steps[1..])
  }

  function Initial(own: string): State {
    State(own, map[], map[], Free)
  }

  // ---- Foreground and timers ----

  predicate SharedForeground(s: State, t: nat) {
    t in s.scopes.Values && t in s.tasks && !s.tasks[t].isOwn && s.tasks[t].foreground
  }

  /** The call still has a command to send to the task. */
  predicate SendPending(call: Call, t: nat) {
    match call
    case Free => false
    case Clearing(_, _, sendTo) => sendTo == Some(t)
    case Raised(target) => target == t
    case Lowered(target) => target == t
  }

  predicate WrongTimer(task: Task) {
    task.loop.Sleeping? && task.loop.foreground != task.foreground
  }

  /** The timer runs for the interval the flag asks for, or a command to restart it is queued or being sent. */
  predicate TimerSettled(s: State, t: nat)
    requires t in s.tasks
  {
    WrongTimer(s.tasks[t]) ==> s.tasks[t].queue != [] || SendPending(s.call, t)
  }

  ghost predicate Registered(s: State) {
    && (forall id :: id in s.scopes ==>
        s.scopes[id] in s.tasks && s.tasks[s.scopes[id]].id == id && !s.tasks[s.scopes[id]].closed)
    && (forall t :: t in s.tasks ==> (s.tasks[t].isOwn <==> s.tasks[t].id == s.own))
    && (forall t :: t in s.tasks && !s.tasks[t].closed ==> t in s.scopes.Values)
  }

  ghost predicate OneForeground(s: State) {
    && (forall t :: t in s.tasks && s.tasks[t].isOwn ==> s.tasks[t].foreground)
    && (forall a, b :: SharedForeground(s, a) && SharedForeground(s, b) ==> a == b)
  }

  /** Until the target's flag is raised, any foreground scope is still to be cleared. */
  ghost predicate CallSound(s: State) {
    match s.call
    case Free => true
    case Clearing(target, todo, sendTo) =>
      && target in s.tasks && target in s.scopes.Values && !s.tasks[target].isOwn
      && (sendTo.Some? ==> sendTo.value in s.tasks)
      && (forall t :: t in todo ==> t in s.tasks)
      && forall t :: SharedForeground(s, t) ==> t in todo
    case Raised(target) => target in s.tasks
    case Lowered(target) => target in s.tasks
  }

  ghost predicate Invariant(s: State) {
    && Registered(s) && OneForeground(s) && CallSound(s)
    && forall t :: t in s.tasks ==> TimerSettled(s, t)
  }

  lemma LoopChangesLittle(task: Task, step: Step)
    requires LoopStep(task, step).Some?
    ensures var n := LoopStep(task, step).value;
            n.id == task.id && n.isOwn == task.isOwn && n.foreground == task.foreground && n.closed == task.closed
  {
  }

  lemma LoopStepKeeps(s: State, step: Step)
    requires Registered(s) && OneForeground(s) && CallSound(s) && OfLoop(step) && Next(s, step).Some?
    ensures var n := Next(s, step).value; Registered(n) && OneForeground(n) && CallSound(n)
  {
    LoopChangesLittle(s.tasks[step.task], step);
    hide LoopStep, CallStep;
    var n := Next(s, step).value;
    assert forall t :: SharedForeground(n, t) <==> SharedForeground(s, t);
  }

  lemma AddKeeps(s: State, step: Step)
    requires Registered(s) && OneForeground(s) && CallSound(s) && step.Add? && Next(s, step).Some?
    ensures var n := Next(s, step).value; Registered(n) && OneForeground(n) && CallSound(n)
  {
    var n := Next(s, step).value;
    assert n.scopes[step.id] == step.task;
    forall t | t in n.tasks && !n.tasks[t].closed
      ensures t in n.scopes.Values
    {
      if t != step.task {
        var id :| id in s.scopes && s.scopes[id] == t;
        assert n.scopes[id] == t;
      }
    }
    forall t | SharedForeground(n, t)
      ensures SharedForeground(s, t)
    {
      var id :| id in n.scopes && n.scopes[id] == t;
      assert id != step.id && s.scopes[id] == t;
    }
  }

  lemma RemoveKeeps(s: State, step: Step)
    requires Registered(s) && OneForeground(s) && CallSound(s) && step.Remove? && Next(s, step).Some?
    ensures var n := Next(s, step).value; Registered(n) && OneForeground(n) && CallSound(n)
  {
    var n := Next(s, step).value;
    forall t | t in n.tasks && !n.tasks[t].closed
      ensures t in n.scopes.Values
    {
      var id :| id in s.scopes && s.scopes[id] == t;
      assert n.scopes[id] == t;
    }
    forall id | id in n.scopes
      ensures n.scopes[id] != s.scopes[step.id]
    {
      assert s.tasks[s.scopes[id]].id == id;
    }
    forall t | SharedForeground(n, t)
      ensures SharedForeground(s, t)
    {
      var id :| id in n.scopes && n.scopes[id] == t;
      assert s.scopes[id] == t;
    }
  }

  /** Only flags and queues differ. */
  ghost predicate SameTasks(s: State, n: State) {
    && n.scopes == s.scopes && n.own == s.own && n.tasks.Keys == s.tasks.Keys
    && forall t :: t in s.tasks ==>
         n.tasks[t].id == s.tasks[t].id && n.tasks[t].isOwn == s.tasks[t].isOwn
             && n.tasks[t].closed == s.tasks[t].closed
  }

  lemma SameTasksRegistered(s: State, n: State)
    requires Registered(s) && SameTasks(s, n)
    ensures Registered(n)
  {
  }

  lemma CallStepSame(s: State, step: Step)
    requires Next(s, step).Some? && !OfLoop(step) && !step.Add? && !step.Remove?
    ensures SameTasks(s, Next(s, step).value)
  {
    hide LoopStep;
  }

  lemma CallKeeps(s: State, step: Step)
    requires Registered(s) && OneForeground(s) && CallSound(s) && Next(s, step).Some?
    requires !OfLoop(step) && !step.Add? && !step.Remove?
    ensures var n := Next(s, step).value; Registered(n) && OneForeground(n) && CallSound(n)
  {
    CallStepSame(s, step);
    SameTasksRegistered(s, Next(s, step).value);
    ScopesHaveTasks(s);
    hide Registered, LoopStep;
    if step.Raise? {
      RaiseKeeps(s, Next(s, step).value);
    } else {
      assert step.SetForeground? ==> s.scopes[step.id] in s.scopes.Values;
      OtherCallsKeep(s, step, Next(s, step).value);
    }
  }

  lemma OtherCallsKeep(s: State, step: Step, n: State)
    requires OneForeground(s) && CallSound(s) && Next(s, step) == Some(n)
    requires !OfLoop(step) && !step.Add? && !step.Remove? && !step.Raise?
    requires forall t :: t in s.scopes.Values ==> t in s.tasks
    requires step.SetForeground? ==> s.scopes[step.id] in s.scopes.Values
    ensures OneForeground(n) && CallSound(n)
  {
    hide LoopStep;
    forall t | SharedForeground(n, t)
      ensures SharedForeground(s, t)
    {
    }
  }

  lemma ScopesHaveTasks(s: State)
    requires Registered(s)
    ensures forall t :: t in s.scopes.Values ==> t in s.tasks
  {
    forall t | t in s.scopes.Values
      ensures t in s.tasks
    {
      var id :| id in s.scopes && s.scopes[id] == t;
    }
  }

  lemma RaiseKeeps(s: State, n: State)
    requires OneForeground(s) && CallSound(s) && Next(s, Raise) == Some(n)
    ensures OneForeground(n) && CallSound(n)
  {
    forall t | SharedForeground(n, t)
      ensures t == s.call.target
    {
      assert t != s.call.target ==> SharedForeground(s, t);
    }
  }

  lemma TimersKept(s: State, step: Step, t: nat)
    requires Invariant(s) && Next(s, step).Some? && t in Next(s, step).value.tasks
    ensures TimerSettled(Next(s, step).value, t)
  {
    assert t in s.tasks ==> TimerSettled(s, t);
    hide Registered, OneForeground;
  }

  lemma InvariantKept(s: State, step: Step)
    requires Invariant(s) && Next(s, step).Some?
    ensures Invariant(Next(s, step).value)
  {
    forall t | t in Next(s, step).value.tasks
      ensures TimerSettled(Next(s, step).value, t)
    {
      TimersKept(s, step, t);
    }
    hide Registered, OneForeground, CallSound, TimerSettled, Next;
    if OfLoop(step) {
      LoopStepKeeps(s, step);
    } else if step.Add? {
      AddKeeps(s, step);
    } else if step.Remove? {
      RemoveKeeps(s, step);
    } else {
      CallKeeps(s, step);
    }
  }

  lemma {:induction false} InvariantHolds(s: State, steps: seq<Step>)
    requires Invariant(s) && Run(s, steps).Some?
    ensures Invariant(Run(s, steps).value)
    decreases |steps|
  {
    hide Invariant, Next;
    if steps != [] {
      InvariantKept(s, steps[0]);
      InvariantHolds(Next(s, steps[0]).value, steps[1..]);
    }
  }

  /** In every run: the own volume is in the foreground, at most one shared scope is, and whenever no call
      is under way a timer armed for the wrong interval has a command queued that ends it. */
  lemma EveryRun(own: string, steps: seq<Step>)
    requires Run(Initial(own), steps).Some?
    ensures var s := Run(Initial(own), steps).value;
            && (own in s.scopes ==> s.scopes[own] in s.tasks && s.tasks[s.scopes[own]].foreground)
            && (forall a, b :: SharedForeground(s, a) && SharedForeground(s, b) ==> a == b)
            && (s.call.Free? ==> forall t :: t in s.tasks && WrongTimer(s.tasks[t]) ==> s.tasks[t].queue != [])
  {
    InvariantHolds(Initial(own), steps);
    OwnUnchanged(Initial(own), steps);
    var s := Run(Initial(own), steps).value;
    forall t | t in s.tasks
      ensures TimerSettled(s, t)
    {
    }
    hide Run;
  }

  lemma {:induction false} OwnUnchanged(s: State, steps: seq<Step>)
    requires Run(s, steps).Some?
    ensures Run(s, steps).value.own == s.own
    decreases |steps|
  {
    if steps != [] {
      OwnUnchanged(Next(s, steps[0]).value, steps[1..]);
    }
  }

  /** What a command does to a sleeping task: `PollNow` starts the callback at once, `Reschedule` arms the timer
      for what the flag says now, without polling. */
  lemma CommandsTakeEffect(s: State, t: nat)
    requires t in s.tasks && s.tasks[t].loop.Sleeping? && s.tasks[t].queue != []
    ensures var woken := Run(s, [Receive(t), Begin(t)]);
            && woken.Some? && t in woken.value.tasks
            && (s.tasks[t].queue[0].PollNow? ==> woken.value.tasks[t].loop.Polling?)
            && (s.tasks[t].queue[0].Reschedule? ==>
                  && woken.value.tasks[t].loop.Arming?
                  && var armed := Next(woken.value, Arm(t));
                  && armed.Some? && t in armed.value.tasks
                      && armed.value.tasks[t].loop == Sleeping(s.tasks[t].foreground))
  {
    var n := Next(s, Receive(t)).value;
    assert [Receive(t), Begin(t)][1..] == [Begin(t)] && [Begin(t)][1..] == [];
    assert Run(n, [Begin(t)]) == Run(Next(n, Begin(t)).value, []);
  }

  // ---- Overlapping polls ----

  predicate Live(s: State, t: nat, id: string) {
    t in s.tasks && s.tasks[t].id == id && !s.tasks[t].loop.Over?
  }

  ghost predicate OneLive(s: State, id: string) {
    forall a, b :: Live(s, a, id) && Live(s, b, id) ==> a == b
  }

  /** Two callbacks for the same scope are running. */
  ghost predicate Overlap(s: State, id: string) {
    exists a, b :: a != b && Live(s, a, id) && Live(s, b, id) && s.tasks[a].loop.Polling? && s.tasks[b].loop.Polling?
  }

  predicate Adds(step: Step, id: string) {
    step.Add? && step.id == id
  }

  /** The scope is never added while an earlier polling task of it is still alive. */
  ghost predicate PatientAdds(s: State, steps: seq<Step>, id: string)
    decreases |steps|
  {
    steps != [] && Next(s, steps[0]).Some? ==>
      && (Adds(steps[0], id) ==> forall t :: !Live(s, t, id))
      && PatientAdds(Next(s, steps[0]).value, steps[1..], id)
  }

  lemma OneLiveKept(s: State, step: Step, id: string)
    requires OneLive(s, id) && Next(s, step).Some? && (Adds(step, id) ==> forall t :: !Live(s, t, id))
    ensures OneLive(Next(s, step).value, id)
  {
    var n := Next(s, step).value;
    if !Adds(step, id) {
      forall t | Live(n, t, id)
        ensures Live(s, t, id)
      {
      }
    } else {
      forall t | Live(n, t, id)
        ensures t == step.task
      {
        assert t != step.task ==> Live(s, t, id);
      }
    }
  }

  /** Polls of a scope never overlap in a run that adds it again only once its last polling task is over. */
  lemma {:induction false} NoOverlap(s: State, steps: seq<Step>, id: string)
    requires OneLive(s, id) && Run(s, steps).Some? && PatientAdds(s, steps, id)
    ensures OneLive(Run(s, steps).value, id) && !Overlap(Run(s, steps).value, id)
    decreases |steps|
  {
    hide Next;
    if steps != [] {
      OneLiveKept(s, steps[0], id);
      NoOverlap(Next(s, steps[0]).value, steps[1..], id);
    }
  }

  /** How many steps of its own a live task is from its next callback. */
  function Distance(loop: Loop): nat {
    match loop
    case Polling => 0
    case Top(poll) => if poll then 1 else 4
    case Sleeping(_) => 2
    case Arming => 3
    case Over => 5
  }

  /** Any live task can start its callback by itself, even when its scope is gone: its timer may fire before it
      notices. */
  lemma {:induction false} CanPoll(s: State, t: nat) returns (steps: seq<Step>)
    requires t in s.tasks && !s.tasks[t].loop.Over?
    ensures Run(s, steps).Some? && forall k :: 0 <= k < |steps| ==> OfLoop(steps[k])
    ensures var n := Run(s, steps).value;
            && n.tasks.Keys == s.tasks.Keys && n.tasks[t] == s.tasks[t].(loop := Polling)
            && forall u :: u in s.tasks && u != t ==> n.tasks[u] == s.tasks[u]
    decreases Distance(s.tasks[t].loop)
  {
    var loop := s.tasks[t].loop;
    if loop.Polling? {
      steps := [];
    } else {
      var step := if loop.Top? then Begin(t) else if loop.Sleeping? then Fire(t) else Arm(t);
      var n := Next(s, step).value;
      var rest := CanPoll(n, t);
      steps := [step] + rest;
      assert steps[1..] == rest;
    }
  }

  /** Adding a removed scope again makes overlapping polls possible if and only if a polling task of its earlier
      life is still alive, whatever that task is doing. */
  lemma ReAddOverlaps(s: State, id: string, t: nat)
    requires Invariant(s) && Next(s, Add(id, t)).Some?
    ensures (exists steps :: OverlapsWithoutAdding(Next(s, Add(id, t)).value, steps, id))
            <==> (exists e :: Live(s, e, id))
  {
    var after := Next(s, Add(id, t)).value;
    if e :| Live(s, e, id) {
      var steps := TwoPolls(after, id, e, t);
    } else {
      OneLiveKept(s, Add(id, t), id);
      forall steps | Run(after, steps).Some? && forall k :: 0 <= k < |steps| ==> !Adds(steps[k], id)
        ensures !Overlap(Run(after, steps).value, id)
      {
        NeverAdding(after, steps, id);
        NoOverlap(after, steps, id);
      }
    }
  }

  ghost predicate OverlapsWithoutAdding(s: State, steps: seq<Step>, id: string) {
    && Run(s, steps).Some? && Overlap(Run(s, steps).value, id)
    && forall k :: 0 <= k < |steps| ==> !Adds(steps[k], id)
  }

  lemma {:induction false} NeverAdding(s: State, steps: seq<Step>, id: string)
    requires forall k :: 0 <= k < |steps| ==> !Adds(steps[k], id)
    ensures PatientAdds(s, steps, id)
    decreases |steps|
  {
    hide Next;
    if steps != [] && Next(s, steps[0]).Some? {
      NeverAdding(Next(s, steps[0]).value, steps[1..], id);
    }
  }

  lemma TwoPolls(s: State, id: string, a: nat, b: nat) returns (steps: seq<Step>)
    requires Live(s, a, id) && Live(s, b, id) && a != b
    ensures OverlapsWithoutAdding(s, steps, id)
  {
    var first := CanPoll(s, a);
    var middle := Run(s, first).value;
    var second := CanPoll(middle, b);
    hide Next;
    steps := first + second;
    RunAppend(s, first, second);
    var n := Run(s, steps).value;
    assert n.tasks[a].loop.Polling? && n.tasks[b].loop.Polling? && Live(n, a, id) && Live(n, b, id);
  }

  lemma {:induction false} RunAppend(s: State, first: seq<Step>, second: seq<Step>)
    requires Run(s, first).Some?
    ensures Run(s, first + second) == Run(Run(s, first).value, second)
    decreases |first|
  {
    hide Next;
    if first == [] {
      assert first + second == second;
    } else {
      RunAppend(Next(s, first[0]).value, first[1..], second);
      assert (first + second)[1..] == first[1..] + second;
    }
  }

  /** It happens: a scope is removed while its callback runs and added again. */
  lemma OverlapHappens(own: string, id: string) returns (steps: seq<Step>)
    ensures Run(Initial(own), steps).Some? && Overlap(Run(Initial(own), steps).value, id)
  {
    var first, second := [Add(id, 0), Begin(0)], [Remove(id), Add(id, 1), Begin(1)];
    steps := first + second;
    var polling := AddAndBegin(Initial(own), id, 0);
    RunAppend(Initial(own), first, second);
    var removed := Next(polling, Remove(id)).value;
    var again := AddAndBegin(removed, id, 1);
    assert second[1..] == [Add(id, 1), Begin(1)];
    assert Run(polling, second) == Run(removed, second[1..]);
    assert Live(again, 0, id) && Live(again, 1, id);
  }

  lemma AddAndBegin(s: State, id: string, t: nat) returns (n: State)
    requires Next(s, Add(id, t)).Some?
    ensures Run(s, [Add(id, t), Begin(t)]) == Some(n)
    ensures n == With(s, t, Task(id, id == s.own, id == s.own, [], false, Polling)).(scopes := s.scopes[id := t])
  {
    var added := Next(s, Add(id, t)).value;
    n := Next(added, Begin(t)).value;
    assert [Add(id, t), Begin(t)][1..] == [Begin(t)] && [Begin(t)][1..] == [];
    assert Run(added, [Begin(t)]) == Run(n, []);
    assert n.tasks == s.tasks[t := Task(id, id == s.own, id == s.own, [], false, Polling)];
  }
}
