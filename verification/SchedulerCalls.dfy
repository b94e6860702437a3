/** What the calls that move a scope to the foreground or to the background achieve, in every interleaving with the
    polling tasks. */
module SchedulerCalls {
  import opened Scheduler
  import opened Wrappers

  /** The steps from the present state to the end of the call under way, whatever the tasks do in between. */
  predicate Finishes(s: State, steps: seq<Step>)
    decreases |steps|
  {
    if s.call.Free? then steps == []
    else steps != [] && Next(s, steps[0]).Some? && Finishes(Next(s, steps[0]).value, steps[1..])
  }

  /** A shared scope that is registered under some id. */
  predicate Shared(s: State, t: nat) {
    t in s.scopes.Values && t in s.tasks && !s.tasks[t].isOwn
  }

  /** What is left of `all` after some commands have been received. */
  ghost predicate Rest(all: seq<Command>, left: seq<Command>) {
    exists k: nat :: RestFrom(all, left, k)
  }

  predicate RestFrom(all: seq<Command>, left: seq<Command>, k: nat) {
    k <= |all| && left == all[k..]
  }

  lemma RestRefl(all: seq<Command>)
    ensures Rest(all, all)
  {
    assert RestFrom(all, all, 0);
  }

  lemma RestMore(all: seq<Command>, left: seq<Command>, more: seq<Command>)
    requires Rest(all, left)
    ensures Rest(all + more, left + more)
  {
    var k: nat :| RestFrom(all, left, k);
    assert RestFrom(all + more, left + more, k);
  }

  lemma RestTail(all: seq<Command>, left: seq<Command>)
    requires Rest(all, left) && left != []
    ensures Rest(all, left[1..])
  {
    var k: nat :| RestFrom(all, left, k);
    assert RestFrom(all, left[1..], k + 1);
  }

  /** Since `s` nothing has been registered or removed, the flags are as `flags` says, and the tasks have been sent
      `sent`, in this order and nothing else, some of which they may have received. */
  ghost predicate Since(s: State, n: State, flags: map<nat, bool>, sent: map<nat, seq<Command>>) {
    && n.scopes == s.scopes && n.own == s.own && n.tasks.Keys == s.tasks.Keys
    && flags.Keys == s.tasks.Keys && sent.Keys == s.tasks.Keys
    && forall t :: t in s.tasks ==> TaskSince(s.tasks[t], n.tasks[t], flags[t], sent[t])
  }

  ghost predicate TaskSince(before: Task, now: Task, flag: bool, sent: seq<Command>) {
    && now.id == before.id && now.isOwn == before.isOwn && now.closed == before.closed
    && now.foreground == flag && Rest(before.queue + sent, now.queue)
  }

  function Flags(s: State): map<nat, bool> {
    map t | t in s.tasks :: s.tasks[t].foreground
  }

  function Nothing(s: State): map<nat, seq<Command>> {
    map t | t in s.tasks :: []
  }

  lemma SinceNow(s: State)
    ensures Since(s, s, Flags(s), Nothing(s))
  {
    forall t | t in s.tasks
      ensures Rest(s.tasks[t].queue + [], s.tasks[t].queue)
    {
      assert s.tasks[t].queue + [] == s.tasks[t].queue;
      RestRefl(s.tasks[t].queue);
    }
  }

  /** The tasks' own steps send nothing and change no flag. */
  lemma SinceLoop(s: State, m: State, step: Step, flags: map<nat, bool>, sent: map<nat, seq<Command>>)
    requires Since(s, m, flags, sent) && OfLoop(step) && Next(m, step).Some?
    ensures Since(s, Next(m, step).value, flags, sent) && Next(m, step).value.call == m.call
  {
    hide CallStep, Rest, LoopStep;
    var t := step.task;
    LoopSince(s.tasks[t], m.tasks[t], flags[t], sent[t], step);
    hide TaskSince;
  }

  lemma LoopSince(before: Task, now: Task, flag: bool, sent: seq<Command>, step: Step)
    requires TaskSince(before, now, flag, sent) && LoopStep(now, step).Some?
    ensures TaskSince(before, LoopStep(now, step).value, flag, sent)
  {
    hide Rest, LoopStep;
    LoopQueue(now, step);
    LoopChangesLittle(now, step);
    if now.queue != [] {
      RestTail(before.queue + sent, now.queue);
    }
  }

  lemma LoopQueue(task: Task, step: Step)
    requires LoopStep(task, step).Some?
    ensures var n := LoopStep(task, step).value;
            n.queue == task.queue || (task.queue != [] && n.queue == task.queue[1..])
  {
  }

  lemma SinceAt(s: State, n: State, flags: map<nat, bool>, sent: map<nat, seq<Command>>, t: nat)
    requires Since(s, n, flags, sent) && t in n.tasks
    ensures t in s.tasks && n.tasks[t].isOwn == s.tasks[t].isOwn && n.tasks[t].foreground == flags[t]
    ensures n.scopes == s.scopes
  {
    hide Rest;
  }

  lemma SinceFlag(s: State, m: State, n: State, t: nat, up: bool, flags: map<nat, bool>, sent: map<nat, seq<Command>>)
    requires Since(s, m, flags, sent) && t in m.tasks
    requires n.scopes == m.scopes && n.own == m.own && n.tasks == m.tasks[t := m.tasks[t].(foreground := up)]
    ensures Since(s, n, flags[t := up], sent)
  {
    FlagChanged(s.tasks[t], m.tasks[t], flags[t], sent[t], up);
    hide TaskSince;
  }

  lemma FlagChanged(before: Task, now: Task, flag: bool, sent: seq<Command>, up: bool)
    requires TaskSince(before, now, flag, sent)
    ensures TaskSince(before, now.(foreground := up), up, sent)
  {
    hide Rest;
  }

  lemma SinceSent(s: State, m: State, n: State, t: nat, c: Command, flags: map<nat, bool>, sent: map<nat, seq<Command>>)
    requires Since(s, m, flags, sent) && t in m.tasks
    requires n.scopes == m.scopes && n.own == m.own
    requires n.tasks == m.tasks[t := m.tasks[t].(queue := m.tasks[t].queue + [c])]
    ensures Since(s, n, flags, sent[t := sent[t] + [c]])
  {
    SentMore(s.tasks[t], m.tasks[t], flags[t], sent[t], c);
    hide TaskSince;
  }

  lemma SentMore(before: Task, now: Task, flag: bool, sent: seq<Command>, c: Command)
    requires TaskSince(before, now, flag, sent)
    ensures TaskSince(before, now.(queue := now.queue + [c]), flag, sent + [c])
  {
    hide Rest;
    RestMore(before.queue + sent, now.queue, [c]);
    assert before.queue + sent + [c] == before.queue + (sent + [c]);
  }

  // ---- Moving a scope to the foreground ----

  /** The flags after the scopes outside `todo` have been cleared. */
  function ClearedFlags(s: State, todo: set<nat>): map<nat, bool> {
    map t | t in s.tasks :: s.tasks[t].foreground && !(Shared(s, t) && t !in todo)
  }

  /** One `Reschedule` to each scope that was cleared, up to the one that is still to be sent. */
  function ClearedSent(s: State, todo: set<nat>, open: Option<nat>): map<nat, seq<Command>> {
    map t | t in s.tasks ::
      if Shared(s, t) && s.tasks[t].foreground && t !in todo && open != Some(t) then [Reschedule] else []
  }

  /** How far the call that raises `target` has come since `s`. */
  ghost predicate Raising(s: State, target: nat, n: State) {
    && target in s.tasks
    && match n.call
       case Clearing(x, todo, open) =>
         && x == target && todo <= s.scopes.Values
         && (open.Some? ==> open.value in s.tasks && Shared(s, open.value) && s.tasks[open.value].foreground
                            && open.value !in todo)
         && Since(s, n, ClearedFlags(s, todo), ClearedSent(s, todo, open))
       case Raised(x) =>
         && x == target
         && Since(s, n, ClearedFlags(s, {})[target := true], ClearedSent(s, {}, None))
       case Free => InForeground(s, target, n)
       case Lowered(_) => false
  }

  /** The call has put exactly this scope into the foreground: its flag is up, every other registered shared scope's is
      down, all other flags are as before; it was sent one `PollNow`, every scope that was cleared one `Reschedule`,
      and nobody anything else. */
  ghost predicate InForeground(s: State, target: nat, n: State) {
    && target in s.tasks
    && Since(s, n, map t | t in s.tasks :: t == target || (s.tasks[t].foreground && !Shared(s, t)),
             map t | t in s.tasks ::
               if t == target then [PollNow] else if Shared(s, t) && s.tasks[t].foreground then [Reschedule] else [])
  }

  predicate OfRaising(step: Step) {
    step.Clear? || step.SendReschedule? || step.Raise? || step.SendPollNow?
  }

  lemma BusyStep(m: State, step: Step)
    requires !m.call.Free? && Next(m, step).Some?
    ensures OfLoop(step) || OfRaising(step) || step.SendLowered?
  {
  }

  lemma RaisingLoop(s: State, target: nat, m: State, step: Step)
    requires Raising(s, target, m) && !m.call.Free? && OfLoop(step) && Next(m, step).Some?
    ensures Raising(s, target, Next(m, step).value)
  {
    hide Since, Next, InForeground, ClearedFlags, ClearedSent, Shared;
    match m.call {
      case Clearing(_, todo, open) => SinceLoop(s, m, step, ClearedFlags(s, todo), ClearedSent(s, todo, open));
      case Raised(_) => SinceLoop(s, m, step, ClearedFlags(s, {})[target := true], ClearedSent(s, {}, None));
      case _ =>
    }
  }

  lemma ClearedOne(s: State, todo: set<nat>, t: nat)
    requires t in todo && t in s.tasks
    ensures Shared(s, t) && s.tasks[t].foreground ==>
              && ClearedFlags(s, todo)[t := false] == ClearedFlags(s, todo - {t})
              && ClearedSent(s, todo, None) == ClearedSent(s, todo - {t}, Some(t))
    ensures !(Shared(s, t) && s.tasks[t].foreground) ==>
              && ClearedFlags(s, todo) == ClearedFlags(s, todo - {t})
              && ClearedSent(s, todo, None) == ClearedSent(s, todo - {t}, None)
    ensures ClearedFlags(s, todo)[t] == s.tasks[t].foreground
  {
  }

  lemma RaisingClear(s: State, target: nat, m: State, t: nat)
    requires Raising(s, target, m) && Next(m, Clear(t)).Some?
    ensures Raising(s, target, Next(m, Clear(t)).value)
  {
    hide Since, InForeground, ClearedFlags, ClearedSent, LoopStep;
    var todo := m.call.todo;
    var (flags, sent) := (ClearedFlags(s, todo), ClearedSent(s, todo, None));
    SinceAt(s, m, flags, sent, t);
    ClearedOne(s, todo, t);
    if Shared(s, t) && s.tasks[t].foreground {
      SinceFlag(s, m, Next(m, Clear(t)).value, t, false, flags, sent);
    } else {
      SinceSame(s, m, Next(m, Clear(t)).value, flags, sent);
    }
  }

  lemma SinceSame(s: State, m: State, n: State, flags: map<nat, bool>, sent: map<nat, seq<Command>>)
    requires Since(s, m, flags, sent) && n.scopes == m.scopes && n.own == m.own && n.tasks == m.tasks
    ensures Since(s, n, flags, sent)
  {
    hide Rest;
  }

  lemma SentOne(s: State, todo: set<nat>, t: nat)
    requires Shared(s, t) && s.tasks[t].foreground && t !in todo
    ensures ClearedSent(s, todo, Some(t))[t := ClearedSent(s, todo, Some(t))[t] + [Reschedule]]
         == ClearedSent(s, todo, None)
  {
    var sent := ClearedSent(s, todo, Some(t));
    assert sent[t] + [Reschedule] == [Reschedule];
  }

  lemma RaisingSend(s: State, target: nat, m: State)
    requires Raising(s, target, m) && Next(m, SendReschedule).Some?
    ensures Raising(s, target, Next(m, SendReschedule).value)
  {
    hide Since, InForeground, ClearedFlags, LoopStep;
    var (todo, open) := (m.call.todo, m.call.sendTo);
    SentOne(s, todo, open.value);
    hide ClearedSent;
    SinceSent(s, m, Next(m, SendReschedule).value, open.value, Reschedule, ClearedFlags(s, todo),
              ClearedSent(s, todo, open));
  }

  lemma RaisingRaise(s: State, target: nat, m: State)
    requires Raising(s, target, m) && Next(m, Raise).Some?
    ensures Raising(s, target, Next(m, Raise).value)
  {
    hide Since, InForeground, ClearedFlags, ClearedSent, LoopStep;
    SinceFlag(s, m, Next(m, Raise).value, target, true, ClearedFlags(s, {}), ClearedSent(s, {}, None));
  }

  lemma PollSent(s: State, target: nat)
    requires target in s.tasks && !s.tasks[target].foreground
    ensures ClearedFlags(s, {})[target := true]
         == map t | t in s.tasks :: t == target || (s.tasks[t].foreground && !Shared(s, t))
    ensures ClearedSent(s, {}, None)[target := ClearedSent(s, {}, None)[target] + [PollNow]]
         == map t | t in s.tasks ::
              if t == target then [PollNow] else if Shared(s, t) && s.tasks[t].foreground then [Reschedule] else []
  {
    assert ClearedSent(s, {}, None)[target] + [PollNow] == [PollNow];
    hide Shared;
  }

  lemma RaisingPoll(s: State, target: nat, m: State)
    requires Raising(s, target, m) && Next(m, SendPollNow).Some? && !s.tasks[target].foreground
    ensures Raising(s, target, Next(m, SendPollNow).value)
  {
    hide Since, ClearedFlags, ClearedSent, LoopStep;
    PollSent(s, target);
    SinceSent(s, m, Next(m, SendPollNow).value, target, PollNow, ClearedFlags(s, {})[target := true],
              ClearedSent(s, {}, None));
  }

  lemma {:induction false} RaisingEnds(s: State, target: nat, m: State, steps: seq<Step>)
    requires Raising(s, target, m) && !s.tasks[target].foreground && Finishes(m, steps)
    ensures Run(m, steps).Some? && InForeground(s, target, Run(m, steps).value)
    decreases |steps|
  {
    hide Next, Since, InForeground, ClearedFlags, ClearedSent, Shared;
    if !m.call.Free? {
      var step := steps[0];
      BusyStep(m, step);
      if OfLoop(step) {
        RaisingLoop(s, target, m, step);
      } else {
        RaisingCall(s, target, m, step);
      }
      RaisingEnds(s, target, Next(m, step).value, steps[1..]);
    }
  }

  lemma RaisingCall(s: State, target: nat, m: State, step: Step)
    requires Raising(s, target, m) && !m.call.Free? && !s.tasks[target].foreground
    requires Next(m, step).Some? && (OfRaising(step) || step.SendLowered?)
    ensures Raising(s, target, Next(m, step).value)
  {
    hide Raising;
    match step {
      case Clear(t) => RaisingClear(s, target, m, t);
      case SendReschedule => RaisingSend(s, target, m);
      case Raise => RaisingRaise(s, target, m);
      case SendPollNow => RaisingPoll(s, target, m);
      case _ => NotLowered(s, target, m);
    }
  }

  lemma NotLowered(s: State, target: nat, m: State)
    requires Raising(s, target, m)
    ensures Next(m, SendLowered).None?
  {
    hide Since, InForeground, ClearedFlags, ClearedSent;
  }

  lemma RaisingStarts(s: State, id: string)
    requires Next(s, SetForeground(id)).Some?
    ensures id in s.scopes && s.scopes[id] in s.tasks && !s.tasks[s.scopes[id]].foreground
    ensures Raising(s, s.scopes[id], Next(s, SetForeground(id)).value)
  {
    hide Since, LoopStep, InForeground;
    SinceNow(s);
    NothingCleared(s);
    hide ClearedFlags, ClearedSent;
    SinceSame(s, s, Next(s, SetForeground(id)).value, ClearedFlags(s, s.scopes.Values),
              ClearedSent(s, s.scopes.Values, None));
  }

  lemma NothingCleared(s: State)
    ensures ClearedFlags(s, s.scopes.Values) == Flags(s) && ClearedSent(s, s.scopes.Values, None) == Nothing(s)
  {
  }

  /** However the tasks poll, receive and sleep meanwhile: when a call to move a scope to the foreground is over, it is
      there, and alone among the shared ones; it was told to poll at once, the others to rearm their timers. */
  lemma SetForegroundWorks(s: State, id: string, steps: seq<Step>)
    requires Next(s, SetForeground(id)).Some? && Finishes(Next(s, SetForeground(id)).value, steps)
    ensures id in s.scopes && s.scopes[id] in s.tasks
    ensures var n := Run(Next(s, SetForeground(id)).value, steps);
            n.Some? && n.value.call.Free? && InForeground(s, s.scopes[id], n.value)
  {
    hide Next, Raising, InForeground;
    RaisingStarts(s, id);
    RaisingEnds(s, s.scopes[id], Next(s, SetForeground(id)).value, steps);
    FreeAtTheEnd(Next(s, SetForeground(id)).value, steps);
  }

  lemma {:induction false} FreeAtTheEnd(m: State, steps: seq<Step>)
    requires Finishes(m, steps)
    ensures Run(m, steps).Some? && Run(m, steps).value.call.Free?
    decreases |steps|
  {
    hide Next;
    if !m.call.Free? {
      FreeAtTheEnd(Next(m, steps[0]).value, steps[1..]);
    }
  }

  lemma {:induction false} RaisingAt(s: State, target: nat, m: State, steps: seq<Step>, k: nat)
    requires Raising(s, target, m) && !s.tasks[target].foreground && Finishes(m, steps) && k <= |steps|
    ensures Run(m, steps[..k]).Some? && Raising(s, target, Run(m, steps[..k]).value)
    decreases k
  {
    hide Next, Raising;
    if k == 0 {
      assert steps[..k] == [];
    } else {
      var step := steps[0];
      BusyStep(m, step);
      if OfLoop(step) {
        RaisingLoop(s, target, m, step);
      } else {
        RaisingCall(s, target, m, step);
      }
      RaisingAt(s, target, Next(m, step).value, steps[1..], k - 1);
      assert steps[..k][0] == step && steps[..k][1..] == steps[1..][..k - 1];
    }
  }

  lemma NothingYet(s: State, target: nat, m: State)
    requires Raising(s, target, m) && !s.tasks[target].foreground
    ensures target in m.tasks
    ensures !m.tasks[target].foreground ==> Rest(s.tasks[target].queue, m.tasks[target].queue)
  {
    hide Rest;
    assert s.tasks[target].queue + [] == s.tasks[target].queue;
  }

  /** Throughout the call the scope is sent nothing before its flag is up, so that the poll it is told to make is
      followed by the foreground interval. */
  lemma FlagBeforePoll(s: State, id: string, steps: seq<Step>, k: nat)
    requires Next(s, SetForeground(id)).Some? && Finishes(Next(s, SetForeground(id)).value, steps) && k <= |steps|
    ensures id in s.scopes && s.scopes[id] in s.tasks
    ensures var (m, t) := (Run(Next(s, SetForeground(id)).value, steps[..k]), s.scopes[id]);
            && m.Some? && t in m.value.tasks
            && (!m.value.tasks[t].foreground ==> Rest(s.tasks[t].queue, m.value.tasks[t].queue))
  {
    hide Next, Raising, Rest;
    RaisingStarts(s, id);
    RaisingAt(s, s.scopes[id], Next(s, SetForeground(id)).value, steps, k);
    NothingYet(s, s.scopes[id], Run(Next(s, SetForeground(id)).value, steps[..k]).value);
  }

  // ---- Moving a scope to the background ----

  function LoweredFlags(s: State, target: nat): map<nat, bool> {
    map t | t in s.tasks :: t != target && s.tasks[t].foreground
  }

  function LoweredSent(s: State, target: nat): map<nat, seq<Command>> {
    map t | t in s.tasks :: if t == target then [Reschedule] else []
  }

  /** The call has put exactly this scope into the background: its flag is down and all others are as before; it was
      sent one `Reschedule`, and nobody anything else. */
  ghost predicate InBackground(s: State, target: nat, n: State) {
    target in s.tasks && Since(s, n, LoweredFlags(s, target), LoweredSent(s, target))
  }

  ghost predicate Lowering(s: State, target: nat, n: State) {
    && target in s.tasks
    && match n.call
       case Lowered(x) => x == target && Since(s, n, Flags(s)[target := false], Nothing(s))
       case Free => InBackground(s, target, n)
       case _ => false
  }

  lemma LoweringLoop(s: State, target: nat, m: State, step: Step)
    requires Lowering(s, target, m) && !m.call.Free? && OfLoop(step) && Next(m, step).Some?
    ensures Lowering(s, target, Next(m, step).value)
  {
    hide Since, Next, InBackground, Flags, Nothing;
    SinceLoop(s, m, step, Flags(s)[target := false], Nothing(s));
  }

  lemma LoweredAll(s: State, target: nat)
    requires target in s.tasks
    ensures Flags(s)[target := false] == LoweredFlags(s, target)
    ensures Nothing(s)[target := Nothing(s)[target] + [Reschedule]] == LoweredSent(s, target)
  {
    assert Nothing(s)[target] + [Reschedule] == [Reschedule];
  }

  lemma LoweringCall(s: State, target: nat, m: State, step: Step)
    requires Lowering(s, target, m) && !m.call.Free? && Next(m, step).Some? && !OfLoop(step)
    ensures Lowering(s, target, Next(m, step).value)
  {
    hide Since, Flags, Nothing, LoopStep, LoweredFlags, LoweredSent;
    assert step.SendLowered?;
    LoweredAll(s, target);
    SinceSent(s, m, Next(m, SendLowered).value, target, Reschedule, Flags(s)[target := false], Nothing(s));
  }

  lemma {:induction false} LoweringEnds(s: State, target: nat, m: State, steps: seq<Step>)
    requires Lowering(s, target, m) && Finishes(m, steps)
    ensures Run(m, steps).Some? && InBackground(s, target, Run(m, steps).value)
    decreases |steps|
  {
    hide Next, Since, InBackground;
    if !m.call.Free? {
      if OfLoop(steps[0]) {
        LoweringLoop(s, target, m, steps[0]);
      } else {
        LoweringCall(s, target, m, steps[0]);
      }
      LoweringEnds(s, target, Next(m, steps[0]).value, steps[1..]);
    }
  }

  lemma LoweringStarts(s: State, id: string)
    requires Next(s, SetBackground(id)).Some?
    ensures id in s.scopes && s.scopes[id] in s.tasks
    ensures Lowering(s, s.scopes[id], Next(s, SetBackground(id)).value)
  {
    hide Since, LoopStep, InBackground, Flags, Nothing;
    SinceNow(s);
    SinceFlag(s, s, Next(s, SetBackground(id)).value, s.scopes[id], false, Flags(s), Nothing(s));
  }

  /** When a call to move a scope to the background is over, it is there, and was told to rearm its timer without
      polling. */
  lemma SetBackgroundWorks(s: State, id: string, steps: seq<Step>)
    requires Next(s, SetBackground(id)).Some? && Finishes(Next(s, SetBackground(id)).value, steps)
    ensures id in s.scopes && s.scopes[id] in s.tasks
    ensures var n := Run(Next(s, SetBackground(id)).value, steps);
            n.Some? && n.value.call.Free? && InBackground(s, s.scopes[id], n.value)
  {
    hide Next, Lowering, InBackground;
    LoweringStarts(s, id);
    LoweringEnds(s, s.scopes[id], Next(s, SetBackground(id)).value, steps);
    FreeAtTheEnd(Next(s, SetBackground(id)).value, steps);
  }

  // ---- When calls act, and that they end ----

  /** In every run: a scope can be moved if and only if it is registered, is not the own volume's, and is not where it
      is moved to already; added if and only if its id is not registered, and removed if and only if it is. While
      one call is under way no other starts. */
  lemma CallsEnabled(own: string, steps: seq<Step>, id: string, t: nat)
    requires Run(Initial(own), steps).Some?
    ensures var s := Run(Initial(own), steps).value;
            && (id in s.scopes ==> s.scopes[id] in s.tasks && s.tasks[s.scopes[id]].id == id)
            && (Next(s, SetForeground(id)).Some? <==>
                  s.call.Free? && id in s.scopes && id != own && !s.tasks[s.scopes[id]].foreground)
            && (Next(s, SetBackground(id)).Some? <==>
                  s.call.Free? && id in s.scopes && id != own && s.tasks[s.scopes[id]].foreground)
            && (Next(s, Add(id, t)).Some? <==> s.call.Free? && id !in s.scopes && t !in s.tasks)
            && (Next(s, Remove(id)).Some? <==> s.call.Free? && id in s.scopes)
  {
    InvariantHolds(Initial(own), steps);
    OwnUnchanged(Initial(own), steps);
    hide Run, LoopStep, TimerSettled, CallSound, OneForeground;
  }

  /** How many steps a call has left. */
  function Left(call: Call): nat {
    match call
    case Free => 0
    case Clearing(_, todo, sendTo) => 2 + 2 * |todo| + (if sendTo.Some? then 1 else 0)
    case Raised(_) => 1
    case Lowered(_) => 1
  }

  lemma ClearMoves(s: State, t: nat)
    requires CallSound(s) && s.call.Clearing? && s.call.sendTo.None? && t in s.call.todo
    ensures Next(s, Clear(t)).Some? && Left(Next(s, Clear(t)).value.call) < Left(s.call)
  {
    hide LoopStep, SharedForeground;
    assert t in s.tasks;
    TakenOut(s.call.todo, t);
  }

  lemma CallMoves(s: State) returns (step: Step)
    requires CallSound(s) && !s.call.Free?
    ensures !OfLoop(step) && Next(s, step).Some? && Left(Next(s, step).value.call) < Left(s.call)
  {
    hide LoopStep, SharedForeground;
    if s.call.Clearing? && s.call.sendTo.None? && exists t :: t in s.call.todo {
      var t :| t in s.call.todo;
      step := Clear(t);
      ClearMoves(s, t);
    } else {
      step := if s.call.Lowered? then SendLowered else if s.call.Raised? then SendPollNow
              else if s.call.sendTo.Some? then SendReschedule else Raise;
    }
  }

  lemma TakenOut(todo: set<nat>, t: nat)
    requires t in todo
    ensures |todo - {t}| == |todo| - 1
  {
  }

  lemma {:induction false} CallCanFinish(s: State) returns (steps: seq<Step>)
    requires Invariant(s)
    ensures Finishes(s, steps) && forall k :: 0 <= k < |steps| ==> !OfLoop(steps[k])
    decreases Left(s.call)
  {
    hide Next, Registered, OneForeground, TimerSettled, CallSound, Left;
    if s.call.Free? {
      steps := [];
    } else {
      var step := CallMoves(s);
      InvariantKept(s, step);
      var rest := CallCanFinish(Next(s, step).value);
      steps := [step] + rest;
      assert steps[1..] == rest;
    }
  }

  /** In every run a call under way can be finished without waiting for any polling task. */
  lemma CallFinishes(own: string, earlier: seq<Step>) returns (steps: seq<Step>)
    requires Run(Initial(own), earlier).Some?
    ensures Finishes(Run(Initial(own), earlier).value, steps)
    ensures forall k :: 0 <= k < |steps| ==> !OfLoop(steps[k])
  {
    InvariantHolds(Initial(own), earlier);
    hide Run, Next, Finishes, Registered, OneForeground, TimerSettled, CallSound;
    steps := CallCanFinish(Run(Initial(own), earlier).value);
  }

  // ---- What the polling task does by itself ----

  function WithTask(s: State, t: nat, task: Task): State {
    s.(tasks := s.tasks[t := task])
  }

  lemma TwoSteps(s: State, a: Step, b: Step)
    requires Next(s, a).Some? && Next(Next(s, a).value, b).Some?
    ensures Run(s, [a, b]) == Next(Next(s, a).value, b)
  {
    hide Next;
    var (m, steps) := (Next(s, a).value, [a, b]);
    assert steps[1..] == [b] && [b][1..] == [];
    assert Run(m, [b]) == Run(Next(m, b).value, []);
  }

  lemma SetTwice(tasks: map<nat, Task>, t: nat, a: Task, b: Task)
    ensures tasks[t := a][t := b] == tasks[t := b]
  {
  }

  /** When a callback returns the timer is armed for what the flag says then; when the timer runs out the callback
      starts again. */
  lemma TimerWorks(s: State, t: nat)
    requires t in s.tasks
    ensures s.tasks[t].loop.Polling? ==>
              Run(s, [Return(t), Arm(t)])
              == Some(WithTask(s, t, s.tasks[t].(loop := Sleeping(s.tasks[t].foreground))))
    ensures s.tasks[t].loop.Sleeping? ==>
              Run(s, [Fire(t), Begin(t)]) == Some(WithTask(s, t, s.tasks[t].(loop := Polling)))
  {
    if s.tasks[t].loop.Polling? {
      TwoSteps(s, Return(t), Arm(t));
      var m := Next(s, Return(t)).value;
      SetTwice(s.tasks, t, m.tasks[t], Next(m, Arm(t)).value.tasks[t]);
    } else if s.tasks[t].loop.Sleeping? {
      TwoSteps(s, Fire(t), Begin(t));
      var m := Next(s, Fire(t)).value;
      SetTwice(s.tasks, t, m.tasks[t], Next(m, Begin(t)).value.tasks[t]);
    }
    hide Run, CallStep;
  }

  /** A sleeping task takes the oldest command out of its queue and acts on it: it polls, or rearms its timer. Without a
      command it goes on sleeping, unless its scope has been removed; then it ends. */
  lemma CommandsWork(s: State, t: nat)
    requires t in s.tasks && s.tasks[t].loop.Sleeping?
    ensures var task := s.tasks[t];
            if task.queue != [] then
              Run(s, [Receive(t), Begin(t)])
              == Some(WithTask(s, t, task.(queue := task.queue[1..],
                                           loop := if task.queue[0].PollNow? then Polling else Arming)))
            else
              Next(s, Receive(t)) == if task.closed then Some(WithTask(s, t, task.(loop := Over))) else None
  {
    if s.tasks[t].queue != [] {
      TwoSteps(s, Receive(t), Begin(t));
      var m := Next(s, Receive(t)).value;
      SetTwice(s.tasks, t, m.tasks[t], Next(m, Begin(t)).value.tasks[t]);
    }
    hide Run, CallStep;
  }

  /** Removing a scope unregisters it and closes its task's queue; nothing else changes. */
  lemma RemoveWorks(s: State, id: string)
    requires Next(s, Remove(id)).Some?
    ensures id in s.scopes && s.scopes[id] in s.tasks
    ensures var n := Next(s, Remove(id)).value;
            && n.own == s.own && n.call == s.call && n.tasks.Keys == s.tasks.Keys
            && (forall x :: x in n.scopes <==> x in s.scopes && x != id)
            && (forall x :: x in n.scopes ==> n.scopes[x] == s.scopes[x])
            && (forall t :: t in s.tasks ==>
                  n.tasks[t] == if t == s.scopes[id] then s.tasks[t].(closed := true) else s.tasks[t])
  {
  }
}
