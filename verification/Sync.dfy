/** Whole syncs: planning followed by carrying the plan out, again and again. */
module Sync {
  import opened Bytes
  import opened Collections
  import opened ConflictNames
  import opened StableSort
  import opened SyncPlan
  import opened SyncRun
  import opened TakeoutNames
  import opened Wrappers

  /** No remote name carries the conflict marker, and no symbolic link stands where a remote entry belongs. */
  ghost predicate Plain(s: State) {
    && (forall q :: q in s.remote && q != [] ==> Unmarked(q))
    && (forall q :: q in s.remote && q in s.local ==> !s.local[q].Symlink?)
  }

  lemma PlainGrown(s: State, t: State)
    requires Plain(s) && Grown(s, t)
    ensures Plain(t)
  {
    hide IsConflictName;
  }

  // ---- Planned transfers find what they expect ----

  lemma WantedReady(s: State, t: State, p: Path)
    requires Grown(s, t) && p != [] && ActionFor(s, p).Some?
    ensures Ready(t, ActionFor(s, p).value) && ActionFor(s, p).value.path == p
    ensures Plain(s) ==> Vacant(t, ActionFor(s, p).value)
  {
    hide IsConflictName;
  }

  /** Every planned transfer finds the entries it expects, and on a plain tree no download finds anything. */
  lemma PlanReady(s: State, t: State, plan: seq<Action>)
    requires Grown(s, t) && PlanFor(s, [], plan)
    ensures AllReady(t, plan) && (Plain(s) ==> AllVacant(t, plan))
  {
    hide Ready, Vacant, Wanted, ActionFor, Plain, Grown;
    forall k | 0 <= k < |plan|
      ensures Ready(t, plan[k]) && (Plain(s) ==> Vacant(t, plan[k]))
    {
      assert Wanted(s, [], plan[k].path);
      WantedNotRoot(s, plan[k].path);
      WantedReady(s, t, plan[k].path);
    }
  }

  lemma WantedNotRoot(s: State, p: Path)
    requires Wanted(s, [], p)
    ensures p != [] && ActionFor(s, p).Some?
  {
    hide ActionFor;
  }

  /** A plan carried out in the trees its planning left. */
  ghost function Carried(s: State, t: State, plan: seq<Action>, lucks: seq<Luck>): (State, bool)
    requires Grown(s, t) && PlanFor(s, [], plan) && |lucks| == |plan|
  {
    PlanReady(s, t, plan);
    Run(t, plan, lucks)
  }

  // ---- Convergence ----

  predicate ClockRuns(lucks: seq<Luck>) {
    forall i :: 0 <= i < |lucks| ==> lucks[i].now > 0
  }

  /** Every transfer finds nothing in its way, and the run gets to its end. */
  ghost predicate Succeeds(s: State, plan: seq<Action>, lucks: seq<Luck>) {
    && |lucks| == |plan| && AllReady(s, plan) && AllVacant(s, plan)
    && ClockRuns(lucks) && Run(s, plan, lucks).1
  }

  lemma KindsKept(s: State, plan: seq<Action>, lucks: seq<Luck>, q: Path)
    requires Succeeds(s, plan, lucks)
    ensures var n := Run(s, plan, lucks).0;
            if Planned(plan, q) then
              SameContent(n, q) && !(q in s.local && s.local[q].Dir?) && !(q in s.remote && s.remote[q].Folder?)
            else Untouched(s, q, n)
  {
    hide Run, SameContent, Untouched, Ready, Vacant;
    if Planned(plan, q) {
      var k :| 0 <= k < |plan| && plan[k].path == q;
      assert Ready(s, plan[k]) && Vacant(s, plan[k]);
      RunInStep(s, plan, lucks, k);
      PlannedIsFile(s, plan[k]);
    } else {
      RunUntouched(s, plan, lucks, q);
    }
  }

  lemma PlannedIsFile(s: State, a: Action)
    requires Ready(s, a) && Vacant(s, a)
    ensures !(a.path in s.local && s.local[a.path].Dir?) && !(a.path in s.remote && s.remote[a.path].Folder?)
  {
  }

  /** Transfers make and unmake no folder. */
  lemma EntersKept(s: State, plan: seq<Action>, lucks: seq<Luck>, q: Path)
    requires Plain(s) && Succeeds(s, plan, lucks)
    ensures Enters(s, q) == Enters(Run(s, plan, lucks).0, q)
  {
    hide Run, Succeeds, IsConflictName, Planned;
    KindsKept(s, plan, lucks, q);
  }

  lemma {:induction false} WalkedKept(s: State, plan: seq<Action>, lucks: seq<Luck>, dir: Path, q: Path)
    requires Plain(s) && Succeeds(s, plan, lucks)
    ensures Walked(s, dir, q) == Walked(Run(s, plan, lucks).0, dir, q)
    decreases |q|
  {
    hide Run, Succeeds, Plain, Enters;
    if q != dir && |q| > |dir| {
      EntersKept(s, plan, lucks, q);
      WalkedKept(s, plan, lucks, dir, q[..|q| - 1]);
    }
  }

  lemma ActionUntouched(s: State, q: Path, n: State)
    requires Plain(s) && Untouched(s, q, n) && ActionFor(s, q).None?
    ensures ActionFor(n, q).None?
  {
    hide IsConflictName;
  }

  /** Once both sides hold the same content, a transfer is wanted exactly when the times still differ. */
  lemma ActionInStep(n: State, q: Path)
    requires SameContent(n, q) && Unmarked(q)
    ensures ActionFor(n, q).None? <==> InStep(n, q)
  {
  }

  lemma CarriedSucceeds(s: State, t: State, plan: seq<Action>, lucks: seq<Luck>)
    requires Plain(s) && Grown(s, t) && PlanFor(s, [], plan) && |lucks| == |plan|
    requires Carried(s, t, plan, lucks).1 && ClockRuns(lucks)
    ensures AllReady(t, plan) && Succeeds(t, plan, lucks) && Plain(t)
    ensures Carried(s, t, plan, lucks) == Run(t, plan, lucks)
  {
    hide Plain, Grown, PlanFor, Run, AllReady, AllVacant;
    PlanReady(s, t, plan);
    PlainGrown(s, t);
  }

  /** After a fully successful sync with no outside changes, planning again finds nothing to transfer if and only if
      every transferred file had a time both sides represent: local times not before the epoch for uploads,
      remote times after it for downloads. */
  lemma Converges(s: State, t: State, plan: seq<Action>, lucks: seq<Luck>)
    requires Plain(s) && Grown(s, t) && PlanFor(s, [], plan) && |lucks| == |plan|
    requires Carried(s, t, plan, lucks).1 && ClockRuns(lucks)
    ensures PlanFor(Carried(s, t, plan, lucks).0, [], []) <==> forall k :: 0 <= k < |plan| ==> Timed(t, plan[k])
  {
    hide Carried, Run, Plain, Enters, Grown, ActionFor, Timed, InStep, Succeeds, Wanted;
    CarriedSucceeds(s, t, plan, lucks);
    var n := Run(t, plan, lucks).0;
    if k :| 0 <= k < |plan| && !Timed(t, plan[k]) {
      StillWanted(s, t, plan, lucks, k);
      assert Named([], AllNames(), plan[k].path) && Wanted(n, [], plan[k].path) && !Planned([], plan[k].path);
    } else {
      forall q | Named([], AllNames(), q)
        ensures !Wanted(n, [], q)
      {
        NoLongerWanted(s, t, plan, lucks, q);
      }
    }
  }

  lemma StillWanted(s: State, t: State, plan: seq<Action>, lucks: seq<Luck>, k: nat)
    requires Plain(t) && Grown(s, t) && PlanFor(s, [], plan) && Succeeds(t, plan, lucks) && k < |plan|
    requires !Timed(t, plan[k])
    ensures Wanted(Run(t, plan, lucks).0, [], plan[k].path) && plan[k].path != []
  {
    hide Run, Plain, Enters, Grown, ActionFor, Timed, InStep, Walked;
    var q := plan[k].path;
    var n := Run(t, plan, lucks).0;
    assert Wanted(s, [], q);
    assert Ready(t, plan[k]) && Vacant(t, plan[k]);
    RunInStep(t, plan, lucks, k);
    ActionInStep(n, q);
    GrownWalked(s, t, [], q[..|q| - 1]);
    WalkedKept(t, plan, lucks, [], q[..|q| - 1]);
  }

  lemma NoLongerWanted(s: State, t: State, plan: seq<Action>, lucks: seq<Luck>, q: Path)
    requires Plain(t) && Grown(s, t) && PlanFor(s, [], plan) && Succeeds(t, plan, lucks)
    requires forall k :: 0 <= k < |plan| ==> Timed(t, plan[k])
    ensures !Wanted(Run(t, plan, lucks).0, [], q)
  {
    hide Run, Plain, Grown, ActionFor, Timed, Walked, Exact, PlanFor;
    if k :| 0 <= k < |plan| && plan[k].path == q {
      PlannedSettled(t, plan, lucks, k);
    } else if Wanted(Run(t, plan, lucks).0, [], q) {
      NeverWanted(s, t, plan, lucks, q);
    }
  }

  lemma PlannedSettled(t: State, plan: seq<Action>, lucks: seq<Luck>, k: nat)
    requires Succeeds(t, plan, lucks) && k < |plan| && Timed(t, plan[k])
    ensures ActionFor(Run(t, plan, lucks).0, plan[k].path).None?
  {
    hide Run, ActionFor, InStep, Timed;
    assert Ready(t, plan[k]) && Vacant(t, plan[k]);
    RunInStep(t, plan, lucks, k);
    ActionInStep(Run(t, plan, lucks).0, plan[k].path);
  }

  lemma NeverWanted(s: State, t: State, plan: seq<Action>, lucks: seq<Luck>, q: Path)
    requires Plain(t) && Grown(s, t) && PlanFor(s, [], plan) && Succeeds(t, plan, lucks) && !Planned(plan, q)
    ensures !Wanted(Run(t, plan, lucks).0, [], q)
  {
    hide Run, Plain, Enters, Grown, ActionFor, Walked, Planned, Untouched;
    var n := Run(t, plan, lucks).0;
    if Wanted(n, [], q) {
      assert Named([], AllNames(), q);
      WalkedKept(t, plan, lucks, [], q[..|q| - 1]);
      GrownWalked(s, t, [], q[..|q| - 1]);
      assert !Wanted(s, [], q);
      GrownSame(s, t, q);
      RunUntouched(t, plan, lucks, q);
      ActionUntouched(t, q, n);
    }
  }

  /** After a successful sync every compared path that is a file on both sides holds the newer of the two contents on
      both; a file only one side had is now on both. */
  lemma NewerWins(s: State, t: State, plan: seq<Action>, lucks: seq<Luck>, p: Path)
    requires Plain(s) && Grown(s, t) && PlanFor(s, [], plan) && |lucks| == |plan|
    requires Carried(s, t, plan, lucks).1 && ClockRuns(lucks)
    requires p != [] && Walked(s, [], p[..|p| - 1])
    ensures var n := Carried(s, t, plan, lucks).0;
            && (Seen(s, p) && HasFile(s, p) && HasDoc(s, p) && FileMtime(s.local[p].mtime) != s.remote[p].mtime ==>
                  SameContent(n, p) && n.local[p].content
                  == if FileMtime(s.local[p].mtime) > s.remote[p].mtime then s.local[p].content
                      else s.remote[p].content)
            && (Seen(s, p) && HasFile(s, p) && p !in s.remote ==>
                  SameContent(n, p) && n.local[p].content == s.local[p].content)
            && (HasDoc(s, p) && p !in s.local ==> SameContent(n, p) && n.local[p].content == s.remote[p].content)
  {
    hide Carried, Run, Plain, Grown, AllReady, AllVacant, Walked, IsConflictName, SameContent, InStep, Timed;
    if Wanted(s, [], p) {
      CarriedSucceeds(s, t, plan, lucks);
      assert Named([], AllNames(), p);
      var k :| 0 <= k < |plan| && plan[k].path == p;
      WantedReady(s, t, p);
      GrownEntries(s, t, p);
      RunInStep(t, plan, lucks, k);
    }
  }

  lemma GrownEntries(s: State, t: State, p: Path)
    requires Grown(s, t)
    ensures (p in s.local ==> p in t.local && t.local[p] == s.local[p])
    ensures (p in s.remote ==> p in t.remote && t.remote[p] == s.remote[p])
  {
  }

  // ---- Sorting a plan ----

  function LocalSize(s: State, p: Path): nat {
    if HasFile(s, p) then |s.local[p].content| else 0
  }

  function RemoteSize(s: State, p: Path): nat {
    if HasDoc(s, p) then |s.remote[p].content| else 0
  }

  /** Every byte the action moves. */
  function Size(s: State, a: Action): nat {
    match a
    case Upload(p) => LocalSize(s, p)
    case ReplaceRemote(p) => RemoteSize(s, p) + LocalSize(s, p)
    case ReplaceLocal(p) => RemoteSize(s, p)
    case Download(p) => RemoteSize(s, p)
  }

  function SizeIn(s: State): Action -> nat {
    a => Size(s, a)
  }

  /** The order of a plan does not matter for what it lists. */
  lemma ExactReordered(s: State, plan: seq<Action>, sorted: seq<Action>)
    requires PlanFor(s, [], plan) && multiset(sorted) == multiset(plan)
    ensures PlanFor(s, [], sorted)
  {
    hide Wanted, ActionFor;
    forall k | 0 <= k < |sorted|
      ensures Named([], AllNames(), sorted[k].path) && Wanted(s, [], sorted[k].path)
              && ActionFor(s, sorted[k].path) == Some(sorted[k])
    {
      assert sorted[k] in multiset(sorted);
      var i :| 0 <= i < |plan| && plan[i] == sorted[k];
    }
    forall i, j | 0 <= i < j < |sorted|
      ensures sorted[i].path != sorted[j].path
    {
      if sorted[i].path == sorted[j].path {
        assert sorted[i] == sorted[j];
        Twice(sorted, i, j);
        var k :| 0 <= k < |plan| && plan[k] == sorted[i];
        Once(plan, k);
      }
    }
    forall p | Named([], AllNames(), p) && Wanted(s, [], p)
      ensures Planned(sorted, p)
    {
      var k :| 0 <= k < |plan| && plan[k].path == p;
      assert plan[k] in multiset(plan);
      var i :| 0 <= i < |sorted| && sorted[i] == plan[k];
    }
  }

  lemma Twice(s: seq<Action>, i: nat, j: nat)
    requires i < j < |s| && s[i] == s[j]
    ensures multiset(s)[s[i]] >= 2
  {
    assert s == s[..j] + [s[j]] + s[j + 1..];
    assert s[i] in multiset(s[..j]) by {
      assert s[..j][i] == s[i];
    }
    Counted(s[..j], [s[j]], s[j + 1..], s[i]);
  }

  lemma Counted(a: seq<Action>, b: seq<Action>, c: seq<Action>, x: Action)
    ensures multiset(a + b + c)[x] == multiset(a)[x] + multiset(b)[x] + multiset(c)[x]
  {
    assert multiset(a + b + c) == multiset(a + b) + multiset(c);
    assert multiset(a + b) == multiset(a) + multiset(b);
  }

  lemma Once(s: seq<Action>, k: nat)
    requires k < |s| && forall i, j :: 0 <= i < j < |s| ==> s[i].path != s[j].path
    ensures multiset(s)[s[k]] == 1
  {
    assert s == s[..k] + [s[k]] + s[k + 1..];
    Counted(s[..k], [s[k]], s[k + 1..], s[k]);
    assert s[k] !in s[..k] && s[k] !in s[k + 1..];
  }

  /** Sorting keeps a plan exact and puts it into the order in which it is carried out. */
  lemma SortedPlan(s: State, t: State, plan: seq<Action>)
    requires PlanFor(s, [], plan)
    ensures var sorted := SortedBy(SizeIn(t), plan); PlanFor(s, [], sorted) && Ascending(SizeIn(t), sorted)
  {
    hide PlanFor, Ascending, SortedBy;
    SortedAscends(SizeIn(t), plan);
    ExactReordered(s, plan, SortedBy(SizeIn(t), plan));
  }

  // ---- One sync ----

  /** The planner got to its end, and the transfers were carried out smallest first, perhaps only in part. */
  ghost predicate RoundBy(s: State, t: State, plan: seq<Action>, lucks: seq<Luck>, n: State) {
    && Grown(s, t) && Unblocked(s, [], AllNames()) && Filled(s, [], AllNames(), t)
    && PlanFor(s, [], plan) && Ascending(SizeIn(t), plan) && |lucks| == |plan|
    && n == Carried(s, t, plan, lucks).0
  }

  /** One sync, which may have stopped anywhere, also in the middle of its planning. */
  ghost predicate Round(s: State, n: State) {
    Grown(s, n) || exists t, plan, lucks :: RoundBy(s, t, plan, lucks, n)
  }

  // ---- When nothing is lost ----

  /** The local names that are taken once planning has made the missing folders. */
  ghost function TakenNames(s: State): set<Path> {
    s.local.Keys + set q | q in s.remote.Keys && q != [] && Walked(s, [], q)
  }

  lemma TakenAfter(s: State, t: State)
    requires Filled(s, [], AllNames(), t)
    ensures t.local.Keys == TakenNames(s)
  {
    forall q | q in Folders(s, [], AllNames())
      ensures q in s.local || q in s.remote
    {
    }
  }

  predicate Fetched(s: State, q: Path) {
    Wanted(s, [], q) && ActionFor(s, q) == Some(Download(q))
  }

  /** No file will be downloaded over a local one, nor over the conflict copy of another file: neither does such a file
      exist, nor is its name one that a wanted replacement could choose for its copy. Names, kinds and times decide
      this before the sync. A tree in which the planning gets stuck is left alone. */
  ghost predicate Guarded(s: State) {
    Unblocked(s, [], AllNames()) ==>
      forall q :: Fetched(s, q) ==> !HasFile(s, q) && NoCopyAt(s, q)
  }

  /** No wanted replacement could choose `q` for its conflict copy. */
  ghost predicate NoCopyAt(s: State, q: Path) {
    forall p :: Wanted(s, [], p) ==> Spares(TakenNames(s), ActionFor(s, p).value, q)
  }

  lemma GuardedSheltered(s: State, t: State, plan: seq<Action>)
    requires Guarded(s) && Unblocked(s, [], AllNames()) && Filled(s, [], AllNames(), t) && PlanFor(s, [], plan)
    ensures Sheltered(t, plan)
  {
    hide Unblocked, Filled, Spares, Wanted, ActionFor, TakenNames, Walked;
    TakenAfter(s, t);
    FilledGrown(s, [], AllNames(), t);
    forall j | 0 <= j < |plan|
      ensures plan[j].Download? ==> Fetched(s, plan[j].path)
      ensures Clear(t, plan[j])
    {
      ActionPath(s, plan[j].path);
      FilesAsBefore(s, t, plan[j].path);
    }
    forall i, j | 0 <= i < |plan| && 0 <= j < |plan| && plan[j].Download?
      ensures Spares(t.local.Keys, plan[i], plan[j].path)
    {
      assert Fetched(s, plan[j].path) && NoCopyAt(s, plan[j].path) && Wanted(s, [], plan[i].path);
    }
  }

  lemma ActionPath(s: State, p: Path)
    ensures ActionFor(s, p).Some? ==> ActionFor(s, p).value.path == p
  {
  }

  lemma FilesAsBefore(s: State, t: State, p: Path)
    requires Grown(s, t)
    ensures HasFile(t, p) <==> HasFile(s, p)
    ensures HasDoc(t, p) <==> HasDoc(s, p)
  {
  }

  lemma PreservedGrown(s: State, t: State, p: Path, content: seq<Byte>)
    requires Grown(s, t) && Preserved(s, p, content)
    ensures Preserved(t, p, content)
  {
    hide ConflictOf, Seen;
  }

  /** A guarded sync keeps every version that was at a path, remote, or in a conflict copy. */
  lemma RoundPreserves(s: State, n: State, p: Path, content: seq<Byte>)
    requires Guarded(s) && Round(s, n) && Preserved(s, p, content)
    ensures Preserved(n, p, content)
  {
    hide Guarded, Preserved, Grown, Run, PlanFor, AllReady, Unblocked, Filled, Ascending;
    if Grown(s, n) {
      PreservedGrown(s, n, p, content);
    } else {
      var t, plan, lucks :| RoundBy(s, t, plan, lucks, n);
      PreservedGrown(s, t, p, content);
      PlanReady(s, t, plan);
      GuardedSheltered(s, t, plan);
      RunPreserves(t, plan, lucks, p, content);
    }
  }

  /** Nothing is ever lost: whatever was at a path, locally or remotely, before any number of guarded syncs, each of
      which may have stopped anywhere, is still at the local path, in a conflict copy of it, or remote. */
  lemma {:induction false} NothingLost(syncs: seq<State>, k: nat, p: Path, content: seq<Byte>)
    requires k < |syncs| && forall i :: 0 <= i < k ==> Guarded(syncs[i])
    requires forall i :: 0 <= i < |syncs| - 1 ==> Round(syncs[i], syncs[i + 1])
    requires (HasFile(syncs[0], p) && syncs[0].local[p].content == content)
             || (HasDoc(syncs[0], p) && syncs[0].remote[p].content == content)
    ensures Preserved(syncs[k], p, content)
  {
    hide Guarded, Round;
    if k > 0 {
      NothingLost(syncs, k - 1, p, content);
      assert Round(syncs[k - 1], syncs[(k - 1) + 1]);
      hide Preserved;
      RoundPreserves(syncs[k - 1], syncs[k], p, content);
    }
  }

  // ---- Plain trees are guarded, and stay so ----

  lemma PlainGuarded(s: State)
    requires Plain(s)
    ensures Guarded(s)
  {
    hide Unblocked, TakenNames, Spares, Fetched, Plain;
    forall q | Fetched(s, q)
      ensures !HasFile(s, q) && NoCopyAt(s, q)
    {
      FetchedPlain(s, q);
      forall p | Wanted(s, [], p)
        ensures Spares(TakenNames(s), ActionFor(s, p).value, q)
      {
        UnmarkedSpared(TakenNames(s), ActionFor(s, p).value, q);
      }
    }
  }

  lemma FetchedPlain(s: State, q: Path)
    requires Plain(s) && Fetched(s, q)
    ensures !HasFile(s, q) && Unmarked(q)
  {
    hide IsConflictName;
    WantedNotRoot(s, q);
  }

  lemma UnmarkedSpared(taken: set<Path>, a: Action, q: Path)
    requires Unmarked(q)
    ensures Spares(taken, a, q)
  {
    hide FreeConflict, ConflictOf, IsConflictName;
    if (a.ReplaceLocal? || a.ReplaceRemote?) && a.path != [] {
      forall stamp: nat
        ensures FreeConflict(taken, a.path, SideOf(a), stamp, 0) != Some(q)
      {
        var c := FreeConflict(taken, a.path, SideOf(a), stamp, 0);
        if c.Some? {
          ConflictOfIsConflict(a.path, c.value);
        }
      }
    }
  }

  lemma FramePlain(s: State, p: Path, n: State)
    requires Plain(s) && Frame(s, p, n) && Unmarked(p) && !(p in s.local && s.local[p].Symlink?)
    ensures Plain(n)
  {
    hide ConflictOf, IsConflictName;
    forall q | q in n.remote && q in n.local
      ensures !n.local[q].Symlink?
    {
      if q !in s.local && q != p {
        ConflictOfIsConflict(p, q);
      }
    }
  }

  lemma ExecPlain(s: State, a: Action, luck: Luck)
    requires Plain(s) && Ready(s, a) && Vacant(s, a)
    ensures Plain(Exec(s, a, luck).0)
  {
    hide Exec, Plain, Frame, IsConflictName;
    ExecFrame(s, a, luck);
    FramePlain(s, a.path, Exec(s, a, luck).0);
  }

  lemma {:induction false} RunPlain(s: State, plan: seq<Action>, lucks: seq<Luck>)
    requires Plain(s) && |lucks| == |plan| && AllReady(s, plan) && AllVacant(s, plan)
    ensures Plain(Run(s, plan, lucks).0)
    decreases |plan|
  {
    hide Exec, Plain, Ready, Vacant;
    if plan != [] {
      ReadyStays(s, plan, lucks[0]);
      VacantStays(s, plan, lucks[0]);
      assert Ready(s, plan[0]) && Vacant(s, plan[0]);
      ExecPlain(s, plan[0], lucks[0]);
      var (next, ok) := Exec(s, plan[0], lucks[0]);
      if ok {
        RunPlain(next, plan[1..], lucks[1..]);
      }
    }
  }

  lemma RoundPlain(s: State, n: State)
    requires Plain(s) && Round(s, n)
    ensures Plain(n)
  {
    hide Plain, Grown, Run, PlanFor, AllReady, AllVacant, Unblocked, Filled, Ascending;
    if Grown(s, n) {
      PlainGrown(s, n);
    } else {
      var t, plan, lucks :| RoundBy(s, t, plan, lucks, n);
      PlainGrown(s, t);
      PlanReady(s, t, plan);
      RunPlain(t, plan, lucks);
    }
  }

  /** A plain tree is guarded in this and every later sync. */
  lemma {:induction false} PlainStaysGuarded(syncs: seq<State>, k: nat)
    requires k < |syncs| && Plain(syncs[0])
    requires forall i :: 0 <= i < |syncs| - 1 ==> Round(syncs[i], syncs[i + 1])
    ensures Plain(syncs[k]) && Guarded(syncs[k])
  {
    hide Plain, Round, Guarded;
    if k > 0 {
      PlainStaysGuarded(syncs, k - 1);
      assert Round(syncs[k - 1], syncs[(k - 1) + 1]);
      RoundPlain(syncs[k - 1], syncs[k]);
    }
    PlainGuarded(syncs[k]);
  }
}
