/** One sync as the program runs it: the planner, then the executor. */
module SyncJob {
  import opened Bytes
  import opened ConflictNames
  import opened StableSort
  import opened Sync
  import opened SyncMirror
  import opened SyncPlan
  import opened SyncRun
  import opened TakeoutNames
  import opened Wrappers

  class Executor {
    var local: map<Path, Local>
    var remote: map<Path, Remote>

    function Contents(): State
      reads this
    {
      State(local, remote)
    }

    constructor (s: State)
      ensures Contents() == s
    {
      local, remote := s.local, s.remote;
    }

    /** Makes a conflict copy of the file at `p` under a name that is not taken. */
    method CopyConflictFile(p: Path, side: Side, luck: Luck) returns (conflict: Option<Path>)
      requires p != [] && HasFile(Contents(), p)
      modifies this`local
      ensures var c := Conflict(old(Contents()), p, side, luck);
              && (c.None? ==> conflict.None? && local == old(local))
              && (c.Some? ==>
                    && local == Written(old(local), c.value, File(old(local)[p].content, luck.now), luck.copy)
                    && conflict == if luck.copy.Complete? then c else None)
    {
      var (name, taken) := (p[|p| - 1], local.Keys);
      conflict := None;
      for index := 0 to COPIES
        invariant local == old(local)
        invariant FreeConflict(taken, p, side, luck.stamp, 0) == FreeConflict(taken, p, side, luck.stamp, index)
      {
        hide ConflictName;
        var candidate := Sibling(p, ConflictName(name, side, luck.stamp, index));
        if candidate !in local {
          local := Written(local, candidate, File(local[p].content, luck.now), luck.copy);
          return if luck.copy.Complete? then Some(candidate) else None;
        }
      }
    }

    /** Downloads the remote file at `p` to `target`, with its time. */
    method DownloadFile(p: Path, target: Path, luck: Luck) returns (ok: bool)
      requires HasDoc(Contents(), p)
      modifies this`local
      ensures (local, ok) == Received(old(local), target, Downloaded(remote[p], luck.now), luck.download)
    {
      if target in local && local[target].Dir? {
        return false;
      }
      ok := luck.download.Complete?;
      if target !in local || local[target].File? {
        var mtime := if remote[p].mtime > 0 then remote[p].mtime else luck.now;
        local := Written(local, target, File(remote[p].content, mtime), luck.download);
      }
    }

    /** Uploads the local file at `p`, with its time, as a new file or a new revision. */
    method UploadFile(p: Path, luck: Luck) returns (ok: bool)
      requires HasFile(Contents(), p)
      modifies this`remote
      ensures remote == if ok then old(remote)[p := Uploaded(local[p])] else old(remote)
      ensures ok == luck.upload
    {
      ok := luck.upload;
      if ok {
        remote := remote[p := Doc(local[p].content, local[p].mtime)];
      }
    }

    /** The remote version goes to a conflict copy before the local one is uploaded over it. */
    method KeepRemote(p: Path, luck: Luck) returns (ok: bool)
      requires Ready(Contents(), ReplaceRemote(p))
      modifies this
      ensures (Contents(), ok) == Exec(old(Contents()), ReplaceRemote(p), luck)
    {
      hide FreeConflict, IsConflictName, Received, Written, ConflictOf;
      ghost var s := Contents();
      var conflict := CopyConflictFile(p, RemoteSide, luck);
      if conflict.None? {
        return false;
      }
      ConflictIsNew(s, p, RemoteSide, luck);
      var c := conflict.value;
      WrittenApart(s.local, c, File(s.local[p].content, luck.now), luck.copy, p);
      ReceivedFile(local, c, Downloaded(remote[p], luck.now), luck.download);
      WrittenApart(local, c, Downloaded(remote[p], luck.now), luck.download, p);
      ok := DownloadFile(p, c, luck);
      if ok {
        ok := UploadFile(p, luck);
      }
    }

    /** The local version goes to a conflict copy before the remote one is downloaded over it. */
    method KeepLocal(p: Path, luck: Luck) returns (ok: bool)
      requires Ready(Contents(), ReplaceLocal(p))
      modifies this
      ensures (Contents(), ok) == Exec(old(Contents()), ReplaceLocal(p), luck)
    {
      hide FreeConflict, IsConflictName, Received, Written, ConflictOf;
      ghost var s := Contents();
      var conflict := CopyConflictFile(p, LocalSide, luck);
      if conflict.None? {
        return false;
      }
      ConflictIsNew(s, p, LocalSide, luck);
      WrittenApart(s.local, conflict.value, File(s.local[p].content, luck.now), luck.copy, p);
      ReceivedFile(local, p, Downloaded(remote[p], luck.now), luck.download);
      ok := DownloadFile(p, p, luck);
    }

    method Transfer(a: Action, luck: Luck) returns (ok: bool)
      requires Ready(Contents(), a)
      modifies this
      ensures (Contents(), ok) == Exec(old(Contents()), a, luck)
    {
      hide FreeConflict, IsConflictName, Received, Written, ConflictOf, Conflict;
      match a {
        case Upload(p) =>
          ok := UploadFile(p, luck);
        case ReplaceRemote(p) =>
          ok := KeepRemote(p, luck);
        case ReplaceLocal(p) =>
          ok := KeepLocal(p, luck);
        case Download(p) =>
          ok := DownloadFile(p, p, luck);
      }
    }

    /** Carries out a plan smallest transfer first, stopping at the first failure. */
    method RunPlan(plan: seq<Action>, fate: nat -> Luck) returns (ok: bool, ghost lucks: seq<Luck>)
      requires AllReady(Contents(), plan)
      modifies this
      ensures var sorted := SortedBy(SizeIn(old(Contents())), plan);
              && AllReady(old(Contents()), sorted) && lucks == Lucks(fate, |plan|)
              && (Contents(), ok) == Run(old(Contents()), sorted, lucks)
    {
      var s := Contents();
      var order := SortBy(SizeIn(s), plan);
      lucks := Lucks(fate, |plan|);
      ReadySorted(s, plan);
      ok := true;
      for id := 0 to |order|
        invariant AllReady(Contents(), order[id..])
        invariant Run(s, order, lucks) == Run(Contents(), order[id..], lucks[id..])
      {
        ghost var (rest, left) := (order[id..], lucks[id..]);
        assert rest[1..] == order[id + 1..] && left[1..] == lucks[id + 1..] && rest[0] == order[id]
            && left[0] == lucks[id];
        ReadyStays(Contents(), rest, left[0]);
        hide Exec, AllReady, SizeIn;
        FirstReady(Contents(), rest);
        ok := Transfer(order[id], fate(id));
        if !ok {
          return;
        }
      }
    }
  }

  lemma WrittenApart(local: map<Path, Local>, c: Path, whole: Local, w: Write, p: Path)
    requires p != c && p in local && local[p].File? && whole.File?
    ensures var n := Written(local, c, whole, w);
            && p in n && n[p] == local[p]
            && (c in n ==> n[c].File? || (c in local && n[c] == local[c]))
  {
  }

  /** Where nothing but a file can be in the way, a download writes it. */
  lemma ReceivedFile(local: map<Path, Local>, p: Path, whole: Local, w: Write)
    requires p in local ==> local[p].File?
    ensures Received(local, p, whole, w) == (Written(local, p, whole, w), w.Complete?)
  {
  }

  /** What the outside does to the first, the second and so on of `n` transfers. */
  function Lucks(fate: nat -> Luck, n: nat): (lucks: seq<Luck>)
    ensures |lucks| == n && forall k :: 0 <= k < n ==> lucks[k] == fate(k)
  {
    seq(n, k requires 0 <= k < n => fate(k))
  }

  lemma FirstReady(s: State, plan: seq<Action>)
    requires plan != [] && AllReady(s, plan)
    ensures Ready(s, plan[0])
  {
  }

  lemma ReadySorted(s: State, plan: seq<Action>)
    requires AllReady(s, plan)
    ensures AllReady(s, SortedBy(SizeIn(s), plan))
  {
    hide Ready, SizeIn, SortedBy;
    SortedAscends(SizeIn(s), plan);
    var sorted := SortedBy(SizeIn(s), plan);
    forall k | 0 <= k < |sorted|
      ensures Ready(s, sorted[k])
    {
      assert sorted[k] in multiset(sorted);
      var i :| 0 <= i < |plan| && plan[i] == sorted[k];
    }
    forall i, j | 0 <= i < j < |sorted|
      ensures sorted[i].path != sorted[j].path
    {
      if sorted[i].path == sorted[j].path {
        assert sorted[i] in multiset(sorted) && sorted[j] in multiset(sorted);
        var k :| 0 <= k < |plan| && plan[k] == sorted[i];
        var l :| 0 <= l < |plan| && plan[l] == sorted[j];
        assert k == l;
        Twice(sorted, i, j);
        Once(plan, k);
      }
    }
  }

  /** A whole sync. Whatever happens it is a round, so nothing is lost when the tree is guarded. It gets to the
      transfers exactly if the comparison gets stuck nowhere, which it never does on a plain tree. There it succeeds
      if and only if every transfer is fortunate; then both sides mirror each other, and the next sync has nothing to
      do if and only if all transferred times are ones both sides represent. */
  method SyncOnce(s: State, ghost bound: nat, fate: nat -> Luck)
      returns (n: State, planned: bool, ok: bool, ghost t: State, ghost plan: seq<Action>)
    requires Bounded(s, bound)
    ensures Round(s, n)
    ensures planned <==> Unblocked(s, [], AllNames())
    ensures planned ==> RoundBy(s, t, plan, Lucks(fate, |plan|), n) && ok == Carried(s, t, plan, Lucks(fate, |plan|)).1
    ensures !planned ==> !ok && Grown(s, n)
    ensures ok && Plain(s) && ClockRuns(Lucks(fate, |plan|)) ==>
              (PlanFor(n, [], []) <==> forall k :: 0 <= k < |plan| ==> Timed(t, plan[k]))
    ensures PlainTree(s) ==> planned && (ok <==> forall k :: 0 <= k < |plan| ==> Fortunate(t, plan[k], fate(k)))
    ensures ok && PlainTree(s) ==> Mirrored(s, n)
  {
    var planner := new Planner(s.local, s.remote);
    assert planner.Contents() == s;
    var listed;
    hide PlanFor, Grown, Filled, Unblocked, Run, AllReady, AllNames, Ascending, Plain, Bounded, SizeIn, SortedBy, Timed,
        PlainTree, Mirrored, Fortunate;
    if PlainTree(s) {
      PlainUnblocked(s);
    }
    listed, planned := planner.PlanTree([], bound);
    var made := State(planner.local, planner.remote);
    assert made == planner.Contents();
    if !planned {
      return made, false, false, made, [];
    }
    t := made;
    PlanReady(s, made, listed);
    var executor := new Executor(made);
    ghost var lucks;
    ok, lucks := executor.RunPlan(listed, fate);
    n := State(executor.local, executor.remote);
    plan := SortedBy(SizeIn(made), listed);
    SortedPlan(s, made, listed);
    assert RoundBy(s, t, plan, lucks, n);
    if ok && Plain(s) && ClockRuns(lucks) {
      Converges(s, t, plan, lucks);
    }
    if PlainTree(s) {
      SyncSucceeds(s, t, plan, lucks);
      if ok {
        MirrorHolds(s, t, plan, lucks);
      }
    }
  }
}
