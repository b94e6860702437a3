/** What a successful sync leaves at every path, told from the entries that were there and their names alone, and when a
    sync succeeds. */
module SyncMirror {
  import opened Bytes
  import opened ConflictNames
  import opened Sync
  import opened SyncPlan
  import opened SyncRun
  import opened TakeoutNames
  import opened Wrappers

  // ---- Names and trees ----

  /** The name carries the text by which conflict copies are told. */
  ghost predicate Marked(name: string) {
    exists a: string, b: string :: name == a + " (pdcli conflict " + b
  }

  /** Exactly the marked names are passed over as conflict copies. */
  lemma MarkedExactly(name: string)
    ensures IsConflictName(name) <==> Marked(name)
  {
    if i :| 0 <= i <= |name| && OccursAt(name, MARK, i) {
      var (a, b) := (name[..i], name[i + |MARK|..]);
      assert name == a + " (pdcli conflict " + b;
    }
    if a: string, b: string :| name == a + " (pdcli conflict " + b {
      ContainsMiddle(a, MARK, b);
    }
  }

  ghost predicate MarkedAt(p: Path) {
    p != [] && Marked(p[|p| - 1])
  }

  lemma UnmarkedExactly(p: Path)
    ensures Unmarked(p) <==> p != [] && !MarkedAt(p)
  {
    hide IsConflictName, Marked;
    if p != [] {
      MarkedExactly(p[|p| - 1]);
    }
  }

  /** No remote name is marked, and no symbolic link stands where a remote entry belongs. */
  ghost predicate PlainTree(s: State) {
    && (forall q :: q in s.remote ==> !MarkedAt(q))
    && (forall q :: q in s.remote && q in s.local ==> !s.local[q].Symlink?)
  }

  lemma PlainTreePlain(s: State)
    ensures PlainTree(s) <==> Plain(s)
  {
    hide Unmarked, Marked;
    forall q
      ensures Unmarked(q) <==> q != [] && !MarkedAt(q)
    {
      UnmarkedExactly(q);
    }
  }

  /** There is a folder of an unmarked name, on every side that has the path. */
  ghost predicate FolderAt(s: State, q: Path) {
    && (q in s.local || q in s.remote) && !MarkedAt(q)
    && (q in s.local ==> s.local[q].Dir?) && (q in s.remote ==> s.remote[q].Folder?)
  }

  /** All folders above `p` are such. */
  ghost predicate Open(s: State, p: Path) {
    forall i :: 0 < i < |p| ==> FolderAt(s, p[..i])
  }

  lemma EntersExactly(s: State, q: Path)
    requires PlainTree(s) && q != []
    ensures Enters(s, q) <==> FolderAt(s, q)
  {
    hide IsConflictName, Marked;
    MarkedExactly(q[|q| - 1]);
  }

  lemma {:induction false} WalkedExactly(s: State, p: Path)
    requires PlainTree(s)
    ensures Walked(s, [], p) <==> Open(s, p) && (p != [] ==> FolderAt(s, p))
    decreases |p|
  {
    hide Enters, FolderAt, PlainTree;
    if p != [] {
      var q := p[..|p| - 1];
      WalkedExactly(s, q);
      EntersExactly(s, p);
      OpenAbove(s, p);
    }
  }

  lemma OpenAbove(s: State, p: Path)
    requires p != []
    ensures Open(s, p) <==> Open(s, p[..|p| - 1]) && (|p| > 1 ==> FolderAt(s, p[..|p| - 1]))
  {
    hide FolderAt;
    var q := p[..|p| - 1];
    assert forall i :: 0 < i < |q| ==> q[..i] == p[..i];
  }

  lemma ComparedExactly(s: State, p: Path)
    requires PlainTree(s) && p != []
    ensures Compared(s, [], p) <==> Open(s, p)
  {
    hide FolderAt, PlainTree;
    WalkedExactly(s, p[..|p| - 1]);
    OpenAbove(s, p);
  }

  /** A plain tree never stops the planning. */
  lemma PlainUnblocked(s: State)
    requires PlainTree(s)
    ensures Unblocked(s, [], AllNames())
  {
    hide Compared, Marked, IsConflictName;
    forall p | Named([], AllNames(), p)
      ensures !StuckAt(s, [], p)
    {
      MarkedExactly(p[|p| - 1]);
    }
  }

  // ---- What one transfer delivers ----

  /** Both sides have the file, with the content and the time of the side it came from; a download keeps the remote time
      if that is after the epoch. */
  predicate Delivered(s: State, a: Action, n: State) {
    var p := a.path;
    && p in n.local && n.local[p].File? && p in n.remote && n.remote[p].Doc?
    && if a.Upload? || a.ReplaceRemote? then
         p in s.local && s.local[p].File? && n.local[p] == s.local[p]
         && n.remote[p].content == s.local[p].content && n.remote[p].mtime == s.local[p].mtime
       else
         p in s.remote && n.remote[p] == s.remote[p] && n.local[p].content == n.remote[p].content
         && (n.remote[p].mtime > 0 ==> n.local[p].mtime == n.remote[p].mtime)
  }

  lemma ExecDelivers(s: State, a: Action, luck: Luck)
    requires Ready(s, a) && Vacant(s, a) && Exec(s, a, luck).1
    ensures Delivered(s, a, Exec(s, a, luck).0)
  {
    match a {
      case Upload(_) =>
      case Download(_) =>
      case ReplaceLocal(_) => ReplaceLocalInStep(s, a, luck);
      case ReplaceRemote(_) => ReplaceRemoteInStep(s, a, luck);
    }
    hide FreeConflict, IsConflictName, ConflictOf;
  }

  lemma DeliveredLater(s: State, a: Action, m: State, n: State)
    requires Delivered(s, a, m) && Untouched(m, a.path, n)
    ensures Delivered(s, a, n)
  {
  }

  lemma DeliveredFrom(s: State, a: Action, m: State, n: State)
    requires Ready(s, a) && Ready(m, a) && Untouched(s, a.path, m) && Delivered(m, a, n)
    ensures Delivered(s, a, n)
  {
  }

  /** A successful run delivers every planned file. */
  lemma {:induction false} RunDelivers(s: State, plan: seq<Action>, lucks: seq<Luck>, k: nat)
    requires |lucks| == |plan| && AllReady(s, plan) && AllVacant(s, plan) && Run(s, plan, lucks).1 && k < |plan|
    ensures Delivered(s, plan[k], Run(s, plan, lucks).0)
    decreases |plan|
  {
    ReadyStays(s, plan, lucks[0]);
    VacantStays(s, plan, lucks[0]);
    hide Exec, Delivered, Ready, Vacant, Untouched;
    var n := Exec(s, plan[0], lucks[0]).0;
    var rest := plan[1..];
    assert forall i :: 0 <= i < |rest| ==> rest[i] == plan[i + 1];
    assert Ready(s, plan[0]) && Vacant(s, plan[0]) && Ready(s, plan[k]);
    if k > 0 {
      RunDelivers(n, rest, lucks[1..], k - 1);
      OthersUntouched(s, plan[0], lucks[0], plan[k].path);
      assert Ready(n, rest[k - 1]);
      DeliveredFrom(s, plan[k], n, Run(n, rest, lucks[1..]).0);
    } else {
      ExecDelivers(s, plan[0], lucks[0]);
      assert !Planned(rest, plan[0].path);
      RunUntouched(n, rest, lucks[1..], plan[0].path);
      DeliveredLater(s, plan[0], n, Run(n, rest, lucks[1..]).0);
    }
  }

  // ---- What a sync leaves at every path ----

  /** Nothing that was at `p` has changed; at most a conflict copy is new there. */
  ghost predicate Same(s: State, p: Path, n: State) {
    && (p in s.local ==> p in n.local && n.local[p] == s.local[p])
    && (p in n.local && p !in s.local ==> MarkedAt(p))
    && (p in n.remote <==> p in s.remote) && (p in s.remote ==> n.remote[p] == s.remote[p])
  }

  /** The sync has no business at `p`: something above it or its own name keeps it out of the comparison, or it is not a
      file or folder, or the two sides disagree about which it is. */
  ghost predicate PassedOver(s: State, p: Path) {
    || !Open(s, p) || MarkedAt(p)
    || (p !in s.local && p !in s.remote)
    || (p in s.local && (s.local[p].Symlink? || s.local[p].Other?))
    || (p in s.local && p in s.remote && s.local[p].Dir? && s.remote[p].Doc?)
    || (p in s.local && p in s.remote && s.local[p].File? && s.remote[p].Folder?)
  }

  /** Both sides have the local file, content and time. */
  predicate AsLocal(s: State, p: Path, n: State) {
    && p in s.local && s.local[p].File? && p in n.local && n.local[p] == s.local[p]
    && p in n.remote && n.remote[p] == Doc(s.local[p].content, s.local[p].mtime)
  }

  /** Both sides have the remote content, and its time if that is after the epoch. */
  predicate AsRemote(s: State, p: Path, n: State) {
    && p in s.remote && s.remote[p].Doc? && p in n.remote && n.remote[p] == s.remote[p]
    && p in n.local && n.local[p].File? && n.local[p].content == s.remote[p].content
    && (s.remote[p].mtime > 0 ==> n.local[p].mtime == s.remote[p].mtime)
  }

  /** Whole seconds since the epoch, none before it. */
  function Seconds(mtime: int): int {
    if mtime < 0 then 0 else mtime
  }

  /** The content is in a marked file beside `p`. */
  ghost predicate CopyBeside(n: State, p: Path, content: seq<Byte>) {
    exists q :: CopyAt(n, p, q) && n.local[q].content == content
  }

  ghost predicate CopyAt(n: State, p: Path, q: Path) {
    q in n.local && n.local[q].File? && p != [] && q != [] && q[..|q| - 1] == p[..|p| - 1] && MarkedAt(q)
  }

  /** What a successful sync owes path `p`. */
  ghost predicate MirroredAt(s: State, p: Path, n: State) {
    if PassedOver(s, p) then Same(s, p, n)
    else if p !in s.local then
      if s.remote[p].Folder? then p in n.local && n.local[p].Dir? && p in n.remote && n.remote[p].Folder?
      else AsRemote(s, p, n)
    else if s.local[p].Dir? then p in n.local && n.local[p].Dir? && p in n.remote && n.remote[p].Folder?
    else if p !in s.remote then AsLocal(s, p, n)
    else if Seconds(s.local[p].mtime) > s.remote[p].mtime then
      AsLocal(s, p, n) && (s.remote[p].content == s.local[p].content || CopyBeside(n, p, s.remote[p].content))
    else if Seconds(s.local[p].mtime) < s.remote[p].mtime then
      AsRemote(s, p, n) && (s.local[p].content == s.remote[p].content || CopyBeside(n, p, s.local[p].content))
    else Same(s, p, n)
  }

  ghost predicate Mirrored(s: State, n: State) {
    forall p :: p != [] ==> MirroredAt(s, p, n)
  }

  /** What the comparison finds to do at `p`. */
  lemma WantedExactly(s: State, p: Path)
    requires PlainTree(s) && p != []
    ensures Wanted(s, [], p) <==>
              && !PassedOver(s, p)
              && !(p in s.local && s.local[p].Dir?) && !(p in s.remote && s.remote[p].Folder?)
              && !(p in s.local && p in s.remote && Seconds(s.local[p].mtime) == s.remote[p].mtime)
    ensures Wanted(s, [], p) ==>
              ActionFor(s, p) == Some(if p !in s.local then Download(p)
                                      else if p !in s.remote then Upload(p)
                                      else if Seconds(s.local[p].mtime) > s.remote[p].mtime then ReplaceRemote(p)
                                      else ReplaceLocal(p))
  {
    hide Compared, Open, Marked, IsConflictName;
    ComparedExactly(s, p);
    MarkedExactly(p[|p| - 1]);
  }

  lemma FoldersExactly(s: State, p: Path)
    requires PlainTree(s) && p != []
    ensures Walked(s, [], p) <==>
              !PassedOver(s, p) && ((p in s.local && s.local[p].Dir?) || (p !in s.local && s.remote[p].Folder?))
  {
    hide Walked, Open, MarkedAt;
    WalkedExactly(s, p);
  }

  /** The folders made on the way are exactly the missing ones. */
  lemma MadeExactly(s: State, t: State, p: Path)
    requires Filled(s, [], AllNames(), t) && p != []
    ensures p in t.local <==> p in s.local || Walked(s, [], p)
    ensures p in t.local ==> t.local[p] == if p in s.local then s.local[p] else Dir
    ensures p in t.remote <==> p in s.remote || Walked(s, [], p)
    ensures p in t.remote ==> t.remote[p] == if p in s.remote then s.remote[p] else Folder
  {
    hide Walked;
  }

  lemma CarriedDelivers(s: State, t: State, plan: seq<Action>, lucks: seq<Luck>, p: Path)
    requires PlainTree(s) && Grown(s, t) && PlanFor(s, [], plan) && |lucks| == |plan| && p != []
    requires Carried(s, t, plan, lucks).1
    ensures var n := Carried(s, t, plan, lucks).0;
            if Wanted(s, [], p) then Delivered(t, ActionFor(s, p).value, n) else Untouched(t, p, n)
  {
    hide Run, Plain, PlainTree, Grown, AllReady, AllVacant, Wanted, ActionFor, Delivered, Untouched;
    PlainTreePlain(s);
    PlanReady(s, t, plan);
    if Wanted(s, [], p) {
      assert Named([], AllNames(), p);
      var k :| 0 <= k < |plan| && plan[k].path == p;
      RunDelivers(t, plan, lucks, k);
    } else {
      RunUntouched(t, plan, lucks, p);
    }
  }

  lemma UntouchedSame(s: State, t: State, p: Path, n: State)
    requires Untouched(t, p, n) && p != []
    requires (p in t.local <==> p in s.local) && (p in s.local ==> t.local[p] == s.local[p])
    requires (p in t.remote <==> p in s.remote) && (p in s.remote ==> t.remote[p] == s.remote[p])
    ensures Same(s, p, n)
  {
    hide Unmarked, MarkedAt;
    UnmarkedExactly(p);
  }

  /** A copy named after `p` is a marked file beside it. */
  lemma PreservedBeside(n: State, p: Path, content: seq<Byte>)
    requires Preserved(n, p, content) && p != []
    ensures (HasFile(n, p) && n.local[p].content == content) || (HasDoc(n, p) && n.remote[p].content == content)
            || CopyBeside(n, p, content)
  {
    hide ConflictOf, Marked, IsConflictName;
    if q :| ConflictOf(p, q) && HasFile(n, q) && n.local[q].content == content {
      ConflictBeside(p, q);
      assert CopyAt(n, p, q);
    }
  }

  lemma ConflictBeside(p: Path, q: Path)
    requires ConflictOf(p, q)
    ensures p != [] && q != [] && q[..|q| - 1] == p[..|p| - 1] && MarkedAt(q)
  {
    ConflictOfIsConflict(p, q);
    hide ConflictName, IsConflictName, Marked;
    MarkedExactly(q[|q| - 1]);
  }

  lemma VersionsKept(s: State, t: State, plan: seq<Action>, lucks: seq<Luck>, p: Path, content: seq<Byte>)
    requires PlainTree(s) && Filled(s, [], AllNames(), t) && Grown(s, t) && PlanFor(s, [], plan)
    requires |lucks| == |plan| && Preserved(s, p, content)
    ensures Preserved(Carried(s, t, plan, lucks).0, p, content)
  {
    hide Run, Plain, PlainTree, Grown, AllReady, Preserved, PlanFor, Filled, Guarded, Unblocked, Sheltered;
    PlainTreePlain(s);
    PlainUnblocked(s);
    PlainGuarded(s);
    PreservedGrown(s, t, p, content);
    PlanReady(s, t, plan);
    GuardedSheltered(s, t, plan);
    RunPreserves(t, plan, lucks, p, content);
  }

  lemma LosersKept(s: State, t: State, plan: seq<Action>, lucks: seq<Luck>, p: Path)
    requires PlainTree(s) && Filled(s, [], AllNames(), t) && Grown(s, t) && PlanFor(s, [], plan)
    requires |lucks| == |plan| && HasFile(s, p) && HasDoc(s, p)
    ensures Preserved(Carried(s, t, plan, lucks).0, p, s.local[p].content)
    ensures Preserved(Carried(s, t, plan, lucks).0, p, s.remote[p].content)
  {
    hide PlainTree, Filled, Grown, PlanFor, Carried, ConflictOf;
    VersionsKept(s, t, plan, lucks, p, s.local[p].content);
    VersionsKept(s, t, plan, lucks, p, s.remote[p].content);
  }

  /** After a successful sync of a plain tree, whatever is not passed over is on both sides: folders, files only one
      side had, and of two versions the newer, the other one in a copy beside it. Whatever is passed over is as it
      was. */
  lemma MirrorHolds(s: State, t: State, plan: seq<Action>, lucks: seq<Luck>)
    requires PlainTree(s) && Filled(s, [], AllNames(), t) && Grown(s, t) && PlanFor(s, [], plan)
    requires |lucks| == |plan| && Carried(s, t, plan, lucks).1
    ensures Mirrored(s, Carried(s, t, plan, lucks).0)
  {
    hide PlainTree, Filled, Grown, PlanFor, Carried, MirroredAt;
    forall p: Path | p != []
      ensures MirroredAt(s, p, Carried(s, t, plan, lucks).0)
    {
      MirrorsAt(s, t, plan, lucks, p);
    }
  }

  lemma WantedMirrored(s: State, t: State, p: Path, a: Action, n: State)
    requires Delivered(t, a, n) && a.path == p && p != []
    requires p in s.local ==> p in t.local && t.local[p] == s.local[p]
    requires p in s.remote ==> p in t.remote && t.remote[p] == s.remote[p]
    ensures (a.Upload? || a.ReplaceRemote?) && p in s.local ==> AsLocal(s, p, n)
    ensures (a.Download? || a.ReplaceLocal?) && p in s.remote && s.remote[p].Doc? ==> AsRemote(s, p, n)
  {
  }

  lemma FolderMirrored(t: State, p: Path, n: State)
    requires Untouched(t, p, n) && p in t.local && t.local[p].Dir? && p in t.remote && t.remote[p].Folder?
    ensures p in n.local && n.local[p].Dir? && p in n.remote && n.remote[p].Folder?
  {
  }

  lemma BothKept(s: State, t: State, plan: seq<Action>, lucks: seq<Luck>, p: Path)
    requires PlainTree(s) && Filled(s, [], AllNames(), t) && Grown(s, t) && PlanFor(s, [], plan)
    requires |lucks| == |plan| && p != [] && HasFile(s, p) && HasDoc(s, p)
    ensures var n := Carried(s, t, plan, lucks).0;
            && (AsLocal(s, p, n) ==>
                  s.remote[p].content == s.local[p].content || CopyBeside(n, p, s.remote[p].content))
            && (AsRemote(s, p, n) ==>
                  s.local[p].content == s.remote[p].content || CopyBeside(n, p, s.local[p].content))
  {
    hide PlainTree, Filled, Grown, PlanFor, Carried, Preserved, CopyBeside;
    LosersKept(s, t, plan, lucks, p);
    PreservedBeside(Carried(s, t, plan, lucks).0, p, s.local[p].content);
    PreservedBeside(Carried(s, t, plan, lucks).0, p, s.remote[p].content);
  }

  lemma MirrorsAt(s: State, t: State, plan: seq<Action>, lucks: seq<Luck>, p: Path)
    requires PlainTree(s) && Filled(s, [], AllNames(), t) && Grown(s, t) && PlanFor(s, [], plan)
    requires |lucks| == |plan| && Carried(s, t, plan, lucks).1 && p != []
    ensures MirroredAt(s, p, Carried(s, t, plan, lucks).0)
  {
    hide PlainTree, Filled, Grown, PlanFor, Carried, Walked, Wanted, ActionFor, Open, MarkedAt, CopyBeside, Delivered,
        Untouched, AsLocal, AsRemote, Same;
    var n := Carried(s, t, plan, lucks).0;
    CarriedDelivers(s, t, plan, lucks, p);
    WantedExactly(s, p);
    FoldersExactly(s, p);
    MadeExactly(s, t, p);
    if Wanted(s, [], p) {
      WantedMirrored(s, t, p, ActionFor(s, p).value, n);
      if p in s.local && p in s.remote {
        BothKept(s, t, plan, lucks, p);
      }
    } else if Walked(s, [], p) {
      FolderMirrored(t, p, n);
    } else {
      UntouchedSame(s, t, p, n);
    }
  }

  // ---- When a sync succeeds ----

  function CopyPath(p: Path, side: Side, stamp: nat, i: nat): Path
    requires p != []
  {
    p[..|p| - 1] + [ConflictName(p[|p| - 1], side, stamp, i)]
  }

  /** One of the thousand names for the conflict copy of `p` is not taken. */
  ghost predicate CopyNameFree(taken: set<Path>, p: Path, side: Side, stamp: nat) {
    p != [] && exists i: nat :: i < 1000 && CopyPath(p, side, stamp, i) !in taken
  }

  /** Nothing goes wrong outside, and the conflict copy, if one is made, can be named. */
  ghost predicate Fortunate(s: State, a: Action, luck: Luck) {
    match a
    case Upload(_) => luck.upload
    case Download(_) => luck.download.Complete?
    case ReplaceLocal(p) =>
      CopyNameFree(s.local.Keys, p, LocalSide, luck.stamp) && luck.copy.Complete? && luck.download.Complete?
    case ReplaceRemote(p) =>
      && CopyNameFree(s.local.Keys, p, RemoteSide, luck.stamp)
      && luck.copy.Complete? && luck.download.Complete? && luck.upload
  }

  lemma {:induction false} FreeConflictExactly(taken: set<Path>, p: Path, side: Side, stamp: nat, index: nat)
    requires p != [] && index <= COPIES
    ensures FreeConflict(taken, p, side, stamp, index).Some? <==>
              exists i: nat :: index <= i < 1000 && CopyPath(p, side, stamp, i) !in taken
    decreases COPIES - index
  {
    hide ConflictName, ConflictOf;
    assert CopyPath(p, side, stamp, index) == Sibling(p, ConflictName(p[|p| - 1], side, stamp, index));
    hide CopyPath;
    if index < COPIES && CopyPath(p, side, stamp, index) in taken {
      FreeConflictExactly(taken, p, side, stamp, index + 1);
    }
  }

  lemma ExecSucceeds(s: State, a: Action, luck: Luck)
    requires Ready(s, a) && Vacant(s, a)
    ensures Exec(s, a, luck).1 <==> Fortunate(s, a, luck)
  {
    hide Conflict, CopyNameFree, IsConflictName, Written, Unmarked;
    if a.ReplaceLocal? || a.ReplaceRemote? {
      ConflictExactly(s, a.path, SideOf(a), luck);
    }
  }

  lemma ConflictExactly(s: State, p: Path, side: Side, luck: Luck)
    requires p != []
    ensures Conflict(s, p, side, luck).Some? <==> CopyNameFree(s.local.Keys, p, side, luck.stamp)
  {
    hide CopyPath, FreeConflict;
    FreeConflictExactly(s.local.Keys, p, side, luck.stamp, 0);
  }

  /** What other transfers add takes none of the names a file's conflict copy could have. */
  lemma FortunateStays(s: State, a: Action, luck: Luck, b: Action, later: Luck)
    requires Ready(s, a) && Vacant(s, a) && Ready(s, b) && b.path != a.path
    ensures Fortunate(s, b, later) <==> Fortunate(Exec(s, a, luck).0, b, later)
  {
    hide Exec, IsConflictName, CopyPath, CopyNameFree;
    if b.ReplaceLocal? || b.ReplaceRemote? {
      ExecFrame(s, a, luck);
      var n := Exec(s, a, luck).0;
      forall i: nat
        ensures CopyPath(b.path, SideOf(b), later.stamp, i) in n.local.Keys
                <==> CopyPath(b.path, SideOf(b), later.stamp, i) in s.local.Keys
      {
        CopyNameKept(s, a, n, b.path, SideOf(b), later.stamp, i);
      }
      NamesFree(s.local.Keys, n.local.Keys, b.path, SideOf(b), later.stamp);
    }
  }

  lemma NamesFree(taken: set<Path>, later: set<Path>, p: Path, side: Side, stamp: nat)
    requires p != []
    requires forall i: nat :: CopyPath(p, side, stamp, i) in later <==> CopyPath(p, side, stamp, i) in taken
    ensures CopyNameFree(taken, p, side, stamp) <==> CopyNameFree(later, p, side, stamp)
  {
    hide CopyPath;
  }

  lemma CopyNameKept(s: State, a: Action, n: State, p: Path, side: Side, stamp: nat, i: nat)
    requires Unmarked(a.path) && Unmarked(p) && p != a.path && LocalFrame(s.local, a.path, n.local)
    ensures CopyPath(p, side, stamp, i) in n.local <==> CopyPath(p, side, stamp, i) in s.local
  {
    hide ConflictName, IsConflictName;
    var q := CopyPath(p, side, stamp, i);
    assert CopyOf(p, q, side, stamp, i);
    ConflictOfIsConflict(p, q);
    hide CopyOf;
    if ConflictOf(a.path, q) {
      CopyOfOne(p, a.path, q);
    }
    hide ConflictOf;
  }

  /** A run gets to its end if and only if every transfer is fortunate, seen from the beginning. */
  lemma {:induction false} RunSucceeds(s: State, plan: seq<Action>, lucks: seq<Luck>)
    requires |lucks| == |plan| && AllReady(s, plan) && AllVacant(s, plan)
    ensures Run(s, plan, lucks).1 <==> forall k :: 0 <= k < |plan| ==> Fortunate(s, plan[k], lucks[k])
    decreases |plan|
  {
    if plan != [] {
      ReadyStays(s, plan, lucks[0]);
      VacantStays(s, plan, lucks[0]);
      hide Exec, Ready, Vacant, Fortunate;
      assert Ready(s, plan[0]) && Vacant(s, plan[0]);
      ExecSucceeds(s, plan[0], lucks[0]);
      var (next, ok) := Exec(s, plan[0], lucks[0]);
      var (rest, later) := (plan[1..], lucks[1..]);
      forall k | 0 < k < |plan|
        ensures Fortunate(s, plan[k], lucks[k]) <==> Fortunate(next, rest[k - 1], later[k - 1])
      {
        FortunateStays(s, plan[0], lucks[0], plan[k], lucks[k]);
      }
      if ok {
        RunSucceeds(next, rest, later);
        Shifted(s, plan, lucks, next);
      }
    }
  }

  lemma Shifted(s: State, plan: seq<Action>, lucks: seq<Luck>, next: State)
    requires plan != [] && |lucks| == |plan| && Fortunate(s, plan[0], lucks[0])
    requires forall k :: 0 < k < |plan| ==>
               (Fortunate(s, plan[k], lucks[k]) <==> Fortunate(next, plan[1..][k - 1], lucks[1..][k - 1]))
    ensures (forall k :: 0 <= k < |plan| ==> Fortunate(s, plan[k], lucks[k])) <==>
              forall k :: 0 <= k < |plan| - 1 ==> Fortunate(next, plan[1..][k], lucks[1..][k])
  {
    hide Fortunate;
    if forall k :: 0 <= k < |plan| ==> Fortunate(s, plan[k], lucks[k]) {
      forall k | 0 <= k < |plan| - 1
        ensures Fortunate(next, plan[1..][k], lucks[1..][k])
      {
        assert Fortunate(s, plan[k + 1], lucks[k + 1]);
        assert plan[1..][(k + 1) - 1] == plan[1..][k] && lucks[1..][(k + 1) - 1] == lucks[1..][k];
      }
    }
  }

  /** A sync of a plain tree succeeds if and only if every planned transfer is fortunate in the tree its planning
      left. */
  lemma SyncSucceeds(s: State, t: State, plan: seq<Action>, lucks: seq<Luck>)
    requires PlainTree(s) && Grown(s, t) && PlanFor(s, [], plan) && |lucks| == |plan|
    ensures Carried(s, t, plan, lucks).1 <==> forall k :: 0 <= k < |plan| ==> Fortunate(t, plan[k], lucks[k])
  {
    hide Run, Plain, PlainTree, Grown, AllReady, AllVacant, Fortunate, PlanFor;
    PlainTreePlain(s);
    PlanReady(s, t, plan);
    RunSucceeds(t, plan, lucks);
  }

  // ---- What a transfer moves ----

  /** The size by which transfers are ordered is what they move, in bytes: an upload what is remote afterwards, a
      download what is local afterwards, and a transfer that keeps the remote version first both what is in the copy
      and what is remote afterwards. */
  lemma SizeIsMoved(s: State, a: Action, luck: Luck)
    requires Ready(s, a) && Vacant(s, a) && Exec(s, a, luck).1
    ensures var (n, p) := (Exec(s, a, luck).0, a.path);
            && p in n.local && n.local[p].File? && p in n.remote && n.remote[p].Doc?
            && (a.Upload? ==> Size(s, a) == |n.remote[p].content|)
            && (a.Download? || a.ReplaceLocal? ==> Size(s, a) == |n.local[p].content|)
            && (a.ReplaceRemote? ==>
                  exists c :: CopyAt(n, p, c) && c !in s.local
                              && Size(s, a) == |n.local[c].content| + |n.remote[p].content|)
  {
    ExecDelivers(s, a, luck);
    if a.ReplaceRemote? {
      ConflictIsNew(s, a.path, RemoteSide, luck);
      var c := Conflict(s, a.path, RemoteSide, luck).value;
      ConflictBeside(a.path, c);
      hide FreeConflict, IsConflictName, ConflictOf, MarkedAt;
      assert CopyAt(Exec(s, a, luck).0, a.path, c);
    }
    hide FreeConflict, IsConflictName, ConflictOf, MarkedAt, CopyAt;
  }
}
