/** Carrying out a backup sync: the planned transfers one after the other, each of which may break off at any
    point and leave a partial file. */
module SyncRun {
  import opened Bytes
  import opened ConflictNames
  import opened TakeoutNames
  import opened Wrappers

  datatype Local = Dir | File(content: seq<Byte>, mtime: int) | Symlink | Other

  datatype Remote = Folder | Doc(content: seq<Byte>, mtime: int)

  /** Both sides, relative to the synced folder. Sibling names are distinct. */
  datatype State = State(local: map<Path, Local>, remote: map<Path, Remote>)

  datatype Action = Upload(path: Path) | ReplaceRemote(path: Path) | ReplaceLocal(path: Path) | Download(path: Path)

  /** How writing a local file ends: complete, or broken off with nothing changed or with some partial file. */
  datatype Write = Complete | Broken | Partial(content: seq<Byte>, mtime: int)

  datatype Luck = Luck(stamp: nat, now: int, copy: Write, download: Write, upload: bool)

  /** Whole seconds since the epoch; 0 for earlier times. */
  function FileMtime(mtime: int): nat {
    if mtime < 0 then 0 else mtime
  }

  function Written(local: map<Path, Local>, p: Path, whole: Local, w: Write): map<Path, Local> {
    match w
    case Complete => local[p := whole]
    case Broken => local
    case Partial(content, mtime) => local[p := File(content, mtime)]
  }

  /** A download overwrites a file and fails at a folder; what it writes through a link or into a device is not
      part of the tree. */
  function Received(local: map<Path, Local>, p: Path, whole: Local, w: Write): (map<Path, Local>, bool) {
    if p in local && local[p].Dir? then (local, false)
    else if p in local && !local[p].File? then (local, w.Complete?)
    else (Written(local, p, whole, w), w.Complete?)
  }

  /** A downloaded file carries the remote time, if that is after the epoch. */
  function Downloaded(d: Remote, now: int): Local
    requires d.Doc?
  {
    File(d.content, if d.mtime > 0 then d.mtime else now)
  }

  function Uploaded(f: Local): Remote
    requires f.File?
  {
    Doc(f.content, f.mtime)
  }

  predicate HasDoc(s: State, p: Path) {
    p in s.remote && s.remote[p].Doc?
  }

  predicate HasFile(s: State, p: Path) {
    p in s.local && s.local[p].File?
  }

  /** What the action finds when it starts. A download is planned for whatever the comparison does not see, so
      something may be there. */
  predicate Ready(s: State, a: Action) {
    && a.path != [] && (a.Download? || Unmarked(a.path))
    && match a
       case Upload(p) => HasFile(s, p) && p !in s.remote
       case ReplaceRemote(p) => HasFile(s, p) && HasDoc(s, p)
       case ReplaceLocal(p) => HasFile(s, p) && HasDoc(s, p)
       case Download(p) => HasDoc(s, p)
  }

  /** A download finds no file it would overwrite. */
  predicate Clear(s: State, a: Action) {
    a.Download? ==> !HasFile(s, a.path)
  }

  /** A download finds nothing at all, and its name is an ordinary one. */
  predicate Vacant(s: State, a: Action) {
    a.Download? ==> a.path !in s.local && Unmarked(a.path)
  }

  function Conflict(s: State, p: Path, side: Side, luck: Luck): Option<Path>
    requires p != []
  {
    FreeConflict(s.local.Keys, p, side, luck.stamp, 0)
  }

  /** The state an action leaves, and whether it succeeded. Copying does not keep the time. */
  function Exec(s: State, a: Action, luck: Luck): (State, bool)
    requires Ready(s, a)
  {
    var p := a.path;
    match a
    case Upload(_) =>
      if luck.upload then (s.(remote := s.remote[p := Uploaded(s.local[p])]), true) else (s, false)
    case Download(_) =>
      var (local, ok) := Received(s.local, p, Downloaded(s.remote[p], luck.now), luck.download);
      (s.(local := local), ok)
    case ReplaceLocal(_) =>
      var c := Conflict(s, p, LocalSide, luck);
      if c.None? then (s, false)
      else
        var copied := Written(s.local, c.value, File(s.local[p].content, luck.now), luck.copy);
        if !luck.copy.Complete? then (s.(local := copied), false)
        else
          (s.(local := Written(copied, p, Downloaded(s.remote[p], luck.now), luck.download)), luck.download.Complete?)
    case ReplaceRemote(_) =>
      var c := Conflict(s, p, RemoteSide, luck);
      if c.None? then (s, false)
      else
        var copied := Written(s.local, c.value, File(s.local[p].content, luck.now), luck.copy);
        if !luck.copy.Complete? then (s.(local := copied), false)
        else
          var kept := Written(copied, c.value, Downloaded(s.remote[p], luck.now), luck.download);
          if !luck.download.Complete? || !luck.upload then (s.(local := kept), false)
          else (State(kept, s.remote[p := Uploaded(s.local[p])]), true)
  }

  function Run(s: State, plan: seq<Action>, lucks: seq<Luck>): (State, bool)
    requires |lucks| == |plan| && AllReady(s, plan)
    decreases |plan|
  {
    if plan == [] then (s, true)
    else
      ReadyStays(s, plan, lucks[0]);
      var (next, ok) := Exec(s, plan[0], lucks[0]);
      if ok then Run(next, plan[1..], lucks[1..]) else (next, false)
  }

  ghost predicate AllReady(s: State, plan: seq<Action>) {
    && (forall k :: 0 <= k < |plan| ==> Ready(s, plan[k]))
    && (forall i, j :: 0 <= i < j < |plan| ==> plan[i].path != plan[j].path)
  }

  // ---- What one action changes ----

  /** Besides `p` only conflict copies of it are added. */
  ghost predicate LocalFrame(l: map<Path, Local>, p: Path, n: map<Path, Local>) {
    && (forall q :: q in l && q != p ==> q in n && n[q] == l[q])
    && (forall q :: q in n && q !in l && q != p ==> ConflictOf(p, q) && n[q].File?)
    && (p in l ==> p in n) && (p in n ==> n[p].File? || (p in l && n[p] == l[p]))
  }

  ghost predicate RemoteFrame(r: map<Path, Remote>, p: Path, n: map<Path, Remote>) {
    && (forall q :: q in r ==> q in n && (q != p ==> n[q] == r[q]))
    && (forall q :: q in n && q !in r ==> q == p)
    && (p in n ==> n[p].Doc?)
  }

  ghost predicate Frame(s: State, p: Path, n: State) {
    LocalFrame(s.local, p, n.local) && RemoteFrame(s.remote, p, n.remote)
  }

  lemma FrameSteps(l: map<Path, Local>, p: Path, c: Path, whole: Local, w: Write)
    requires whole.File?
    ensures LocalFrame(l, p, l)
    ensures LocalFrame(l, p, Written(l, p, whole, w))
    ensures c !in l && c != p && ConflictOf(p, c) ==> LocalFrame(l, p, Written(l, c, whole, w))
  {
    hide ConflictOf;
  }

  lemma FrameTwice(l: map<Path, Local>, p: Path, m: map<Path, Local>, n: map<Path, Local>)
    requires LocalFrame(l, p, m) && LocalFrame(m, p, n)
    ensures LocalFrame(l, p, n)
  {
    hide ConflictOf;
  }

  /** Writing the same conflict copy twice. */
  lemma WrittenTwice(l: map<Path, Local>, c: Path, first: Local, second: Local, w: Write)
    requires first.File? && second.File?
    ensures exists f: Local, v: Write ::
              f.File? && Written(Written(l, c, first, Complete), c, second, w) == Written(l, c, f, v)
  {
    var n := Written(Written(l, c, first, Complete), c, second, w);
    match w {
      case Complete => assert n == Written(l, c, second, Complete);
      case Broken => assert n == Written(l, c, first, Complete);
      case Partial(content, mtime) => assert n == Written(l, c, File(content, mtime), Complete);
    }
  }

  /** A free conflict name is new, and not the name it is a copy of. */
  lemma ConflictIsNew(s: State, p: Path, side: Side, luck: Luck)
    requires HasFile(s, p) && p != [] && Conflict(s, p, side, luck).Some?
    ensures var c := Conflict(s, p, side, luck).value; c !in s.local && c != p && ConflictOf(p, c)
  {
    hide FreeConflict, ConflictOf;
  }

  lemma FrameDownload(s: State, a: Action, luck: Luck)
    requires Ready(s, a) && a.Download?
    ensures Frame(s, a.path, Exec(s, a, luck).0)
  {
    FrameSteps(s.local, a.path, [], Downloaded(s.remote[a.path], luck.now), luck.download);
    hide LocalFrame, Written, FreeConflict, ConflictOf, IsConflictName;
  }

  lemma FrameUpload(s: State, a: Action, luck: Luck)
    requires Ready(s, a) && a.Upload?
    ensures Frame(s, a.path, Exec(s, a, luck).0)
  {
    FrameSteps(s.local, a.path, [], s.local[a.path], Complete);
    hide LocalFrame, Written, FreeConflict, ConflictOf, IsConflictName;
  }

  lemma FrameReplaceLocal(s: State, a: Action, luck: Luck)
    requires Ready(s, a) && a.ReplaceLocal?
    ensures Frame(s, a.path, Exec(s, a, luck).0)
  {
    var p := a.path;
    hide LocalFrame, Written, FreeConflict, ConflictOf, IsConflictName;
    var c := Conflict(s, p, LocalSide, luck);
    var copy := File(s.local[p].content, luck.now);
    FrameSteps(s.local, p, if c.Some? then c.value else [], copy, luck.copy);
    if c.Some? {
      ConflictIsNew(s, p, LocalSide, luck);
      var copied := Written(s.local, c.value, copy, luck.copy);
      FrameSteps(copied, p, [], Downloaded(s.remote[p], luck.now), luck.download);
      FrameTwice(s.local, p, copied, Written(copied, p, Downloaded(s.remote[p], luck.now), luck.download));
    }
  }

  lemma FrameReplaceRemote(s: State, a: Action, luck: Luck)
    requires Ready(s, a) && a.ReplaceRemote?
    ensures Frame(s, a.path, Exec(s, a, luck).0)
  {
    var p := a.path;
    hide LocalFrame, Written, FreeConflict, ConflictOf, IsConflictName;
    var c := Conflict(s, p, RemoteSide, luck);
    var copy := File(s.local[p].content, luck.now);
    FrameSteps(s.local, p, if c.Some? then c.value else [], copy, luck.copy);
    if c.Some? {
      ConflictIsNew(s, p, RemoteSide, luck);
      if luck.copy.Complete? {
        WrittenTwice(s.local, c.value, copy, Downloaded(s.remote[p], luck.now), luck.download);
        var made := Written(s.local, c.value, copy, Complete);
        var f: Local, v: Write :|
          f.File? && Written(made, c.value, Downloaded(s.remote[p], luck.now), luck.download)
                     == Written(s.local, c.value, f, v);
        FrameSteps(s.local, p, c.value, f, v);
      }
    }
  }

  lemma ExecFrame(s: State, a: Action, luck: Luck)
    requires Ready(s, a)
    ensures Frame(s, a.path, Exec(s, a, luck).0)
  {
    hide *;
    match a {
      case Upload(_) => FrameUpload(s, a, luck);
      case ReplaceRemote(_) => FrameReplaceRemote(s, a, luck);
      case ReplaceLocal(_) => FrameReplaceLocal(s, a, luck);
      case Download(_) => FrameDownload(s, a, luck);
    }
  }

  lemma ReadyStays(s: State, plan: seq<Action>, luck: Luck)
    requires plan != [] && AllReady(s, plan)
    ensures AllReady(Exec(s, plan[0], luck).0, plan[1..])
  {
    hide Exec, ConflictOf, IsConflictName;
    ExecFrame(s, plan[0], luck);
    var n := Exec(s, plan[0], luck).0;
    forall k | 0 < k < |plan|
      ensures Ready(n, plan[k])
    {
      assert plan[k].path != plan[0].path;
    }
    hide Ready;
    assert forall k :: 0 <= k < |plan| - 1 ==> plan[1..][k] == plan[k + 1];
  }

  // ---- Nothing is lost ----

  /** The content is at the local path, remote, or in a conflict copy of the path. */
  ghost predicate Preserved(s: State, p: Path, content: seq<Byte>) {
    || (HasFile(s, p) && s.local[p].content == content)
    || (HasDoc(s, p) && s.remote[p].content == content)
    || exists q :: ConflictOf(p, q) && HasFile(s, q) && s.local[q].content == content
  }

  lemma KeptInConflict(s: State, p: Path, q: Path, content: seq<Byte>)
    requires ConflictOf(p, q) && HasFile(s, q) && s.local[q].content == content
    ensures Preserved(s, p, content)
  {
  }

  /** Whatever happens during an action, its own path's two versions survive it, unless a download overwrites a file. */
  lemma OwnVersionsKept(s: State, a: Action, luck: Luck)
    requires Ready(s, a) && Clear(s, a)
    ensures HasFile(s, a.path) ==> Preserved(Exec(s, a, luck).0, a.path, s.local[a.path].content)
    ensures HasDoc(s, a.path) ==> Preserved(Exec(s, a, luck).0, a.path, s.remote[a.path].content)
  {
    hide FreeConflict, ConflictOf, IsConflictName;
    var n := Exec(s, a, luck).0;
    var p := a.path;
    if a.ReplaceLocal? {
      var c := Conflict(s, p, LocalSide, luck);
      if c.Some? && luck.copy.Complete? {
        KeptInConflict(n, p, c.value, s.local[p].content);
      }
    } else if a.ReplaceRemote? {
      var c := Conflict(s, p, RemoteSide, luck);
      if c.Some? && luck.copy.Complete? && luck.download.Complete? {
        KeptInConflict(n, p, c.value, s.remote[p].content);
      }
    }
  }

  lemma CopyKept(s: State, a: Action, luck: Luck, p: Path, q: Path)
    requires Ready(s, a) && Clear(s, a) && ConflictOf(p, q) && HasFile(s, q)
    ensures Preserved(Exec(s, a, luck).0, p, s.local[q].content)
  {
    hide Exec, IsConflictName, ConflictOf, Preserved;
    ExecFrame(s, a, luck);
    ConflictOfIsConflict(p, q);
    KeptInConflict(Exec(s, a, luck).0, p, q, s.local[q].content);
  }

  lemma OtherVersionsKept(s: State, a: Action, luck: Luck, p: Path)
    requires Ready(s, a) && p != a.path
    ensures HasFile(s, p) ==> Preserved(Exec(s, a, luck).0, p, s.local[p].content)
    ensures HasDoc(s, p) ==> Preserved(Exec(s, a, luck).0, p, s.remote[p].content)
  {
    hide Exec, IsConflictName, ConflictOf;
    ExecFrame(s, a, luck);
  }

  /** An action keeps every version of every path, so also those kept by earlier actions and earlier syncs. */
  lemma ExecPreserves(s: State, a: Action, luck: Luck, p: Path, content: seq<Byte>)
    requires Ready(s, a) && Clear(s, a) && Preserved(s, p, content)
    ensures Preserved(Exec(s, a, luck).0, p, content)
  {
    var inCopy := exists q :: ConflictOf(p, q) && HasFile(s, q) && s.local[q].content == content;
    assert !inCopy ==>
             || (HasFile(s, p) && s.local[p].content == content)
             || (HasDoc(s, p) && s.remote[p].content == content);
    hide *;
    if inCopy {
      var q :| ConflictOf(p, q) && HasFile(s, q) && s.local[q].content == content;
      CopyKept(s, a, luck, p, q);
    } else if p == a.path {
      OwnVersionsKept(s, a, luck);
    } else {
      OtherVersionsKept(s, a, luck, p);
    }
  }

  function SideOf(a: Action): Side {
    if a.ReplaceLocal? then LocalSide else RemoteSide
  }

  /** No conflict copy the action could make, whatever the clock says, is called `q`. */
  ghost predicate Spares(taken: set<Path>, a: Action, q: Path) {
    (a.ReplaceLocal? || a.ReplaceRemote?) && a.path != [] ==>
      forall stamp: nat :: FreeConflict(taken, a.path, SideOf(a), stamp, 0) != Some(q)
  }

  /** No download of the plan finds a file it would overwrite, and none would overwrite a conflict copy made on
      the way. */
  ghost predicate Sheltered(s: State, plan: seq<Action>) {
    && (forall k :: 0 <= k < |plan| ==> Clear(s, plan[k]))
    && (forall i, j :: 0 <= i < |plan| && 0 <= j < |plan| && plan[j].Download? ==>
          Spares(s.local.Keys, plan[i], plan[j].path))
  }

  /** A name that is taken in between changes the choice only if it was the choice. */
  lemma {:induction false} FreeWithout(taken: set<Path>, x: Path, p: Path, side: Side, stamp: nat, index: nat)
    requires p != [] && index <= COPIES && FreeConflict(taken, p, side, stamp, index) != Some(x)
    ensures FreeConflict(taken + {x}, p, side, stamp, index) == FreeConflict(taken, p, side, stamp, index)
    decreases COPIES - index
  {
    hide ConflictName, ConflictOf;
    if index < COPIES && Sibling(p, ConflictName(p[|p| - 1], side, stamp, index)) in taken {
      FreeWithout(taken, x, p, side, stamp, index + 1);
    }
  }

  lemma SparesStays(taken: set<Path>, x: Path, a: Action, q: Path)
    requires Spares(taken, a, x) && Spares(taken, a, q)
    ensures Spares(taken + {x}, a, q)
  {
    hide FreeConflict;
    if (a.ReplaceLocal? || a.ReplaceRemote?) && a.path != [] {
      forall stamp: nat
        ensures FreeConflict(taken + {x}, a.path, SideOf(a), stamp, 0) != Some(q)
      {
        FreeWithout(taken, x, a.path, SideOf(a), stamp, 0);
      }
    }
  }

  /** The conflict copy of one file is none of another. */
  lemma SparesCopy(taken: set<Path>, p: Path, side: Side, stamp: nat, a: Action)
    requires Unmarked(p) && Unmarked(a.path) && p != a.path
    requires FreeConflict(taken, p, side, stamp, 0).Some?
    ensures Spares(taken, a, FreeConflict(taken, p, side, stamp, 0).value)
  {
    hide FreeConflict, ConflictOf, IsConflictName;
    var c := FreeConflict(taken, p, side, stamp, 0).value;
    forall other: nat
      ensures FreeConflict(taken, a.path, SideOf(a), other, 0) != Some(c)
    {
      if FreeConflict(taken, a.path, SideOf(a), other, 0) == Some(c) {
        CopyOfOne(p, a.path, c);
      }
    }
  }

  /** What a successful action adds to the local names: nothing, its own path, or its conflict copy. */
  lemma NamesAfter(s: State, a: Action, luck: Luck) returns (x: Path)
    requires Ready(s, a) && Exec(s, a, luck).1
    ensures var n := Exec(s, a, luck).0;
            && n.local.Keys == s.local.Keys + {x}
            && (forall q :: q != x && q != a.path ==> (HasFile(n, q) <==> HasFile(s, q)))
            && if a.Upload? || a.Download? then x == a.path
               else Conflict(s, a.path, SideOf(a), luck) == Some(x)
  {
    hide FreeConflict, IsConflictName, Conflict;
    if a.Upload? || a.Download? {
      x := a.path;
    } else {
      x := Conflict(s, a.path, SideOf(a), luck).value;
      CopyAdded(s, a, luck, x);
    }
  }

  lemma CopyAdded(s: State, a: Action, luck: Luck, x: Path)
    requires Ready(s, a) && (a.ReplaceLocal? || a.ReplaceRemote?) && Exec(s, a, luck).1
    requires Conflict(s, a.path, SideOf(a), luck) == Some(x)
    ensures var n := Exec(s, a, luck).0;
            n.local.Keys == s.local.Keys + {x}
            && forall q :: q != x && q != a.path ==> (HasFile(n, q) <==> HasFile(s, q))
  {
    hide FreeConflict, IsConflictName, Conflict, ConflictOf;
  }

  lemma ShelteredStays(s: State, plan: seq<Action>, luck: Luck)
    requires plan != [] && AllReady(s, plan) && Sheltered(s, plan) && Exec(s, plan[0], luck).1
    ensures Sheltered(Exec(s, plan[0], luck).0, plan[1..])
  {
    hide Exec, FreeConflict, IsConflictName, Spares;
    var n := Exec(s, plan[0], luck).0;
    var x := NamesAfter(s, plan[0], luck);
    var rest := plan[1..];
    assert forall k :: 0 <= k < |rest| ==> rest[k] == plan[k + 1];
    forall i, j | 0 <= i < |rest| && 0 <= j < |rest| && rest[j].Download?
      ensures Spares(n.local.Keys, rest[i], rest[j].path) && Clear(n, rest[j])
    {
      AddedSpares(s, plan, luck, x, i + 1);
      SparesStays(s.local.Keys, x, rest[i], rest[j].path);
      NotAdded(s, plan, luck, x, j + 1);
      assert Clear(s, plan[j + 1]);
    }
  }

  /** The added name is not one a later action would choose. */
  lemma AddedSpares(s: State, plan: seq<Action>, luck: Luck, x: Path, i: nat)
    requires 0 < i < |plan| && AllReady(s, plan) && Sheltered(s, plan)
    requires if plan[0].Upload? || plan[0].Download? then x == plan[0].path
             else Conflict(s, plan[0].path, SideOf(plan[0]), luck) == Some(x)
    ensures Spares(s.local.Keys, plan[i], x)
  {
    hide FreeConflict, IsConflictName;
    assert Ready(s, plan[0]) && Ready(s, plan[i]);
    if plan[0].Download? {
      assert Spares(s.local.Keys, plan[i], plan[0].path);
    } else if !plan[0].Upload? && !plan[i].Download? {
      SparesCopy(s.local.Keys, plan[0].path, SideOf(plan[0]), luck.stamp, plan[i]);
    }
  }

  /** Nor is it one a later download writes to. */
  lemma NotAdded(s: State, plan: seq<Action>, luck: Luck, x: Path, j: nat)
    requires 0 < j < |plan| && AllReady(s, plan) && Sheltered(s, plan) && plan[j].Download?
    requires if plan[0].Upload? || plan[0].Download? then x == plan[0].path
             else Conflict(s, plan[0].path, SideOf(plan[0]), luck) == Some(x)
    ensures x != plan[j].path
  {
    hide FreeConflict, IsConflictName;
    assert Ready(s, plan[0]) && plan[0].path != plan[j].path;
    assert Spares(s.local.Keys, plan[0], plan[j].path);
  }

  /** At every point of a run, also one that stops at a failed transfer, every version present at its start
      still exists at the local path, in a conflict copy or remotely. */
  lemma {:induction false} RunPreserves(s: State, plan: seq<Action>, lucks: seq<Luck>, p: Path, content: seq<Byte>)
    requires |lucks| == |plan| && AllReady(s, plan) && Sheltered(s, plan) && Preserved(s, p, content)
    ensures Preserved(Run(s, plan, lucks).0, p, content)
    decreases |plan|
  {
    hide Exec, Preserved, AllReady, Ready, Sheltered, Clear;
    if plan != [] {
      ReadyStays(s, plan, lucks[0]);
      FirstClear(s, plan);
      ExecPreserves(s, plan[0], lucks[0], p, content);
      var (next, ok) := Exec(s, plan[0], lucks[0]);
      if ok {
        ShelteredStays(s, plan, lucks[0]);
        RunPreserves(next, plan[1..], lucks[1..], p, content);
      }
    }
  }

  lemma FirstClear(s: State, plan: seq<Action>)
    requires plan != [] && AllReady(s, plan) && Sheltered(s, plan)
    ensures Ready(s, plan[0]) && Clear(s, plan[0])
  {
    hide Spares;
  }

  // ---- A successful run ----

  /** Both sides hold the same content. */
  predicate SameContent(s: State, p: Path) {
    HasFile(s, p) && HasDoc(s, p) && s.local[p].content == s.remote[p].content
  }

  /** And the same time, as a later comparison reads it. */
  predicate InStep(s: State, p: Path) {
    SameContent(s, p) && FileMtime(s.local[p].mtime) == s.remote[p].mtime
  }

  /** The time the transfer carries over is one both sides represent. */
  predicate Timed(s: State, a: Action) {
    if a.Upload? || a.ReplaceRemote? then HasFile(s, a.path) && s.local[a.path].mtime >= 0
    else HasDoc(s, a.path) && s.remote[a.path].mtime > 0
  }

  /** The content a transfer brings to both sides. */
  function Winner(s: State, a: Action): seq<Byte>
    requires Ready(s, a)
  {
    if a.Upload? || a.ReplaceRemote? then s.local[a.path].content else s.remote[a.path].content
  }

  /** A successful transfer leaves both sides in step exactly when its time is representable, the clock being
      past both. */
  lemma TransferInStep(s: State, a: Action, luck: Luck)
    requires Ready(s, a) && Vacant(s, a) && Exec(s, a, luck).1
    requires luck.now > 0
    ensures InStep(Exec(s, a, luck).0, a.path) <==> Timed(s, a)
    ensures SameContent(Exec(s, a, luck).0, a.path) && Exec(s, a, luck).0.local[a.path].content == Winner(s, a)
  {
    match a {
      case Upload(_) =>
      case Download(_) =>
      case ReplaceLocal(_) => ReplaceLocalInStep(s, a, luck);
      case ReplaceRemote(_) => ReplaceRemoteInStep(s, a, luck);
    }
    hide FreeConflict, IsConflictName, ConflictOf;
  }

  lemma ReplaceLocalInStep(s: State, a: Action, luck: Luck)
    requires Ready(s, a) && a.ReplaceLocal? && Exec(s, a, luck).1
    ensures var n := Exec(s, a, luck).0;
            n.remote == s.remote && HasFile(n, a.path) && n.local[a.path] == Downloaded(s.remote[a.path], luck.now)
  {
    hide FreeConflict, IsConflictName, ConflictOf;
  }

  lemma ReplaceRemoteInStep(s: State, a: Action, luck: Luck)
    requires Ready(s, a) && a.ReplaceRemote? && Exec(s, a, luck).1
    ensures var n := Exec(s, a, luck).0;
            && HasFile(n, a.path) && n.local[a.path] == s.local[a.path]
            && HasDoc(n, a.path) && n.remote[a.path] == Uploaded(s.local[a.path])
  {
    ConflictIsNew(s, a.path, RemoteSide, luck);
    hide FreeConflict, IsConflictName, ConflictOf;
  }

  predicate Planned(plan: seq<Action>, q: Path) {
    exists k :: 0 <= k < |plan| && plan[k].path == q
  }

  /** A path of no transfer keeps its entries; at most a conflict copy is new there. */
  ghost predicate Untouched(s: State, q: Path, n: State) {
    && (q in s.local ==> q in n.local && n.local[q] == s.local[q])
    && (q in n.local && q !in s.local ==> q != [] && !Unmarked(q) && n.local[q].File?)
    && (q in n.remote <==> q in s.remote) && (q in s.remote ==> n.remote[q] == s.remote[q])
  }

  lemma OthersUntouched(s: State, a: Action, luck: Luck, q: Path)
    requires Ready(s, a) && q != a.path
    ensures Untouched(s, q, Exec(s, a, luck).0)
  {
    ExecFrame(s, a, luck);
    hide Exec, ConflictOf, IsConflictName;
    var n := Exec(s, a, luck).0;
    if q in n.local && q !in s.local {
      ConflictOfIsConflict(a.path, q);
    }
  }

  lemma UntouchedTwice(s: State, q: Path, m: State, n: State)
    requires Untouched(s, q, m) && Untouched(m, q, n)
    ensures Untouched(s, q, n)
  {
  }

  lemma {:induction false} RunUntouched(s: State, plan: seq<Action>, lucks: seq<Luck>, q: Path)
    requires |lucks| == |plan| && AllReady(s, plan) && !Planned(plan, q)
    ensures Untouched(s, q, Run(s, plan, lucks).0)
    decreases |plan|
  {
    if plan != [] {
      ReadyStays(s, plan, lucks[0]);
      OthersUntouched(s, plan[0], lucks[0], q);
      assert !Planned(plan[1..], q) by {
        assert forall k :: 0 <= k < |plan| - 1 ==> plan[1..][k] == plan[k + 1];
      }
      hide Exec, AllReady, Untouched, Planned;
      var (next, ok) := Exec(s, plan[0], lucks[0]);
      if ok {
        RunUntouched(next, plan[1..], lucks[1..], q);
        UntouchedTwice(s, q, next, Run(next, plan[1..], lucks[1..]).0);
      }
    }
  }

  ghost predicate AllVacant(s: State, plan: seq<Action>) {
    forall k :: 0 <= k < |plan| ==> Vacant(s, plan[k])
  }

  lemma VacantStays(s: State, plan: seq<Action>, luck: Luck)
    requires plan != [] && AllReady(s, plan) && AllVacant(s, plan)
    ensures AllVacant(Exec(s, plan[0], luck).0, plan[1..])
  {
    hide Exec, ConflictOf, IsConflictName;
    var n := Exec(s, plan[0], luck).0;
    assert Ready(s, plan[0]);
    forall k | 0 < k < |plan|
      ensures Vacant(n, plan[k])
    {
      assert Vacant(s, plan[k]) && plan[k].path != plan[0].path;
      OthersUntouched(s, plan[0], luck, plan[k].path);
    }
    hide Vacant;
    assert forall k :: 0 <= k < |plan| - 1 ==> plan[1..][k] == plan[k + 1];
  }

  /** After a successful run both sides hold the same content at a planned path, and are in step exactly when its
      time was representable. */
  lemma {:induction false} RunInStep(s: State, plan: seq<Action>, lucks: seq<Luck>, k: nat)
    requires |lucks| == |plan| && AllReady(s, plan) && AllVacant(s, plan) && Run(s, plan, lucks).1 && k < |plan|
    requires forall i :: 0 <= i < |lucks| ==> lucks[i].now > 0
    ensures var n := Run(s, plan, lucks).0;
            && SameContent(n, plan[k].path) && n.local[plan[k].path].content == Winner(s, plan[k])
            && (InStep(n, plan[k].path) <==> Timed(s, plan[k]))
    decreases |plan|
  {
    ReadyStays(s, plan, lucks[0]);
    VacantStays(s, plan, lucks[0]);
    var n := Exec(s, plan[0], lucks[0]).0;
    var rest := plan[1..];
    assert forall i :: 0 <= i < |rest| ==> rest[i] == plan[i + 1];
    if k > 0 {
      RunInStep(n, rest, lucks[1..], k - 1);
      OthersUntouched(s, plan[0], lucks[0], plan[k].path);
      TimedSame(s, n, plan[k]);
      hide Exec, Timed, Winner;
    } else {
      TransferInStep(s, plan[0], lucks[0]);
      assert !Planned(rest, plan[0].path);
      RunUntouched(n, rest, lucks[1..], plan[0].path);
      hide Exec, Timed, Winner, FileMtime;
    }
  }

  lemma TimedSame(s: State, n: State, a: Action)
    requires Ready(s, a) && Ready(n, a) && Untouched(s, a.path, n)
    ensures (Timed(s, a) <==> Timed(n, a)) && Winner(s, a) == Winner(n, a)
  {
  }
}
