/** Exactly when a sync can lose a version: the condition under which nothing is lost cannot be weakened. */
module SyncLoss {
  import opened Bytes
  import opened Collections
  import opened ConflictNames
  import opened StableSort
  import opened Sync
  import opened SyncPlan
  import opened SyncRun
  import opened TakeoutNames
  import opened Wrappers

  // ---- Trees that differ in what the files hold only ----

  function Emptied(l: Local): Local {
    if l.File? then File([], l.mtime) else l
  }

  function EmptiedDoc(r: Remote): Remote {
    if r.Doc? then Doc([], r.mtime) else r
  }

  /** The same names, kinds and times. */
  ghost predicate SameShape(s: State, u: State) {
    && s.local.Keys == u.local.Keys && (forall q :: q in s.local ==> Emptied(s.local[q]) == Emptied(u.local[q]))
    && s.remote.Keys == u.remote.Keys
        && (forall q :: q in s.remote ==> EmptiedDoc(s.remote[q]) == EmptiedDoc(u.remote[q]))
  }

  lemma ShapeAction(s: State, u: State, q: Path)
    requires SameShape(s, u)
    ensures ActionFor(s, q) == ActionFor(u, q) && Enters(s, q) == Enters(u, q) && Stuck(s, q) == Stuck(u, q)
    ensures HasFile(s, q) == HasFile(u, q) && HasDoc(s, q) == HasDoc(u, q)
  {
    hide IsConflictName;
    assert q in s.local ==> Emptied(s.local[q]) == Emptied(u.local[q]);
    assert q in s.remote ==> EmptiedDoc(s.remote[q]) == EmptiedDoc(u.remote[q]);
  }

  lemma {:induction false} ShapeWalked(s: State, u: State, dir: Path, q: Path)
    requires SameShape(s, u)
    ensures Walked(s, dir, q) == Walked(u, dir, q)
    decreases |q|
  {
    hide SameShape, Enters;
    ShapeAction(s, u, q);
    if q != dir && |q| > |dir| {
      ShapeWalked(s, u, dir, q[..|q| - 1]);
    }
  }

  lemma ShapeWanted(s: State, u: State, q: Path)
    requires SameShape(s, u)
    ensures Wanted(s, [], q) == Wanted(u, [], q) && StuckAt(s, [], q) == StuckAt(u, [], q)
        && Fetched(s, q) == Fetched(u, q)
  {
    hide SameShape, ActionFor, Stuck;
    ShapeAction(s, u, q);
    if |q| > 0 {
      ShapeWalked(s, u, [], q[..|q| - 1]);
    }
  }

  lemma ShapeTaken(s: State, u: State)
    requires SameShape(s, u)
    ensures TakenNames(s) == TakenNames(u) && (Unblocked(s, [], AllNames()) <==> Unblocked(u, [], AllNames()))
  {
    hide Walked, StuckAt;
    forall q
      ensures Walked(s, [], q) == Walked(u, [], q) && StuckAt(s, [], q) == StuckAt(u, [], q)
    {
      ShapeWalked(s, u, [], q);
      ShapeWanted(s, u, q);
    }
  }

  /** What the files hold does not matter for being guarded. */
  lemma ShapeGuarded(s: State, u: State)
    requires SameShape(s, u) && Guarded(s)
    ensures Guarded(u)
  {
    hide SameShape, Fetched, Wanted, ActionFor, Unblocked, TakenNames, Spares, HasFile;
    ShapeTaken(s, u);
    assert forall q :: Fetched(s, q) && Unblocked(s, [], AllNames()) ==> !HasFile(s, q) && NoCopyAt(s, q);
    forall q
      ensures Fetched(s, q) == Fetched(u, q) && HasFile(s, q) == HasFile(u, q)
      ensures Wanted(s, [], q) == Wanted(u, [], q) && ActionFor(s, q) == ActionFor(u, q)
    {
      ShapeWanted(s, u, q);
      ShapeAction(s, u, q);
    }
  }

  /** The tree with other file contents. */
  ghost function Filling(s: State, local: Path -> seq<Byte>, remote: Path -> seq<Byte>): (u: State)
    ensures SameShape(s, u)
    ensures forall q :: HasFile(u, q) ==> u.local[q].content == local(q)
    ensures forall q :: HasDoc(u, q) ==> u.remote[q].content == remote(q)
  {
    State(map q | q in s.local :: if s.local[q].File? then File(local(q), s.local[q].mtime) else s.local[q],
          map q | q in s.remote :: if s.remote[q].Doc? then Doc(remote(q), s.remote[q].mtime) else s.remote[q])
  }

  // ---- There is a run ----

  /** The trees a complete planning leaves. */
  lemma Planted(s: State) returns (t: State)
    ensures Filled(s, [], AllNames(), t) && Grown(s, t)
  {
    var folders := set q | q in s.local.Keys + s.remote.Keys && q != [] && Walked(s, [], q);
    t := State(s.local + map q | q in folders - s.local.Keys :: Dir,
               s.remote + map q | q in folders - s.remote.Keys :: Folder);
    FoldersExist(s);
    assert forall q :: q in Folders(s, [], AllNames()) <==> q in folders;
    assert Widened(s.local, Folders(s, [], AllNames()), Dir, t.local);
    assert Widened(s.remote, Folders(s, [], AllNames()), Folder, t.remote);
    FilledGrown(s, [], AllNames(), t);
  }

  lemma FoldersExist(s: State)
    ensures forall q :: q in Folders(s, [], AllNames()) ==> q != [] && (q in s.local || q in s.remote)
  {
    hide IsConflictName;
  }

  lemma {:induction false} PlanOf(s: State, paths: set<Path>) returns (plan: seq<Action>)
    requires forall q :: q in paths ==> Wanted(s, [], q)
    ensures forall k :: 0 <= k < |plan| ==> plan[k].path in paths && ActionFor(s, plan[k].path) == Some(plan[k])
    ensures forall i, j :: 0 <= i < j < |plan| ==> plan[i].path != plan[j].path
    ensures forall q :: q in paths ==> Planned(plan, q)
    decreases |paths|
  {
    hide Wanted, ActionFor, Planned;
    if paths == {} {
      plan := [];
    } else {
      var p :| p in paths;
      var rest := PlanOf(s, paths - {p});
      WantedNotRoot(s, p);
      ActionPath(s, p);
      plan := [ActionFor(s, p).value] + rest;
      forall q | q in paths
        ensures Planned(plan, q)
      {
        PlannedMore(plan[0], rest, q);
        assert q != p ==> q in paths - {p};
      }
    }
  }

  lemma PlannedMore(a: Action, rest: seq<Action>, q: Path)
    ensures Planned([a] + rest, q) <==> a.path == q || Planned(rest, q)
  {
    assert ([a] + rest)[0] == a;
    assert forall k :: 0 <= k < |rest| ==> ([a] + rest)[k + 1] == rest[k];
  }

  /** Every tree has a plan, sorted by size. */
  lemma PlanExists(s: State, t: State) returns (plan: seq<Action>)
    ensures PlanFor(s, [], plan) && Ascending(SizeIn(t), plan)
  {
    hide Walked, ActionFor;
    WantedExists(s);
    var paths := set q | q in s.local.Keys + s.remote.Keys && Wanted(s, [], q);
    var listed := PlanOf(s, paths);
    hide Wanted;
    assert PlanFor(s, [], listed);
    SortedPlan(s, t, listed);
    plan := SortedBy(SizeIn(t), listed);
  }

  lemma WantedExists(s: State)
    ensures forall q :: Wanted(s, [], q) ==> q in s.local || q in s.remote
    ensures forall q :: Wanted(s, [], q) ==> Named([], AllNames(), q)
  {
    hide IsConflictName, Walked;
  }

  const NO_LUCK := Luck(0, 1, Broken, Broken, false)

  function Luckless(n: nat): (lucks: seq<Luck>)
    ensures |lucks| == n && forall k :: 0 <= k < n ==> lucks[k] == NO_LUCK
  {
    seq(n, k => NO_LUCK)
  }

  /** A run that breaks off before its first transfer changes anything. */
  lemma StopsAtOnce(s: State, plan: seq<Action>, lucks: seq<Luck>)
    requires |lucks| == |plan| && AllReady(s, plan) && (plan != [] ==> lucks[0] == NO_LUCK)
    ensures Run(s, plan, lucks).0 == s
  {
    hide FreeConflict, IsConflictName;
  }

  lemma OneTransfer(s: State, plan: seq<Action>, luck: Luck)
    requires plan != [] && AllReady(s, plan)
    ensures Run(s, plan, [luck] + Luckless(|plan| - 1)).0 == Exec(s, plan[0], luck).0
  {
    hide Exec, Ready;
    ReadyStays(s, plan, luck);
    assert ([luck] + Luckless(|plan| - 1))[1..] == Luckless(|plan| - 1);
    StopsAtOnce(Exec(s, plan[0], luck).0, plan[1..], Luckless(|plan| - 1));
  }

  lemma TwoTransfers(s: State, plan: seq<Action>, luck: Luck)
    requires |plan| > 1 && AllReady(s, plan) && Exec(s, plan[0], luck).1
    ensures AllReady(Exec(s, plan[0], luck).0, plan[1..])
    ensures Run(s, plan, [luck, luck] + Luckless(|plan| - 2)).0 == Exec(Exec(s, plan[0], luck).0, plan[1], luck).0
  {
    hide Exec, Ready;
    ReadyStays(s, plan, luck);
    assert ([luck, luck] + Luckless(|plan| - 2))[1..] == [luck] + Luckless(|plan| - 2);
    OneTransfer(Exec(s, plan[0], luck).0, plan[1..], luck);
  }

  /** A content nobody holds. */
  ghost predicate Nowhere(s: State, content: seq<Byte>) {
    && (forall q :: HasFile(s, q) ==> s.local[q].content != content)
    && (forall q :: HasDoc(s, q) ==> s.remote[q].content != content)
  }

  lemma NowherePreserved(s: State, p: Path, content: seq<Byte>)
    requires Nowhere(s, content)
    ensures !Preserved(s, p, content)
  {
    hide ConflictOf;
  }

  // ---- A local file that is downloaded over ----

  /** Unlike all others, the wanted path `q` has a remote file of no bytes, and its local one is the only file
      that holds a 0. */
  ghost function Exposed(s: State, q: Path): (u: State)
    ensures SameShape(s, u)
    ensures forall r :: HasFile(u, r) ==> u.local[r].content == if r == q then [0] else [1]
    ensures forall r :: HasDoc(u, r) ==> u.remote[r].content == if r == q then [] else [1]
  {
    Filling(s, (r: Path) => if r == q then [0] else [1], (r: Path) => if r == q then [] else [1])
  }

  /** A file that takes part in no comparison is overwritten by the download of the remote file of its name. */
  lemma ExposedLost(s: State, q: Path) returns (u: State, n: State)
    requires Unblocked(s, [], AllNames()) && Fetched(s, q) && HasFile(s, q)
    ensures SameShape(s, u) && Round(u, n)
    ensures Preserved(u, q, [0]) && !Preserved(n, q, [0])
  {
    hide Fetched, Unblocked, Filled, Grown, PlanFor, Ascending, Run, Exec, AllReady, SameShape, Preserved, HasFile;
    u := Exposed(s, q);
    ShapeWanted(s, u, q);
    ShapeTaken(s, u);
    ShapeAction(s, u, q);
    var t := Planted(u);
    var plan := PlanExists(u, t);
    PlanReady(u, t, plan);
    ExposedFirst(u, t, plan, q);
    var luck := Luck(0, 1, Complete, Complete, true);
    OneTransfer(t, plan, luck);
    n := Run(t, plan, [luck] + Luckless(|plan| - 1)).0;
    ExposedEnd(u, t, q, luck, n);
    NowherePreserved(n, q, [0]);
    AtStart(u, q, [0]);
    assert RoundBy(u, t, plan, [luck] + Luckless(|plan| - 1), n);
  }

  lemma AtStart(s: State, p: Path, content: seq<Byte>)
    requires HasFile(s, p) && s.local[p].content == content
    ensures Preserved(s, p, content)
  {
  }

  /** That download moves the fewest bytes. */
  lemma ExposedFirst(u: State, t: State, plan: seq<Action>, q: Path)
    requires Grown(u, t) && PlanFor(u, [], plan) && Ascending(SizeIn(t), plan) && AllReady(t, plan) && Fetched(u, q)
    requires forall r :: HasFile(u, r) ==> u.local[r].content == if r == q then [0] else [1]
    requires forall r :: HasDoc(u, r) ==> u.remote[r].content == if r == q then [] else [1]
    ensures plan != [] && plan[0] == Download(q) && Ready(t, plan[0])
  {
    hide Walked, ActionFor;
    WantedExists(u);
    var k :| 0 <= k < |plan| && plan[k].path == q;
    assert plan[k] == Download(q);
    assert Ready(t, plan[k]) && Ready(t, plan[0]);
    FilesAsBefore(u, t, q);
    FilesAsBefore(u, t, plan[0].path);
    GrownEntries(u, t, q);
    GrownEntries(u, t, plan[0].path);
    hide Grown, Wanted, PlanFor, AllReady;
    assert SizeIn(t)(plan[k]) == 0 && SizeIn(t)(plan[0]) <= SizeIn(t)(plan[k]);
    assert plan[0].path == q;
  }

  lemma ExposedEnd(u: State, t: State, q: Path, luck: Luck, n: State)
    requires Grown(u, t) && Ready(t, Download(q)) && HasFile(u, q) && n == Exec(t, Download(q), luck).0
    requires luck.download.Complete?
    requires forall r :: HasFile(u, r) ==> u.local[r].content == if r == q then [0] else [1]
    requires forall r :: HasDoc(u, r) ==> u.remote[r].content == if r == q then [] else [1]
    ensures Nowhere(n, [0])
  {
    hide IsConflictName;
    assert n.remote == t.remote && n.local == t.local[q := Downloaded(t.remote[q], luck.now)];
  }

  // ---- A conflict copy that is downloaded over ----

  /** The version of `p` that a replacement puts into its conflict copy is the only 0; the remote file `q` is longer
      than that, and everything else is longer still. */
  ghost function CopyExposed(s: State, a: Action, q: Path): (u: State)
    ensures SameShape(s, u) && CopyContents(u, a, q)
  {
    Filling(s, (r: Path) => LocalContent(a, r), (r: Path) => RemoteContent(a, q, r))
  }

  function LocalContent(a: Action, r: Path): seq<Byte> {
    if r != a.path then [1, 1, 1] else if a.ReplaceLocal? then [0] else []
  }

  function RemoteContent(a: Action, q: Path, r: Path): seq<Byte> {
    if r == a.path then if a.ReplaceLocal? then [] else [0]
    else if r == q then [1, 1] else [1, 1, 1]
  }

  ghost predicate CopyContents(u: State, a: Action, q: Path) {
    && (forall r :: HasFile(u, r) ==> u.local[r].content == LocalContent(a, r))
    && (forall r :: HasDoc(u, r) ==> u.remote[r].content == RemoteContent(a, q, r))
  }

  lemma CopySizes(u: State, t: State, a: Action, q: Path, x: Action)
    requires CopyContents(u, a, q) && Grown(u, t) && Ready(t, x) && q != a.path
    requires a.ReplaceLocal? || a.ReplaceRemote?
    ensures x == a ==> Size(t, x) <= 1
    ensures x == Download(q) ==> Size(t, x) == 2
    ensures x.path != a.path && x.path != q ==> Size(t, x) >= 3
    ensures x.path == q && x.Download? ==> x == Download(q)
  {
    FilesAsBefore(u, t, x.path);
    GrownEntries(u, t, x.path);
    hide Grown, IsConflictName;
  }

  /** The replacement moves the fewest bytes, and that download the next fewest. */
  lemma CopyFirst(u: State, t: State, plan: seq<Action>, a: Action, q: Path)
    requires CopyContents(u, a, q) && Grown(u, t) && PlanFor(u, [], plan) && Ascending(SizeIn(t), plan)
        && AllReady(t, plan)
    requires a.ReplaceLocal? || a.ReplaceRemote?
    requires Wanted(u, [], a.path) && ActionFor(u, a.path) == Some(a) && Fetched(u, q) && q != a.path
    ensures |plan| > 1 && plan[0] == a && plan[1] == Download(q) && Ready(t, a)
  {
    hide Walked, ActionFor, Grown, CopyContents, Ready, Size;
    WantedExists(u);
    var i :| 0 <= i < |plan| && plan[i].path == a.path;
    var k :| 0 <= k < |plan| && plan[k].path == q;
    forall j | 0 <= j < |plan|
      ensures Ready(t, plan[j]) && ActionFor(u, plan[j].path) == Some(plan[j])
      ensures plan[j] == a ==> SizeIn(t)(plan[j]) <= 1
      ensures plan[j] == Download(q) ==> SizeIn(t)(plan[j]) == 2
      ensures plan[j].path != a.path && plan[j].path != q ==> SizeIn(t)(plan[j]) >= 3
    {
      CopySizes(u, t, a, q, plan[j]);
    }
    assert plan[i] == a && plan[k] == Download(q);
    hide Wanted, PlanFor, AllReady, SizeIn;
    assert SizeIn(t)(plan[0]) <= 1;
    assert plan[0].path == a.path;
    assert plan[0] == a;
    assert SizeIn(t)(plan[1]) <= 2;
    assert plan[1].path != a.path;
  }

  /** A complete replacement whose conflict copy is called `q`. */
  lemma CopyMade(t: State, a: Action, luck: Luck, q: Path)
    requires Ready(t, a) && (a.ReplaceLocal? || a.ReplaceRemote?)
    requires Conflict(t, a.path, SideOf(a), luck) == Some(q)
    requires luck.copy.Complete? && luck.download.Complete? && luck.upload
    ensures Exec(t, a, luck).1
    ensures var m := Exec(t, a, luck).0;
            if a.ReplaceLocal? then
              m == t.(local := t.local[q := File(t.local[a.path].content, luck.now)]
                                      [a.path := Downloaded(t.remote[a.path], luck.now)])
            else
              m == State(t.local[q := Downloaded(t.remote[a.path], luck.now)],
                         t.remote[a.path := Uploaded(t.local[a.path])])
  {
    hide FreeConflict, IsConflictName, Conflict;
  }

  /** After both transfers the kept version is nowhere. */
  lemma CopyEnd(u: State, t: State, a: Action, q: Path, luck: Luck)
    requires CopyContents(u, a, q) && Grown(u, t) && Ready(t, a) && (a.ReplaceLocal? || a.ReplaceRemote?)
    requires Conflict(t, a.path, SideOf(a), luck) == Some(q) && q != a.path && q != [] && HasDoc(u, q)
    requires luck.copy.Complete? && luck.download.Complete? && luck.upload
    ensures var m := Exec(t, a, luck).0;
            Exec(t, a, luck).1 && Ready(m, Download(q)) && Nowhere(Exec(m, Download(q), luck).0, [0])
  {
    hide FreeConflict, IsConflictName, Conflict, Grown;
    CopyMade(t, a, luck, q);
    var m := Exec(t, a, luck).0;
    forall r
      ensures HasFile(t, r) ==> t.local[r].content == LocalContent(a, r)
      ensures HasDoc(t, r) ==> t.remote[r].content == RemoteContent(a, q, r)
      ensures HasDoc(t, q)
    {
      FilesAsBefore(u, t, r);
      GrownEntries(u, t, r);
      FilesAsBefore(u, t, q);
    }
    hide Exec;
    CopyOverwritten(m, q, luck);
  }

  lemma CopyOverwritten(m: State, q: Path, luck: Luck)
    requires HasFile(m, q) && HasDoc(m, q) && luck.download.Complete? && q != []
    ensures Exec(m, Download(q), luck).0 == m.(local := m.local[q := Downloaded(m.remote[q], luck.now)])
  {
  }

  lemma KeptAtStart(u: State, a: Action, q: Path)
    requires CopyContents(u, a, q) && HasFile(u, a.path) && HasDoc(u, a.path) && (a.ReplaceLocal? || a.ReplaceRemote?)
    ensures Preserved(u, a.path, [0])
  {
  }

  lemma ReplacedPath(s: State, p: Path)
    requires ActionFor(s, p).Some? && (ActionFor(s, p).value.ReplaceLocal? || ActionFor(s, p).value.ReplaceRemote?)
    ensures HasFile(s, p) && HasDoc(s, p) && ActionFor(s, p).value.path == p
  {
  }

  /** A conflict copy of that name is made by the replacement and then overwritten by the download. */
  lemma CopyLost(s: State, a: Action, q: Path, stamp: nat) returns (u: State, n: State)
    requires Unblocked(s, [], AllNames()) && Fetched(s, q) && Wanted(s, [], a.path) && ActionFor(s, a.path) == Some(a)
    requires a.ReplaceLocal? || a.ReplaceRemote?
    requires a.path != [] && FreeConflict(TakenNames(s), a.path, SideOf(a), stamp, 0) == Some(q)
    ensures SameShape(s, u) && Round(u, n)
    ensures Preserved(u, a.path, [0]) && !Preserved(n, a.path, [0])
  {
    hide Unblocked, Filled, Grown, PlanFor, Ascending, Run, Exec, AllReady, SameShape, Preserved, HasFile, FreeConflict,
      CopyContents, Wanted, ActionFor, TakenNames, ConflictOf, HasDoc, Nowhere, Ready;
    u := CopyExposed(s, a, q);
    ShapeWanted(s, u, q);
    ShapeWanted(s, u, a.path);
    ShapeTaken(s, u);
    ShapeAction(s, u, a.path);
    ReplacedPath(u, a.path);
    var t := Planted(u);
    TakenAfter(u, t);
    CopyIsOther(t, a, q);
    var plan := PlanExists(u, t);
    PlanReady(u, t, plan);
    CopyFirst(u, t, plan, a, q);
    var luck := Luck(stamp, 1, Complete, Complete, true);
    FetchedDoc(u, q);
    CopyEnd(u, t, a, q, luck);
    TwoTransfers(t, plan, luck);
    n := Run(t, plan, [luck, luck] + Luckless(|plan| - 2)).0;
    NowherePreserved(n, a.path, [0]);
    KeptAtStart(u, a, q);
    assert RoundBy(u, t, plan, [luck, luck] + Luckless(|plan| - 2), n);
  }

  lemma FetchedDoc(u: State, q: Path)
    requires Fetched(u, q)
    ensures HasDoc(u, q) && q != []
  {
  }

  lemma CopyIsOther(t: State, a: Action, q: Path)
    requires (a.ReplaceLocal? || a.ReplaceRemote?) && a.path in t.local && q !in t.local
    ensures q != a.path
  {
  }

  // ---- The exact condition ----

  /** In no sync of a tree of this shape, stopped or not, is any version lost. */
  ghost predicate NeverLoses(s: State) {
    forall u, n, p, content :: SameShape(s, u) && Round(u, n) && Preserved(u, p, content) ==> Preserved(n, p, content)
  }

  /** Whatever the files hold and wherever the sync stops, every version survives if and only if the tree is guarded. */
  lemma LosesNothingExactlyIfGuarded(s: State)
    ensures NeverLoses(s) <==> Guarded(s)
  {
    hide Round, Preserved, SameShape, Unblocked, Fetched, Wanted, ActionFor, FreeConflict, TakenNames;
    if Guarded(s) {
      forall u, n, p, content | SameShape(s, u) && Round(u, n) && Preserved(u, p, content)
        ensures Preserved(n, p, content)
      {
        ShapeGuarded(s, u);
        RoundPreserves(u, n, p, content);
      }
    } else {
      UnguardedLoses(s);
    }
  }

  lemma UnguardedLoses(s: State)
    requires !Guarded(s)
    ensures !NeverLoses(s)
  {
    hide Round, Preserved, SameShape, Unblocked, Wanted, ActionFor, NoCopyAt, HasFile, Fetched;
    var q :| Fetched(s, q) && !(!HasFile(s, q) && NoCopyAt(s, q));
    if HasFile(s, q) {
      var u, n := ExposedLost(s, q);
    } else {
      CopyAtLoses(s, q);
    }
  }

  lemma CopyAtLoses(s: State, q: Path)
    requires Unblocked(s, [], AllNames()) && Fetched(s, q) && !NoCopyAt(s, q)
    ensures !NeverLoses(s)
  {
    hide Round, Preserved, SameShape, Unblocked, Walked, ActionFor, Fetched, TakenNames, Spares;
    var p :| Wanted(s, [], p) && !Spares(TakenNames(s), ActionFor(s, p).value, q);
    WantedNotRoot(s, p);
    ActionPath(s, p);
    var a := ActionFor(s, p).value;
    var stamp := StampOf(TakenNames(s), a, q);
    var u, n := CopyLost(s, a, q, stamp);
  }

  lemma StampOf(taken: set<Path>, a: Action, q: Path) returns (stamp: nat)
    requires !Spares(taken, a, q)
    ensures (a.ReplaceLocal? || a.ReplaceRemote?) && a.path != []
    ensures FreeConflict(taken, a.path, SideOf(a), stamp, 0) == Some(q)
  {
    hide FreeConflict;
    stamp :| FreeConflict(taken, a.path, SideOf(a), stamp, 0) == Some(q);
  }

  // ---- An example ----

  /** A local file with a conflict copy's name, and a remote file of the same name that holds something else: the sync
      downloads the remote one over the local one, whose content is then nowhere. */
  lemma MarkedRemoteReplaces(name: string, mine: seq<Byte>, theirs: seq<Byte>) returns (s: State, p: Path, n: State)
    requires mine != theirs
    ensures HasFile(s, p) && s.local[p].content == mine && HasDoc(s, p) && s.remote[p].content == theirs
    ensures Round(s, n) && !Preserved(n, p, mine) && !Guarded(s)
  {
    hide Guarded, Grown, PlanFor, Run, Exec, Filled, Ascending, ConflictName, IsConflictName, AllReady, Preserved;
    p := [ConflictName(name, LocalSide, 1, 0)];
    ConflictNameRecognised(name, LocalSide, 1, 0);
    s := State(map[p := File(mine, 5)], map[p := Doc(theirs, 7)]);
    OnlyOnePath(s, p);
    var t := Planted(s);
    var plan := PlanExists(s, t);
    PlanReady(s, t, plan);
    OnlyOneTransfer(s, t, plan, p);
    var luck := Luck(0, 1, Complete, Complete, true);
    OneTransfer(t, plan, luck);
    n := Run(t, plan, [luck] + Luckless(|plan| - 1)).0;
    assert RoundBy(s, t, plan, [luck] + Luckless(|plan| - 1), n);
    OverwrittenEnd(s, t, p, luck, n, mine);
    NowherePreserved(n, p, mine);
    AtStart(s, p, mine);
    if Guarded(s) {
      RoundPreserves(s, n, p, mine);
    }
  }

  lemma OnlyOnePath(s: State, p: Path)
    requires |p| == 1 && !Unmarked(p) && s.local.Keys == {p} && s.remote.Keys == {p} && HasFile(s, p) && HasDoc(s, p)
    ensures Fetched(s, p) && Unblocked(s, [], AllNames())
    ensures forall q :: Wanted(s, [], q) ==> q == p
  {
    hide IsConflictName;
    assert p[..0] == [];
    WantedExists(s);
  }

  lemma OnlyOneTransfer(s: State, t: State, plan: seq<Action>, p: Path)
    requires PlanFor(s, [], plan) && AllReady(t, plan) && Fetched(s, p)
    requires forall q :: Wanted(s, [], q) ==> q == p
    ensures plan == [Download(p)] && Ready(t, plan[0])
  {
    hide ActionFor, Walked;
    WantedExists(s);
    var k :| 0 <= k < |plan| && plan[k].path == p;
    assert forall j :: 0 <= j < |plan| ==> Wanted(s, [], plan[j].path);
  }

  lemma OverwrittenEnd(s: State, t: State, p: Path, luck: Luck, n: State, mine: seq<Byte>)
    requires Grown(s, t) && s.local.Keys == {p} && s.remote.Keys == {p} && HasFile(s, p) && HasDoc(s, p)
    requires Ready(t, Download(p)) && n == Exec(t, Download(p), luck).0 && luck.download.Complete?
    requires s.remote[p].content != mine
    ensures Nowhere(n, mine)
  {
    hide IsConflictName;
    assert n.remote == t.remote && n.local == t.local[p := Downloaded(t.remote[p], luck.now)];
  }
}
