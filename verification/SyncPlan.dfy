/** Planning a backup sync: missing folders are created on both sides while the trees are compared, and the
    file transfers still needed are listed. */
module SyncPlan {
  import opened ConflictNames
  import opened SyncRun
  import opened TakeoutNames
  import opened Wrappers

  // ---- What the comparison says about one path ----

  /** The local entry takes part in the comparison: conflict copies and symbolic links do not. */
  predicate Seen(s: State, p: Path) {
    p != [] && p in s.local && !s.local[p].Symlink? && !IsConflictName(p[|p| - 1])
  }

  function ActionFor(s: State, p: Path): Option<Action> {
    if Seen(s, p) then
      if !s.local[p].File? then None
      else if p !in s.remote then Some(Upload(p))
      else if s.remote[p].Folder? then None
      else if FileMtime(s.local[p].mtime) > s.remote[p].mtime then Some(ReplaceRemote(p))
      else if s.remote[p].mtime > FileMtime(s.local[p].mtime) then Some(ReplaceLocal(p))
      else None
    else if HasDoc(s, p) then Some(Download(p))
    else None
  }

  /** The comparison goes on inside `p`. */
  predicate Enters(s: State, p: Path) {
    if Seen(s, p) then s.local[p].Dir? && (p in s.remote ==> s.remote[p].Folder?)
    else p in s.remote && s.remote[p].Folder?
  }

  /** The comparison that starts at `dir` reaches folder `p`. */
  predicate Walked(s: State, dir: Path, p: Path)
    decreases |p|
  {
    p == dir || (|p| > |dir| && Enters(s, p) && Walked(s, dir, p[..|p| - 1]))
  }

  /** The comparison that starts at `dir` looks at `p`. */
  predicate Compared(s: State, dir: Path, p: Path) {
    |p| > |dir| && Walked(s, dir, p[..|p| - 1])
  }

  predicate Wanted(s: State, dir: Path, p: Path) {
    Compared(s, dir, p) && ActionFor(s, p).Some?
  }

  /** A remote folder's name is locally taken by something the comparison passes over. */
  predicate Stuck(s: State, p: Path) {
    !Seen(s, p) && p in s.remote && s.remote[p].Folder? && p in s.local && !s.local[p].Dir?
  }

  predicate StuckAt(s: State, dir: Path, p: Path) {
    Compared(s, dir, p) && Stuck(s, p)
  }

  /** Only folders are new, each one the other side has. */
  ghost predicate Grown(s: State, t: State) {
    && (forall q :: q in s.local ==> q in t.local && t.local[q] == s.local[q])
    && (forall q :: q in t.local && q !in s.local ==> t.local[q].Dir? && q in s.remote && s.remote[q].Folder?)
    && (forall q :: q in s.remote ==> q in t.remote && t.remote[q] == s.remote[q])
    && (forall q :: q in t.remote && q !in s.remote ==> t.remote[q].Folder? && Seen(s, q) && s.local[q].Dir?)
  }

  lemma GrownTwice(s: State, t: State, u: State)
    requires Grown(s, t) && Grown(t, u)
    ensures Grown(s, u)
  {
  }

  lemma GrownSame(s: State, t: State, p: Path)
    requires Grown(s, t)
    ensures ActionFor(s, p) == ActionFor(t, p) && Enters(s, p) == Enters(t, p) && Stuck(s, p) == Stuck(t, p)
  {
    hide IsConflictName;
  }

  lemma {:induction false} GrownWalked(s: State, t: State, dir: Path, p: Path)
    requires Grown(s, t)
    ensures Walked(s, dir, p) == Walked(t, dir, p)
    decreases |p|
  {
    hide Grown, Enters;
    GrownSame(s, t, p);
    if p != dir && |p| > |dir| {
      GrownWalked(s, t, dir, p[..|p| - 1]);
    }
  }

  /** Creating folders along the way changes nothing about what is wanted, nor where the comparison gets stuck. */
  lemma GrownWanted(s: State, t: State, dir: Path, p: Path)
    requires Grown(s, t)
    ensures Wanted(s, dir, p) == Wanted(t, dir, p) && StuckAt(s, dir, p) == StuckAt(t, dir, p)
  {
    hide Grown, Enters, ActionFor, Stuck;
    GrownSame(s, t, p);
    if |p| > |dir| {
      GrownWalked(s, t, dir, p[..|p| - 1]);
    }
  }

  // ---- Splitting by the first name ----

  lemma {:induction false} WalkedFrom(s: State, dir: Path, p: Path)
    requires Walked(s, dir, p)
    ensures |dir| <= |p| && p[..|dir|] == dir
    decreases |p|
  {
    if p != dir {
      WalkedFrom(s, dir, p[..|p| - 1]);
    }
  }

  lemma {:induction false} WalkedSplit(s: State, dir: Path, p: Path)
    requires |p| > |dir|
    ensures Walked(s, dir, p) <==>
            && p[..|dir|] == dir && Enters(s, dir + [p[|dir|]]) && Walked(s, dir + [p[|dir|]], p)
    decreases |p|
  {
    hide Enters;
    var q := p[..|p| - 1];
    if |p| == |dir| + 1 {
      assert p == q + [p[|dir|]] && q == p[..|dir|];
      if p[..|dir|] == dir {
        assert p == dir + [p[|dir|]];
      } else if Walked(s, dir, p) {
        WalkedFrom(s, dir, p);
      }
    } else {
      WalkedSplit(s, dir, q);
      assert q[..|dir|] == p[..|dir|] && q[|dir|] == p[|dir|];
    }
  }

  /** What is compared behind one name: the entry of that name itself, or something inside it. */
  lemma ComparedSplit(s: State, dir: Path, p: Path)
    requires |p| > |dir|
    ensures Compared(s, dir, p) <==>
            && p[..|dir|] == dir
            && (|p| == |dir| + 1 || (Enters(s, dir + [p[|dir|]]) && Compared(s, dir + [p[|dir|]], p)))
  {
    hide Enters;
    var q := p[..|p| - 1];
    if |p| == |dir| + 1 {
      assert q == p[..|dir|];
      if Walked(s, dir, q) {
        WalkedFrom(s, dir, q);
      }
    } else {
      WalkedSplit(s, dir, q);
      assert q[..|dir|] == p[..|dir|] && q[|dir|] == p[|dir|];
    }
  }

  lemma WantedSplit(s: State, dir: Path, p: Path)
    requires |p| > |dir|
    ensures Wanted(s, dir, p) <==>
            && p[..|dir|] == dir
            && if |p| == |dir| + 1 then ActionFor(s, p).Some?
               else Enters(s, dir + [p[|dir|]]) && Wanted(s, dir + [p[|dir|]], p)
    ensures StuckAt(s, dir, p) <==>
            && p[..|dir|] == dir
            && if |p| == |dir| + 1 then Stuck(s, p)
               else Enters(s, dir + [p[|dir|]]) && StuckAt(s, dir + [p[|dir|]], p)
  {
    hide Enters, ActionFor, Compared, Stuck;
    ComparedSplit(s, dir, p);
  }

  // ---- Exact plans ----

  predicate Named(dir: Path, names: iset<string>, p: Path) {
    |p| > |dir| && p[|dir|] in names
  }

  /** The plan lists what is wanted behind the given names of `dir`, each path once. */
  ghost predicate Exact(s: State, dir: Path, names: iset<string>, plan: seq<Action>) {
    && (forall k :: 0 <= k < |plan| ==>
          Named(dir, names, plan[k].path) && Wanted(s, dir, plan[k].path)
              && ActionFor(s, plan[k].path) == Some(plan[k]))
    && (forall i, j :: 0 <= i < j < |plan| ==> plan[i].path != plan[j].path)
    && (forall p :: Named(dir, names, p) && Wanted(s, dir, p) ==> Planned(plan, p))
  }

  ghost function AllNames(): iset<string> {
    iset n: string | |n| >= 0
  }

  ghost predicate PlanFor(s: State, dir: Path, plan: seq<Action>) {
    Exact(s, dir, AllNames(), plan)
  }

  lemma ExactNothing(s: State, dir: Path)
    ensures Exact(s, dir, iset{}, [])
  {
  }

  lemma ExactMore(s: State, dir: Path, names: iset<string>, a: seq<Action>, n: string, b: seq<Action>)
    requires Exact(s, dir, names, a) && Exact(s, dir, iset{n}, b) && n !in names
    ensures Exact(s, dir, names + iset{n}, a + b)
  {
    hide Wanted, ActionFor;
    var both := a + b;
    forall p | Named(dir, names + iset{n}, p) && Wanted(s, dir, p)
      ensures Planned(both, p)
    {
      if p[|dir|] == n {
        assert Named(dir, iset{n}, p);
        var k :| 0 <= k < |b| && b[k].path == p;
        assert both[|a| + k].path == p;
      } else {
        var k :| 0 <= k < |a| && a[k].path == p;
        assert both[k].path == p;
      }
    }
    forall i, j | 0 <= i < j < |both|
      ensures both[i].path != both[j].path
    {
      if i < |a| && j >= |a| {
        assert Named(dir, names, a[i].path) && Named(dir, iset{n}, b[j - |a|].path);
      }
    }
  }

  /** A name that is not entered contributes at most its own transfer. */
  lemma ExactLeaf(s: State, dir: Path, n: string)
    requires !Enters(s, dir + [n])
    ensures Exact(s, dir, iset{n}, if ActionFor(s, dir + [n]).Some? then [ActionFor(s, dir + [n]).value] else [])
  {
    hide Enters;
    var p := dir + [n];
    var plan := if ActionFor(s, p).Some? then [ActionFor(s, p).value] else [];
    WantedSplit(s, dir, p);
    assert p[..|dir|] == dir;
    forall q | Named(dir, iset{n}, q) && Wanted(s, dir, q)
      ensures Planned(plan, q)
    {
      WantedSplit(s, dir, q);
      assert q == p;
      assert plan[0].path == q;
    }
  }

  /** A name that is entered contributes the plan of what is inside. */
  lemma ExactFolder(s: State, dir: Path, n: string, t: State, inside: seq<Action>)
    requires Enters(s, dir + [n]) && Grown(s, t) && PlanFor(t, dir + [n], inside)
    ensures Exact(s, dir, iset{n}, inside)
  {
    var p := dir + [n];
    NoActionInside(s, p);
    hide Enters, ActionFor, Grown, Wanted;
    forall q | |q| > |dir| && q[|dir|] == n
      ensures Wanted(s, dir, q) <==> Wanted(t, p, q)
    {
      WantedSplit(s, dir, q);
      GrownWanted(s, t, p, q);
      WantedLonger(s, p, q);
      if |q| == |dir| + 1 && q[..|dir|] == dir {
        assert q == p;
      }
    }
    forall k | 0 <= k < |inside|
      ensures Named(dir, iset{n}, inside[k].path) && ActionFor(s, inside[k].path) == Some(inside[k])
    {
      WantedLonger(t, p, inside[k].path);
      GrownSame(s, t, inside[k].path);
      assert inside[k].path[|dir|] == p[|dir|];
    }
    forall q | Named(dir, iset{n}, q) && Wanted(s, dir, q)
      ensures Planned(inside, q)
    {
      WantedLonger(t, p, q);
      assert Named(p, AllNames(), q);
    }
  }

  // ---- Where planning gets stuck ----

  /** The comparison does not get stuck behind the given names of `dir`. */
  ghost predicate Unblocked(s: State, dir: Path, names: iset<string>) {
    forall p :: Named(dir, names, p) ==> !StuckAt(s, dir, p)
  }

  lemma UnblockedMore(s: State, dir: Path, names: set<string>, n: string)
    ensures Unblocked(s, dir, Those(names + {n})) <==> Unblocked(s, dir, Those(names)) && Unblocked(s, dir, iset{n})
  {
    hide StuckAt;
    forall p | |p| > |dir|
      ensures Named(dir, Those(names + {n}), p) <==> Named(dir, Those(names), p) || Named(dir, iset{n}, p)
    {
    }
  }

  lemma BlockedStays(s: State, dir: Path, n: string)
    requires !Unblocked(s, dir, iset{n})
    ensures !Unblocked(s, dir, AllNames())
  {
    hide StuckAt;
    var p :| Named(dir, iset{n}, p) && StuckAt(s, dir, p);
    assert Named(dir, AllNames(), p);
  }

  lemma UnblockedLeaf(s: State, dir: Path, n: string)
    requires !Enters(s, dir + [n])
    ensures Unblocked(s, dir, iset{n})
  {
    var p := dir + [n];
    assert !Stuck(s, p);
    hide Enters, Stuck;
    forall q | Named(dir, iset{n}, q)
      ensures !StuckAt(s, dir, q)
    {
      WantedSplit(s, dir, q);
      assert |q| == |dir| + 1 && q[..|dir|] == dir ==> q == p;
    }
  }

  lemma BlockedHere(s: State, dir: Path, n: string)
    requires Stuck(s, dir + [n])
    ensures !Unblocked(s, dir, iset{n})
  {
    hide Stuck;
    var p := dir + [n];
    WantedSplit(s, dir, p);
    assert Named(dir, iset{n}, p) && StuckAt(s, dir, p);
  }

  lemma UnblockedFolder(s: State, dir: Path, n: string, t: State)
    requires Enters(s, dir + [n]) && !Stuck(s, dir + [n]) && Grown(s, t)
    ensures Unblocked(s, dir, iset{n}) <==> Unblocked(t, dir + [n], AllNames())
  {
    hide Enters, Stuck, Grown, StuckAt;
    var p := dir + [n];
    forall q | Named(dir, iset{n}, q)
      ensures StuckAt(s, dir, q) ==> Named(p, AllNames(), q) && StuckAt(t, p, q)
    {
      WantedSplit(s, dir, q);
      GrownWanted(s, t, p, q);
      assert |q| == |dir| + 1 && q[..|dir|] == dir ==> q == p;
    }
    forall q | Named(p, AllNames(), q)
      ensures StuckAt(t, p, q) ==> Named(dir, iset{n}, q) && StuckAt(s, dir, q)
    {
      GrownWanted(s, t, p, q);
      if StuckAt(t, p, q) {
        StuckLonger(t, p, q);
        assert q[|dir|] == p[|dir|] && q[..|dir|] == dir;
        WantedSplit(s, dir, q);
      }
    }
  }

  lemma StuckLonger(s: State, dir: Path, p: Path)
    requires StuckAt(s, dir, p)
    ensures |p| > |dir| && p[..|dir|] == dir
  {
    WalkedFrom(s, dir, p[..|p| - 1]);
  }

  // ---- Which folders there are afterwards ----

  /** The folders the comparison goes through, behind the given names of `dir`. */
  ghost function Folders(s: State, dir: Path, names: iset<string>): iset<Path> {
    iset q: Path | Named(dir, names, q) && Walked(s, dir, q)
  }

  ghost predicate Widened<V>(m: map<Path, V>, more: iset<Path>, v: V, n: map<Path, V>) {
    && (forall q :: q in n <==> q in m || q in more)
    && (forall q :: q in n ==> n[q] == if q in m then m[q] else v)
  }

  /** Exactly those folders are there on both sides, and nothing else has changed. */
  ghost predicate Filled(s: State, dir: Path, names: iset<string>, t: State) {
    && Widened(s.local, Folders(s, dir, names), Dir, t.local)
    && Widened(s.remote, Folders(s, dir, names), Folder, t.remote)
  }

  lemma FilledUnique(s: State, dir: Path, names: iset<string>, t: State, u: State)
    requires Filled(s, dir, names, t) && Filled(s, dir, names, u)
    ensures t == u
  {
    hide Folders;
    assert t.local == u.local && t.remote == u.remote;
  }

  lemma FilledNothing(s: State, dir: Path)
    ensures Filled(s, dir, Those({}), s)
  {
  }

  lemma FilledGrown(s: State, dir: Path, names: iset<string>, t: State)
    requires Filled(s, dir, names, t)
    ensures Grown(s, t)
  {
    hide IsConflictName;
    forall q | q in Folders(s, dir, names)
      ensures Enters(s, q)
    {
    }
    hide Folders;
  }

  lemma FilledLeaf(s: State, dir: Path, names: set<string>, n: string, t: State)
    requires Filled(s, dir, Those(names), t) && !Enters(s, dir + [n])
    ensures Filled(s, dir, Those(names + {n}), t)
  {
    hide Enters, Walked;
    forall q | |q| > |dir| && q[|dir|] == n
      ensures !Walked(s, dir, q)
    {
      WalkedSplit(s, dir, q);
    }
    assert Folders(s, dir, Those(names)) == Folders(s, dir, Those(names + {n}));
  }

  /** `t` with folder `p` on both sides, which one of them may have had. */
  ghost predicate WithFolder(t: State, p: Path, u: State) {
    && u.local == (if p in t.local then t.local else t.local[p := Dir])
    && u.remote == (if p in t.remote then t.remote else t.remote[p := Folder])
  }

  lemma WidenedTwice<V>(m: map<Path, V>, a: iset<Path>, v: V, n: map<Path, V>, p: Path, b: iset<Path>, r: map<Path, V>)
    requires Widened(m, a, v, n) && Widened(if p in n then n else n[p := v], b, v, r)
    ensures Widened(m, a + iset{p} + b, v, r)
  {
  }

  lemma FilledFolder(s: State, dir: Path, names: set<string>, n: string, t: State, u: State, v: State)
    requires Filled(s, dir, Those(names), t) && Enters(s, dir + [n]) && WithFolder(t, dir + [n], u) && Grown(s, u)
    requires Filled(u, dir + [n], AllNames(), v)
    ensures Filled(s, dir, Those(names + {n}), v)
  {
    hide Enters, Grown, Walked, Widened;
    var p := dir + [n];
    var (a, b) := (Folders(s, dir, Those(names)), Folders(u, p, AllNames()));
    forall q
      ensures q in Folders(s, dir, Those(names + {n})) <==> q in a + iset{p} + b
    {
      FoldersBehind(s, dir, n, u, q);
    }
    assert Folders(s, dir, Those(names + {n})) == a + iset{p} + b;
    WidenedTwice(s.local, a, Dir, t.local, p, b, v.local);
    WidenedTwice(s.remote, a, Folder, t.remote, p, b, v.remote);
  }

  lemma FoldersBehind(s: State, dir: Path, n: string, u: State, q: Path)
    requires Enters(s, dir + [n]) && Grown(s, u)
    ensures q in Folders(s, dir, iset{n}) <==> q == dir + [n] || q in Folders(u, dir + [n], AllNames())
  {
    hide Enters, Grown;
    var p := dir + [n];
    GrownWalked(s, u, p, q);
    if |q| > |dir| {
      WalkedSplit(s, dir, q);
      if Walked(s, p, q) {
        WalkedFrom(s, p, q);
        assert q[|dir|] == p[|dir|] && q[..|dir|] == dir;
      }
    }
  }

  lemma NoActionInside(s: State, p: Path)
    requires Enters(s, p)
    ensures ActionFor(s, p).None?
  {
  }

  lemma WantedLonger(s: State, dir: Path, p: Path)
    ensures Wanted(s, dir, p) ==> |p| > |dir| && p[..|dir|] == dir
  {
    if Wanted(s, dir, p) {
      WalkedFrom(s, dir, p[..|p| - 1]);
    }
  }

  // ---- The planner ----

  ghost predicate Bounded(s: State, bound: nat) {
    (forall q :: q in s.local ==> |q| <= bound) && (forall q :: q in s.remote ==> |q| <= bound)
  }

  lemma GrownBounded(s: State, t: State, bound: nat)
    requires Grown(s, t) && Bounded(s, bound)
    ensures Bounded(t, bound)
  {
  }

  function ChildNames(paths: set<Path>, dir: Path): (names: set<string>)
    ensures forall n :: n in names <==> dir + [n] in paths
  {
    var names := set q | q in paths && |q| == |dir| + 1 && q[..|dir|] == dir :: q[|dir|];
    assert forall q :: q in paths && |q| == |dir| + 1 && q[..|dir|] == dir ==> q == dir + [q[|dir|]];
    assert forall n :: dir + [n] in paths ==> (dir + [n])[..|dir|] == dir && (dir + [n])[|dir|] == n;
    names
  }

  ghost function Those(names: set<string>): iset<string> {
    iset n | n in names
  }

  /** All other names have nothing to offer. */
  lemma UnblockedAll(s: State, dir: Path, names: set<string>, t: State)
    requires forall n :: n !in names ==> !Seen(s, dir + [n]) && dir + [n] !in s.remote
    ensures Unblocked(s, dir, Those(names)) ==> Unblocked(s, dir, AllNames())
    ensures Filled(s, dir, Those(names), t) ==> Filled(s, dir, AllNames(), t)
  {
    forall p | |p| > |dir|
      ensures StuckAt(s, dir, p) || Walked(s, dir, p) ==> Named(dir, Those(names), p)
    {
      if StuckAt(s, dir, p) || Walked(s, dir, p) {
        NothingBehind(s, dir, p, names);
      }
    }
    hide StuckAt, Walked, Seen;
    assert Folders(s, dir, AllNames()) == Folders(s, dir, Those(names));
  }

  lemma NothingBehind(s: State, dir: Path, p: Path, names: set<string>)
    requires |p| > |dir| && (StuckAt(s, dir, p) || Walked(s, dir, p))
    requires forall n :: n !in names ==> !Seen(s, dir + [n]) && dir + [n] !in s.remote
    ensures p[|dir|] in names
  {
    WantedSplit(s, dir, p);
    WalkedSplit(s, dir, p);
    var q := dir + [p[|dir|]];
    assert |p| == |dir| + 1 && p[..|dir|] == dir ==> p == q;
    assert p[|dir|] !in names ==> !Seen(s, q) && q !in s.remote;
  }

  lemma ExactAll(s: State, dir: Path, names: set<string>, plan: seq<Action>)
    requires Exact(s, dir, Those(names), plan)
    requires forall n :: n !in names ==> !Seen(s, dir + [n]) && dir + [n] !in s.remote
    ensures PlanFor(s, dir, plan)
  {
    forall p | |p| > |dir| && Wanted(s, dir, p)
      ensures Named(dir, Those(names), p)
    {
      WantedSplit(s, dir, p);
      var q := dir + [p[|dir|]];
      assert |p| == |dir| + 1 && p[..|dir|] == dir ==> p == q;
      assert p[|dir|] !in names ==> !Seen(s, q) && q !in s.remote;
    }
    hide Wanted, ActionFor, Seen;
  }

  /** The comparison of `dir` has got so far: the names behind it are dealt with. */
  ghost predicate Done(s: State, dir: Path, names: set<string>, plan: seq<Action>, t: State) {
    && Grown(s, t) && Exact(s, dir, Those(names), plan)
    && Unblocked(s, dir, Those(names)) && Filled(s, dir, Those(names), t)
  }

  /** What dealing with one more name came to. */
  ghost predicate DoneWith(s: State, dir: Path, names: set<string>, n: string, more: seq<Action>, t: State, ok: bool) {
    && Grown(s, t)
    && (ok <==> Unblocked(s, dir, iset{n}))
    && (ok ==> Exact(s, dir, iset{n}, more) && Filled(s, dir, Those(names + {n}), t))
  }

  lemma OneMoreName(s: State, dir: Path, names: set<string>, plan: seq<Action>, t: State, n: string, more: seq<Action>,
                    u: State, ok: bool)
    requires Done(s, dir, names, plan, t) && n !in names && DoneWith(s, dir, names, n, more, u, ok)
    ensures ok ==> Done(s, dir, names + {n}, plan + more, u)
    ensures !ok ==> Grown(s, u) && !Unblocked(s, dir, AllNames())
  {
    hide Exact, Unblocked, Filled, Grown;
    if ok {
      ExactMore(s, dir, Those(names), plan, n, more);
      UnblockedMore(s, dir, names, n);
      assert Those(names + {n}) == Those(names) + iset{n};
    } else {
      BlockedStays(s, dir, n);
    }
  }

  lemma DoneAll(s: State, dir: Path, names: set<string>, plan: seq<Action>, t: State)
    requires Done(s, dir, names, plan, t)
    requires forall n :: n !in names ==> !Seen(s, dir + [n]) && dir + [n] !in s.remote
    ensures PlanFor(s, dir, plan) && Unblocked(s, dir, AllNames()) && Filled(s, dir, AllNames(), t)
  {
    hide Exact, Unblocked, Filled, Grown, PlanFor, Seen;
    ExactAll(s, dir, names, plan);
    UnblockedAll(s, dir, names, t);
  }

  lemma Beginning(s: State, dir: Path)
    ensures Grown(s, s) && Done(s, dir, {}, [], s)
  {
    assert Those({}) == iset{};
    ExactNothing(s, dir);
    FilledNothing(s, dir);
  }

  // ---- One name ----

  lemma GrownEntry(s: State, t: State, p: Path)
    requires Grown(s, t)
    ensures p in s.local ==> p in t.local && t.local[p] == s.local[p]
    ensures p in t.local && t.local[p].File? ==> p in s.local
  {
  }

  /** The two trees after a missing folder was created. */
  lemma FolderCreated(s: State, t: State, p: Path)
    requires Grown(s, t)
    ensures Seen(s, p) && s.local[p].Dir? && p !in s.remote ==> Grown(s, t.(remote := t.remote[p := Folder]))
    ensures p !in t.local && p in s.remote && s.remote[p].Folder? ==> Grown(s, t.(local := t.local[p := Dir]))
  {
    hide IsConflictName;
  }

  lemma EntersFolder(s: State, p: Path)
    ensures Seen(s, p) && s.local[p].Dir? && (p in s.remote ==> s.remote[p].Folder?) ==> Enters(s, p)
    ensures !Seen(s, p) && p in s.remote && s.remote[p].Folder? ==> Enters(s, p)
    ensures Seen(s, p) && !s.local[p].Dir? ==> !Enters(s, p)
    ensures Seen(s, p) && p in s.remote && s.remote[p].Doc? ==> !Enters(s, p)
    ensures !Seen(s, p) && p in s.remote && s.remote[p].Doc? ==> !Enters(s, p) && ActionFor(s, p) == Some(Download(p))
    ensures Seen(s, p) && !s.local[p].File? ==> ActionFor(s, p).None?
  {
  }

  /** A name that is not entered: its own transfer, if any. */
  lemma LeafDone(s: State, dir: Path, names: set<string>, n: string, t: State)
    requires Filled(s, dir, Those(names), t) && !Enters(s, dir + [n])
    ensures DoneWith(s, dir, names, n, OwnAction(s, dir + [n]), t, true)
  {
    hide Exact, Unblocked, Filled, Enters, ActionFor, Grown;
    ExactLeaf(s, dir, n);
    UnblockedLeaf(s, dir, n);
    FilledLeaf(s, dir, names, n, t);
    FilledGrown(s, dir, Those(names), t);
  }

  function OwnAction(s: State, p: Path): seq<Action> {
    if ActionFor(s, p).Some? then [ActionFor(s, p).value] else []
  }

  /** A name that is entered, after its folder was made where it was missing and its inside was compared. */
  lemma FolderDone(s: State, dir: Path, names: set<string>, n: string, t: State, u: State, v: State,
                   inside: seq<Action>, ok: bool)
    requires Filled(s, dir, Those(names), t) && Enters(s, dir + [n]) && !Stuck(s, dir + [n])
    requires WithFolder(t, dir + [n], u) && Grown(s, u) && Grown(u, v)
    requires ok <==> Unblocked(u, dir + [n], AllNames())
    requires ok ==> PlanFor(u, dir + [n], inside) && Filled(u, dir + [n], AllNames(), v)
    ensures DoneWith(s, dir, names, n, inside, v, ok)
  {
    hide Exact, Unblocked, Filled, Enters, Grown, WithFolder, PlanFor, Stuck;
    GrownTwice(s, u, v);
    UnblockedFolder(s, dir, n, u);
    if ok {
      ExactFolder(s, dir, n, u, inside);
      FilledFolder(s, dir, names, n, t, u, v);
    }
  }

  /** A name the comparison gets stuck at. */
  lemma StuckDone(s: State, dir: Path, names: set<string>, n: string, t: State)
    requires Grown(s, t) && Stuck(s, dir + [n])
    ensures DoneWith(s, dir, names, n, [], t, false)
  {
    hide Stuck, Grown, Unblocked;
    BlockedHere(s, dir, n);
  }

  lemma DoneGrown(s: State, dir: Path, names: set<string>, plan: seq<Action>, t: State)
    requires Done(s, dir, names, plan, t)
    ensures Grown(s, t)
  {
  }

  lemma DoneGrownWith(s: State, dir: Path, names: set<string>, n: string, more: seq<Action>, t: State, ok: bool)
    requires DoneWith(s, dir, names, n, more, t, ok)
    ensures Grown(s, t)
  {
  }

  /** What has been made so far lies behind other names. */
  lemma EntryAsBefore(s: State, dir: Path, names: set<string>, n: string, t: State)
    requires Filled(s, dir, Those(names), t) && n !in names
    ensures var p := dir + [n];
            && (p in t.local <==> p in s.local) && (p in s.local ==> t.local[p] == s.local[p])
            && (p in t.remote <==> p in s.remote) && (p in s.remote ==> t.remote[p] == s.remote[p])
  {
    hide Walked;
    assert (dir + [n])[|dir|] == n;
    assert dir + [n] !in Folders(s, dir, Those(names));
    hide Folders;
  }

  class Planner {
    var local: map<Path, Local>
    var remote: map<Path, Remote>

    ghost function Contents(): State
      reads this
    {
      State(local, remote)
    }

    constructor (local: map<Path, Local>, remote: map<Path, Remote>)
      ensures this.local == local && this.remote == remote
    {
      this.local, this.remote := local, remote;
    }

    /** Compares folder `dir` on both sides. It goes well exactly if the comparison gets stuck nowhere; then exactly the
        folders it went through are there on both sides, and the plan lists exactly the transfers the two old trees
        call for. Otherwise some of those folders may have been made. */
    method PlanTree(dir: Path, ghost bound: nat) returns (plan: seq<Action>, ok: bool)
      requires Bounded(Contents(), bound) && |dir| <= bound
      modifies this
      ensures Grown(old(Contents()), Contents())
      ensures ok <==> Unblocked(old(Contents()), dir, AllNames())
      ensures ok ==> PlanFor(old(Contents()), dir, plan) && Filled(old(Contents()), dir, AllNames(), Contents())
      decreases bound - |dir|, 2
    {
      ghost var s := Contents();
      var children := map n | n in ChildNames(remote.Keys, dir) :: remote[dir + [n]];
      Beginning(s, dir);
      assert Listed(s, dir, children);
      hide *;
      var seen;
      plan, seen, ok := PlanLocals(dir, children, s, bound);
      if ok {
        plan, ok := PlanRemotes(dir, children, seen, plan, s, bound);
        if ok {
          DoneAll(s, dir, seen + children.Keys, plan, Contents());
        }
      }
    }

    /** First the local entries, which are matched with the remote children as listed before. */
    method PlanLocals(dir: Path, children: map<string, Remote>, ghost s: State, ghost bound: nat)
      returns (plan: seq<Action>, seen: set<string>, ok: bool)
      requires s == Contents() && Bounded(s, bound) && |dir| <= bound && Listed(s, dir, children)
      modifies this
      ensures Grown(s, Contents())
      ensures ok ==> Done(s, dir, seen, plan, Contents()) && forall n :: n in seen <==> Seen(s, dir + [n])
      ensures !ok ==> !Unblocked(s, dir, AllNames())
      decreases bound - |dir|, 1
    {
      plan, ok := [], true;
      var entries := ChildNames(local.Keys, dir);
      ghost var all := entries;
      seen := {};
      Beginning(s, dir);
      assert SeenAmong(s, dir, all - entries, seen);
      hide Grown, Done, DoneWith, Those, Seen, Enters, ActionFor, Wanted, IsConflictName, Bounded, Listed, SeenAmong,
        ChildNames, PlanFor, Unblocked;
      while entries != {}
        invariant Grown(s, Contents()) && Done(s, dir, seen, plan, Contents())
        invariant entries <= all && SeenAmong(s, dir, all - entries, seen)
        decreases entries
      {
        var name :| name in entries;
        Comparable(s, Contents(), dir, all, name, bound);
        SeenStep(s, dir, all, entries, seen, name);
        entries := entries - {name};
        if !IsConflictName(name) && !local[dir + [name]].Symlink? {
          var child := if name in children then Some(children[name]) else None;
          ChildListed(s, dir, children, name);
          ghost var t := Contents();
          var more;
          more, ok := PlanEntry(dir, name, child, seen, plan, s, bound);
          OneMoreName(s, dir, seen, plan, t, name, more, Contents(), ok);
          if !ok {
            return;
          }
          seen := seen + {name};
          plan := plan + more;
        }
      }
      AllSeen(s, dir, seen, all, entries);
    }

    /** Then the remote children no local entry was matched with. */
    method PlanRemotes(dir: Path, children: map<string, Remote>, seen: set<string>, before: seq<Action>,
          ghost s: State, ghost bound: nat)
      returns (plan: seq<Action>, ok: bool)
      requires Bounded(s, bound) && |dir| <= bound && Listed(s, dir, children)
      requires Done(s, dir, seen, before, Contents()) && forall n :: n in seen <==> Seen(s, dir + [n])
      modifies this
      ensures Grown(s, Contents())
      ensures ok ==> Done(s, dir, seen + children.Keys, plan, Contents())
      ensures !ok ==> !Unblocked(s, dir, AllNames())
      decreases bound - |dir|, 1
    {
      plan, ok := before, true;
      var left := children.Keys;
      ghost var names := seen;
      hide *;
      DoneGrown(s, dir, seen, before, Contents());
      while left != {}
        invariant Grown(s, Contents()) && Done(s, dir, names, plan, Contents())
        invariant left <= children.Keys && names == seen + (children.Keys - left)
        decreases left
      {
        var name :| name in left;
        ChildListed(s, dir, children, name);
        left := left - {name};
        if name !in seen {
          InBound(s, dir + [name], bound);
          ghost var t := Contents();
          var more;
          more, ok := PlanRemote(dir, name, children[name], names, plan, s, bound);
          OneMoreName(s, dir, names, plan, t, name, more, Contents(), ok);
          if !ok {
            return;
          }
          plan := plan + more;
        } else {
          assert names + {name} == names;
        }
        names := names + {name};
      }
      assert names == seen + children.Keys;
    }

    /** A local entry that takes part in the comparison; `child` is its remote counterpart as listed. */
    method PlanEntry(dir: Path, name: string, child: Option<Remote>, ghost names: set<string>,
          ghost before: seq<Action>, ghost s: State, ghost bound: nat)
      returns (more: seq<Action>, ok: bool)
      requires Done(s, dir, names, before, Contents()) && name !in names
      requires Bounded(s, bound) && Seen(s, dir + [name]) && |dir| < bound
      requires child == if dir + [name] in s.remote then Some(s.remote[dir + [name]]) else None
      modifies this
      ensures Grown(s, Contents()) && DoneWith(s, dir, names, name, more, Contents(), ok)
      decreases bound - |dir|, 0
    {
      var p := dir + [name];
      more, ok := [], true;
      ghost var t := Contents();
      GrownEntry(s, t, p);
      EntersFolder(s, p);
      hide Exact, Grown, Enters, PlanFor, IsConflictName, Unblocked, Filled, DoneWith;
      match local[p] {
        case Dir =>
          if child.Some? && child.value.Doc? {
            LeafDone(s, dir, names, name, t);
          } else {
            FolderCreated(s, t, p);
            if child.None? {
              remote := remote[p := Folder];
            }
            ghost var u := Contents();
            GrownBounded(s, u, bound);
            EntryAsBefore(s, dir, names, name, t);
            more, ok := PlanTree(p, bound);
            FolderDone(s, dir, names, name, t, u, Contents(), more, ok);
          }
        case File(_, mtime) =>
          LeafDone(s, dir, names, name, t);
          if child.None? {
            more := [Upload(p)];
          } else if child.value.Doc? {
            if FileMtime(mtime) > child.value.mtime {
              more := [ReplaceRemote(p)];
            } else if child.value.mtime > FileMtime(mtime) {
              more := [ReplaceLocal(p)];
            }
          }
        case _ =>
          LeafDone(s, dir, names, name, t);
      }
      DoneGrownWith(s, dir, names, name, more, Contents(), ok);
    }

    /** A remote child without a local entry taking part. */
    method PlanRemote(dir: Path, name: string, child: Remote, ghost names: set<string>, ghost before: seq<Action>,
          ghost s: State, ghost bound: nat)
      returns (more: seq<Action>, ok: bool)
      requires Done(s, dir, names, before, Contents()) && name !in names
      requires Bounded(s, bound) && !Seen(s, dir + [name]) && |dir| < bound
      requires dir + [name] in s.remote && child == s.remote[dir + [name]]
      modifies this
      ensures Grown(s, Contents()) && DoneWith(s, dir, names, name, more, Contents(), ok)
      decreases bound - |dir|, 0
    {
      var p := dir + [name];
      more, ok := [], true;
      ghost var t := Contents();
      EntersFolder(s, p);
      GrownEntry(s, t, p);
      hide Exact, Grown, Enters, PlanFor, IsConflictName, ActionFor, Unblocked, Filled, DoneWith;
      if child.Folder? {
        EntryAsBefore(s, dir, names, name, t);
        if p in local {
          if !local[p].Dir? {
            ok := false;
            StuckDone(s, dir, names, name, t);
            return;
          }
        } else {
          FolderCreated(s, t, p);
          local := local[p := Dir];
        }
        ghost var u := Contents();
        GrownBounded(s, u, bound);
        more, ok := PlanTree(p, bound);
        FolderDone(s, dir, names, name, t, u, Contents(), more, ok);
      } else {
        LeafDone(s, dir, names, name, t);
        more := [Download(p)];
      }
      DoneGrownWith(s, dir, names, name, more, Contents(), ok);
    }
  }

  ghost predicate Listed(s: State, dir: Path, children: map<string, Remote>) {
    children == map n | n in ChildNames(s.remote.Keys, dir) :: s.remote[dir + [n]]
  }

  lemma ChildListed(s: State, dir: Path, children: map<string, Remote>, name: string)
    requires Listed(s, dir, children)
    ensures name in children <==> dir + [name] in s.remote
    ensures name in children ==> children[name] == s.remote[dir + [name]]
  {
  }

  lemma InBound(s: State, p: Path, bound: nat)
    requires Bounded(s, bound) && (p in s.local || p in s.remote)
    ensures |p| <= bound
  {
  }

  ghost predicate SeenAmong(s: State, dir: Path, names: set<string>, seen: set<string>) {
    forall n :: n in seen <==> n in names && Seen(s, dir + [n])
  }

  lemma SeenStep(s: State, dir: Path, all: set<string>, entries: set<string>, seen: set<string>, name: string)
    requires entries <= all && name in entries && SeenAmong(s, dir, all - entries, seen)
    ensures name !in seen && all - (entries - {name}) == (all - entries) + {name}
    ensures SeenAmong(s, dir, all - (entries - {name}), if Seen(s, dir + [name]) then seen + {name} else seen)
  {
  }

  lemma Comparable(s: State, t: State, dir: Path, all: set<string>, name: string, bound: nat)
    requires Grown(s, t) && name in all && all == ChildNames(s.local.Keys, dir) && Bounded(s, bound)
    ensures dir + [name] in t.local && |dir| < bound
    ensures Seen(s, dir + [name]) <==> !IsConflictName(name) && !t.local[dir + [name]].Symlink?
  {
    assert (dir + [name])[|dir + [name]| - 1] == name;
  }

  lemma AllSeen(s: State, dir: Path, seen: set<string>, all: set<string>, entries: set<string>)
    requires all == ChildNames(s.local.Keys, dir) && entries == {} && SeenAmong(s, dir, all - entries, seen)
    ensures forall n :: n in seen <==> Seen(s, dir + [n])
  {
  }
}
