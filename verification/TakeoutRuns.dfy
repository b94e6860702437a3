/** Whole exports: what a run keeps, when there is room for all names, and what a later run does not repeat. */
module TakeoutRuns {
  import opened Collections
  import opened Takeout
  import opened TakeoutNames
  import opened Wrappers

  // ---- Recorded paths stay distinct ----

  /** Recognised as exported, at its own recorded path. */
  predicate Recognised(s: State, f: Planned, direct: bool) {
    Intact(s, f, direct) && OwnPath(s, f, direct).Some?
  }

  /** The export does not have to take the last resort while that is taken. */
  predicate HasRoom(s: State, f: Planned, direct: bool) {
    Recognised(s, f, direct) || !(NeedsNew(s, f, direct) && Exhausted(s, f))
  }

  predicate Roomy(s: State, plan: seq<Planned>, lucks: seq<Luck>, cfg: Config)
    requires |lucks| == |plan| && Proper(s.manifest) && SafePlan(plan)
    decreases |plan|
  {
    plan != [] ==>
      && HasRoom(s, plan[0], cfg.direct)
      && Roomy(Turn(s, plan[0], lucks[0], cfg).0, plan[1..], lucks[1..], cfg)
  }

  /** A turn changes the manifest exactly as its export does, and the disk beyond that only at the manifest's names. */
  lemma TurnEffect(s: State, f: Planned, luck: Luck, cfg: Config)
    requires Proper(s.manifest) && SafeFolder(f)
    ensures var (n, ok) := Turn(s, f, luck, cfg);
            var (m, outcome) := Export(s, f, luck, cfg);
            && n.manifest == m.manifest
            && (forall q :: !Reserved(q) ==> (q in n.disk <==> q in m.disk) && (q in m.disk ==> n.disk[q] == m.disk[q]))
            && (outcome.Exported? || outcome.Skipped? ==> n == m && ok)
            && (!(outcome.Exported? || outcome.Skipped?) && ok ==>
                  ManifestPath() in n.disk && n.disk[ManifestPath()] == File(cfg.text(Record(n.manifest, n.issues))))
            && (!ok ==> (ManifestPath() in n.disk <==> ManifestPath() in m.disk)
                        && (ManifestPath() in m.disk ==> n.disk[ManifestPath()] == m.disk[ManifestPath()])
                        && (outcome.Failed? || outcome.Unsaved?))
  {
    hide Export, Save, Reserved, ManifestPath, TemporaryPath;
    var m := Export(s, f, luck, cfg).0;
    SaveEffect(m.(issues := m.issues + [f.uid]), cfg, luck.noting);
  }

  lemma TurnKeepsTidy(s: State, f: Planned, luck: Luck, cfg: Config)
    requires Proper(s.manifest) && SafeFolder(f) && Tidy(s.manifest) && HasRoom(s, f, cfg.direct)
    ensures Tidy(Turn(s, f, luck, cfg).0.manifest)
  {
    hide Export, Turn, Exhausted, NeedsNew, Tidy, Intact, Reserved, ManifestPath, TemporaryPath, Placeable, Chosen;
    DistinctUnlessCollision(s, f, luck, cfg);
    ExportEffect(s, f, luck, cfg);
    TurnEffect(s, f, luck, cfg);
  }

  /** Over whole runs, finished or not, the recorded paths stay pairwise distinct as long as there is room. */
  lemma {:induction false} RoomyRunsKeepTidy(s: State, plan: seq<Planned>, lucks: seq<Luck>, cfg: Config)
    requires |lucks| == |plan| && Proper(s.manifest) && SafePlan(plan) && Tidy(s.manifest)
    requires Roomy(s, plan, lucks, cfg)
    ensures Tidy(Run(s, plan, lucks, cfg).0.manifest)
    decreases |plan|
  {
    hide Turn, Tidy, HasRoom;
    if plan != [] {
      TurnKeepsTidy(s, plan[0], lucks[0], cfg);
      var (next, ok) := Turn(s, plan[0], lucks[0], cfg);
      if ok {
        RoomyRunsKeepTidy(next, plan[1..], lucks[1..], cfg);
      }
    }
  }

  // ---- Room that can be seen beforehand ----

  predicate Inside(d: Path, p: Path) {
    |d| < |p| && p[..|d|] == d
  }

  /** The nodes that are recorded somewhere in folder `d` or planned there. */
  function Visitors(m: Manifest, plan: seq<Planned>, d: Path): set<string> {
    (set u | u in m && Recorded(m, u).Some? && Inside(d, Recorded(m, u).value))
    + (set k | 0 <= k < |plan| && d <= plan[k].dir :: plan[k].uid)
  }

  function Visits(plan: seq<Planned>, who: set<string>): nat {
    if plan == [] then 0 else (if plan[0].uid in who then 1 else 0) + Visits(plan[1..], who)
  }

  /** The paths directly in folder `d` that are used, or may become so by saving the manifest. */
  function Crowd(s: State, d: Path): set<Path> {
    Siblings(d, UsedPaths(s) + {ManifestPath(), TemporaryPath()})
  }

  /** In every planned folder the used names, and two for each planned file that goes there, are fewer than
      10,000: something that can be counted before a run. */
  predicate Spacious(s: State, plan: seq<Planned>) {
    forall k :: 0 <= k < |plan| ==>
      |Crowd(s, plan[k].dir)| + 2 * Visits(plan, Visitors(s.manifest, plan, plan[k].dir)) < CANDIDATES
  }

  /** The same, with the visitors counted once and for all. */
  predicate Fits(s: State, plan: seq<Planned>, d: Path, who: set<string>) {
    && |Crowd(s, d)| + 2 * Visits(plan, who) < CANDIDATES
    && (forall u :: u in s.manifest && Recorded(s.manifest, u).Some? && Inside(d, Recorded(s.manifest, u).value) ==>
        u in who)
    && (forall k :: 0 <= k < |plan| && d <= plan[k].dir ==> plan[k].uid in who)
  }

  lemma FetchedPaths(s: State, f: Planned, p: Path, luck: Luck, direct: bool) returns (part: Path)
    requires p != []
    ensures |part| == |p| && part[..|p| - 1] == p[..|p| - 1]
    ensures forall q :: q in Fetch(s, f, p, luck, direct).0.disk ==>
              q in s.disk || (0 < |q| <= |p| && q == p[..|q|]) || q == part
  {
    hide PartialPath, ParentBlocked, WithParents, Accepted, IsDir;
    var candidate := PartialPath(WithParents(s.disk, p), p, 0);
    part := if candidate.Some? then candidate.value else p;
    assert p[..|p|] == p;
    ParentsAre(s.disk, p);
  }

  lemma ParentsAre(disk: Disk, p: Path)
    ensures forall q :: q in WithParents(disk, p) ==> q in disk || (0 < |q| < |p| && q == p[..|q|])
  {
  }

  /** The paths an export may make used. */
  lemma ExportedPaths(s: State, f: Planned, luck: Luck, cfg: Config) returns (part: Path)
    requires Proper(s.manifest) && SafeFolder(f)
    ensures var p := Chosen(s, f, cfg.direct);
            && p != [] && |part| == |p| && part[..|p| - 1] == p[..|p| - 1]
            && forall q :: q in UsedPaths(Turn(s, f, luck, cfg).0) ==>
                 q in UsedPaths(s) || Reserved(q) || (0 < |q| <= |p| && q == p[..|q|]) || q == part
  {
    hide Chosen, Intact, Fetch, Save, Turn, Reserved, ManifestPath, TemporaryPath, Placeable, SafeManifestPath;
    ChosenIsSafe(s, f, cfg.direct);
    var p := Chosen(s, f, cfg.direct);
    part := FetchedPaths(s, f, p, luck, cfg.direct);
    SaveEffect(Fetch(s, f, p, luck, cfg.direct).0, cfg, luck.saving);
    ExportEffect(s, f, luck, cfg);
    TurnEffect(s, f, luck, cfg);
    var n := Turn(s, f, luck, cfg).0;
    assert p[..|p|] == p;
    RecordedPathsAfter(s.manifest, f.uid, Entry(Stored(false, p), f.revision, f.size), p);
  }

  lemma RecordedPathsAfter(m: Manifest, uid: string, e: Entry, p: Path)
    requires SafeManifestPath(e.path) == Some(p)
    ensures forall q :: q in RecordedPaths(m[uid := e]) ==> q in RecordedPaths(m) || q == p
  {
    forall q | q in RecordedPaths(m[uid := e])
      ensures q in RecordedPaths(m) || q == p
    {
      var u :| u in m[uid := e] && Recorded(m[uid := e], u) == Some(q);
      if u != uid {
        assert u in m && Recorded(m, u) == Some(q);
      }
    }
  }

  /** In each folder a turn makes at most two more names used, and only if its file goes there. */
  lemma CrowdAfter(s: State, f: Planned, luck: Luck, cfg: Config, d: Path)
    requires Proper(s.manifest) && SafeFolder(f)
    ensures |Crowd(Turn(s, f, luck, cfg).0, d)| <= |Crowd(s, d)| + if Inside(d, Chosen(s, f, cfg.direct)) then 2 else 0
  {
    hide Chosen, Turn, UsedPaths, ManifestPath, TemporaryPath;
    var p := Chosen(s, f, cfg.direct);
    var part := ExportedPaths(s, f, luck, cfg);
    var n := Turn(s, f, luck, cfg).0;
    var more := if Inside(d, p) then {p[..|d| + 1], part} else {};
    forall q | q in Crowd(n, d)
      ensures q in Crowd(s, d) + more
    {
      if q !in Crowd(s, d) {
        if q == part {
          assert p[..|p| - 1][..|d|] == p[..|d|];
        } else {
          assert q == p[..|d| + 1] && q[..|d|] == p[..|d|];
        }
      }
    }
    SubsetSmaller(Crowd(n, d), Crowd(s, d) + more);
  }

  lemma ChosenVisits(s: State, f: Planned, direct: bool, d: Path)
    requires Inside(d, Chosen(s, f, direct))
    ensures d <= f.dir || (f.uid in s.manifest && Recorded(s.manifest, f.uid) == Some(Chosen(s, f, direct)))
  {
    hide UniquePath, UsedPaths, SafeName;
    if NeedsNew(s, f, direct) {
      var c := UniqueName(f.dir, SafeName(f.name), UsedPaths(s));
      assert (f.dir + [c])[..|d|] == f.dir[..|d|];
    }
  }

  lemma TurnFits(s: State, plan: seq<Planned>, luck: Luck, cfg: Config, d: Path, who: set<string>)
    requires plan != [] && Proper(s.manifest) && SafeFolder(plan[0]) && Fits(s, plan, d, who)
    ensures Fits(Turn(s, plan[0], luck, cfg).0, plan[1..], d, who)
  {
    hide Chosen, Turn, Crowd, Inside, ManifestPath, TemporaryPath, Reserved, Intact, Placeable, SafeManifestPath;
    var f := plan[0];
    var p := Chosen(s, f, cfg.direct);
    CrowdAfter(s, f, luck, cfg, d);
    if Inside(d, p) {
      ChosenVisits(s, f, cfg.direct, d);
    }
    ChosenIsSafe(s, f, cfg.direct);
    ExportEffect(s, f, luck, cfg);
    TurnEffect(s, f, luck, cfg);
  }

  lemma FitsHasRoom(s: State, f: Planned, direct: bool, plan: seq<Planned>, who: set<string>)
    requires Fits(s, plan, f.dir, who)
    ensures HasRoom(s, f, direct)
  {
    hide FirstUnused, SafeName, ManifestPath, TemporaryPath, UsedPaths, Intact;
    UniqueUnlessExhausted(f.dir, SafeName(f.name), UsedPaths(s));
    assert Siblings(f.dir, UsedPaths(s)) <= Crowd(s, f.dir);
    SubsetSmaller(Siblings(f.dir, UsedPaths(s)), Crowd(s, f.dir));
  }

  lemma {:induction false} FittingIsRoomy(s: State, plan: seq<Planned>, lucks: seq<Luck>, cfg: Config,
      whos: seq<set<string>>)
    requires |lucks| == |plan| == |whos| && Proper(s.manifest) && SafePlan(plan)
    requires forall k :: 0 <= k < |plan| ==> Fits(s, plan, plan[k].dir, whos[k])
    ensures Roomy(s, plan, lucks, cfg)
    decreases |plan|
  {
    hide Fits, HasRoom, Turn;
    if plan != [] {
      FitsHasRoom(s, plan[0], cfg.direct, plan, whos[0]);
      var next := Turn(s, plan[0], lucks[0], cfg).0;
      forall k | 0 < k < |plan|
        ensures Fits(next, plan[1..], plan[k].dir, whos[k])
      {
        TurnFits(s, plan, lucks[0], cfg, plan[k].dir, whos[k]);
      }
      assert forall k :: 0 <= k < |plan| - 1 ==> plan[1..][k] == plan[k + 1] && whos[1..][k] == whos[k + 1];
      FittingIsRoomy(next, plan[1..], lucks[1..], cfg, whos[1..]);
    }
  }

  /** Enough space seen before the run is enough during it, whatever happens. */
  lemma SpaciousIsRoomy(s: State, plan: seq<Planned>, lucks: seq<Luck>, cfg: Config)
    requires |lucks| == |plan| && Proper(s.manifest) && SafePlan(plan) && Spacious(s, plan)
    ensures Roomy(s, plan, lucks, cfg)
  {
    hide Roomy, Inside, Crowd;
    var whos := seq(|plan|, k requires 0 <= k < |plan| => Visitors(s.manifest, plan, plan[k].dir));
    FittingIsRoomy(s, plan, lucks, cfg, whos);
  }

  /** Over whole runs, finished or not, the recorded paths stay pairwise distinct if there was enough space before. */
  lemma RunsKeepTidy(s: State, plan: seq<Planned>, lucks: seq<Luck>, cfg: Config)
    requires |lucks| == |plan| && Proper(s.manifest) && SafePlan(plan) && Tidy(s.manifest) && Spacious(s, plan)
    ensures Tidy(Run(s, plan, lucks, cfg).0.manifest)
  {
    hide *;
    SpaciousIsRoomy(s, plan, lucks, cfg);
    RoomyRunsKeepTidy(s, plan, lucks, cfg);
  }

  // ---- Resuming ----

  /** Settled: recognised at a recorded path that is not one of the manifest's own. */
  predicate Settled(s: State, f: Planned, direct: bool) {
    Recognised(s, f, direct) && !Reserved(OwnPath(s, f, direct).value)
  }

  /** The export stores as many bytes as claimed at an ordinary path, or finds them there. */
  predicate Good(s: State, f: Planned, luck: Luck, cfg: Config)
    requires Proper(s.manifest)
  {
    var outcome := Export(s, f, luck, cfg).1;
    || (outcome.Skipped? && !Reserved(Looked(s, f, cfg.direct)))
    || (outcome.Exported? && luck.download.Some? && |luck.download.value| == f.size
        && !Reserved(Chosen(s, f, cfg.direct)))
  }

  /** What a later run reads from the destination; nothing if there is no usable manifest. */
  function Loaded(disk: Disk, cfg: Config): Option<Record> {
    if ManifestPath() !in disk then Some(Record(map[], []))
    else if disk[ManifestPath()].Dir? then None
    else cfg.parse(disk[ManifestPath()].bytes)
  }

  /** The run has just read its manifest, or has saved every change. */
  predicate InStep(s: State, cfg: Config) {
    Loaded(s.disk, cfg) == Some(Record(s.manifest, s.issues))
  }

  /** The state in which a later run starts. */
  function Resumed(disk: Disk, cfg: Config): State
    requires Loaded(disk, cfg).Some?
  {
    State(Loaded(disk, cfg).value.manifest, disk, Loaded(disk, cfg).value.issues)
  }

  /** What was written is read back. */
  ghost predicate Faithful(cfg: Config) {
    forall r :: cfg.parse(cfg.text(r)) == Some(r)
  }

  /** The file would be put in the place of the manifest. */
  predicate TakesManifest(s: State, f: Planned) {
    || (f.dir == [] && SafeName(f.name) == ManifestName())
    || (f.uid in s.manifest && Recorded(s.manifest, f.uid) == Some(ManifestPath()))
  }

  predicate NoneTakesManifest(s: State, plan: seq<Planned>) {
    forall k :: 0 <= k < |plan| ==> !TakesManifest(s, plan[k])
  }

  lemma ManifestNotChosen(s: State, f: Planned, direct: bool)
    requires !TakesManifest(s, f)
    ensures Chosen(s, f, direct) != ManifestPath()
  {
    hide UniquePath, SafeName, ManifestName, TemporaryName, UsedPaths, SafeManifestPath;
    NamesReserved();
    ChosenReserved(s, f, direct);
    hide Reserved;
  }

  /** A turn that lets the run go on leaves the manifest saved; one that ends it leaves the last saved one. */
  lemma TurnInStep(s: State, f: Planned, luck: Luck, cfg: Config)
    requires Proper(s.manifest) && SafeFolder(f) && Faithful(cfg) && InStep(s, cfg)
    ensures var (n, ok) := Turn(s, f, luck, cfg);
            && (ok ==> InStep(n, cfg))
            && (!ok && !TakesManifest(s, f) && ManifestPath() in s.disk ==> Loaded(n.disk, cfg) == Loaded(s.disk, cfg))
  {
    hide Export, Turn, Chosen, Intact, Placeable, TakesManifest, ManifestPath, TemporaryPath;
    ExportEffect(s, f, luck, cfg);
    TurnEffect(s, f, luck, cfg);
    if !TakesManifest(s, f) && ManifestPath() in s.disk {
      ManifestNotChosen(s, f, cfg.direct);
      UnsavedKeepsManifest(s, f, luck, cfg);
    }
  }

  lemma UnsavedKeepsManifest(s: State, f: Planned, luck: Luck, cfg: Config)
    requires Proper(s.manifest) && Chosen(s, f, cfg.direct) != ManifestPath() && ManifestPath() in s.disk
    ensures var (m, outcome) := Export(s, f, luck, cfg);
            !outcome.Exported? ==> ManifestPath() in m.disk && m.disk[ManifestPath()] == s.disk[ManifestPath()]
  {
    hide Chosen, Intact, Fetch, Save, Placeable, ManifestPath, TemporaryPath;
    ChosenNotEmpty(s, f, cfg.direct);
    FetchEffect(s, f, Chosen(s, f, cfg.direct), luck, cfg.direct);
    SaveEffect(Fetch(s, f, Chosen(s, f, cfg.direct), luck, cfg.direct).0, cfg, luck.saving);
  }

  lemma SettledSame(a: State, b: State, g: Planned, direct: bool)
    requires Settled(a, g, direct) && g.uid in b.manifest && b.manifest[g.uid] == a.manifest[g.uid]
    requires var q := OwnPath(a, g, direct).value; q in b.disk && b.disk[q] == a.disk[q]
    ensures Settled(b, g, direct)
  {
    hide NewPath, Reserved;
  }

  /** The turn of another node touches neither the entry nor the file of a settled one. */
  lemma OtherTurn(s: State, f: Planned, luck: Luck, cfg: Config, g: Planned)
    requires Proper(s.manifest) && SafeFolder(f) && Tidy(s.manifest) && HasRoom(s, f, cfg.direct)
    requires Settled(s, g, cfg.direct) && g.uid != f.uid
    ensures var n := Turn(s, f, luck, cfg).0;
            var q := OwnPath(s, g, cfg.direct).value;
            && g.uid in n.manifest && n.manifest[g.uid] == s.manifest[g.uid]
            && q in n.disk && n.disk[q] == s.disk[q]
            && Settled(n, g, cfg.direct)
  {
    hide Export, Turn, Chosen, NewPath, NeedsNew, Exhausted, Placeable, Reserved, ManifestPath, TemporaryPath;
    var q := OwnPath(s, g, cfg.direct).value;
    assert RecordedByAnother(s.manifest, f.uid, q);
    ExportEffect(s, f, luck, cfg);
    TurnEffect(s, f, luck, cfg);
    if !Recognised(s, f, cfg.direct) {
      NothingElseReplaced(s, f, luck, cfg, q);
    }
    SettledSame(s, Turn(s, f, luck, cfg).0, g, cfg.direct);
  }

  /** A good turn settles its own file. */
  lemma OwnTurn(s: State, f: Planned, luck: Luck, cfg: Config)
    requires Proper(s.manifest) && SafeFolder(f) && HasRoom(s, f, cfg.direct) && Good(s, f, luck, cfg)
    ensures Turn(s, f, luck, cfg).1 && Settled(Turn(s, f, luck, cfg).0, f, cfg.direct)
  {
    hide Export, Turn, Chosen, NewPath, Intact, OwnPath, Placeable, ManifestPath, TemporaryPath;
    ExportEffect(s, f, luck, cfg);
    TurnEffect(s, f, luck, cfg);
    if Export(s, f, luck, cfg).1.Exported? {
      ExportThenSkip(s, f, luck, cfg);
    } else {
      IntactIsOwned(s, f, cfg.direct);
    }
  }

  lemma IntactIsOwned(s: State, f: Planned, direct: bool)
    requires Intact(s, f, direct) && HasRoom(s, f, direct)
    ensures OwnPath(s, f, direct) == Some(Looked(s, f, direct))
  {
    hide FirstUnused, UsedPaths;
    UniqueUnlessExhausted(f.dir, SafeName(f.name), UsedPaths(s));
    InUse(s, Looked(s, f, direct));
  }

  lemma InUse(s: State, p: Path)
    ensures p in s.disk ==> p in UsedPaths(s)
  {
  }

  /** A settled file is settled for the next run, however this one goes on: if it is cut short, only a file put in
      the place of the manifest could spoil that. */
  lemma {:induction false} StaysSettled(s: State, plan: seq<Planned>, lucks: seq<Luck>, cfg: Config, g: Planned)
    requires |lucks| == |plan| && Proper(s.manifest) && SafePlan(plan) && Tidy(s.manifest)
    requires Roomy(s, plan, lucks, cfg) && Faithful(cfg) && InStep(s, cfg)
    requires Settled(s, g, cfg.direct) && forall k :: 0 <= k < |plan| ==> plan[k].uid != g.uid
    requires forall i, j :: 0 <= i < j < |plan| ==> plan[i].uid != plan[j].uid
    requires Run(s, plan, lucks, cfg).1 || NoneTakesManifest(s, plan)
    ensures CanResume(Run(s, plan, lucks, cfg).0, cfg, g)
    decreases |plan|
  {
    hide Turn, Tidy, HasRoom, Settled, Faithful, TakesManifest, InStep, Loaded, Resumed;
    if plan == [] {
      ResumesInStep(s, cfg, g);
    } else {
      TurnKeepsTidy(s, plan[0], lucks[0], cfg);
      TurnInStep(s, plan[0], lucks[0], cfg);
      OtherTurn(s, plan[0], lucks[0], cfg, g);
      var (next, ok) := Turn(s, plan[0], lucks[0], cfg);
      if ok {
        if NoneTakesManifest(s, plan) {
          NoneTakesAfter(s, plan, lucks[0], cfg);
        }
        StaysSettled(next, plan[1..], lucks[1..], cfg, g);
      } else {
        ResumesCutShort(s, next, cfg, g);
      }
    }
  }

  /** The next run can start, with the paths distinct, and `g` is settled for it. */
  ghost predicate CanResume(n: State, cfg: Config, g: Planned) {
    && Loaded(n.disk, cfg).Some?
    && Proper(Resumed(n.disk, cfg).manifest) && Tidy(Resumed(n.disk, cfg).manifest)
    && Settled(Resumed(n.disk, cfg), g, cfg.direct)
  }

  lemma ResumesInStep(s: State, cfg: Config, g: Planned)
    requires InStep(s, cfg) && Proper(s.manifest) && Tidy(s.manifest) && Settled(s, g, cfg.direct)
    ensures Resumed(s.disk, cfg) == s && CanResume(s, cfg, g)
  {
    hide Settled, Tidy, Proper, Loaded;
  }

  lemma ResumesCutShort(s: State, n: State, cfg: Config, g: Planned)
    requires InStep(s, cfg) && Proper(s.manifest) && Tidy(s.manifest) && Settled(s, g, cfg.direct)
    requires ManifestPath() in s.disk ==> Loaded(n.disk, cfg) == Loaded(s.disk, cfg)
    requires var q := OwnPath(s, g, cfg.direct).value; q in n.disk && n.disk[q] == s.disk[q]
    ensures CanResume(n, cfg, g)
  {
    hide Settled, Tidy, Proper, ManifestPath, OwnPath;
    EntryOf(s, g, cfg.direct);
    SettledSame(s, Resumed(n.disk, cfg), g, cfg.direct);
  }

  lemma EntryOf(s: State, g: Planned, direct: bool)
    requires Settled(s, g, direct)
    ensures g.uid in s.manifest
  {
  }

  lemma NoneTakesAfter(s: State, plan: seq<Planned>, luck: Luck, cfg: Config)
    requires plan != [] && Proper(s.manifest) && SafeFolder(plan[0]) && NoneTakesManifest(s, plan)
    requires forall i, j :: 0 <= i < j < |plan| ==> plan[i].uid != plan[j].uid
    ensures NoneTakesManifest(Turn(s, plan[0], luck, cfg).0, plan[1..])
  {
    hide Export, Turn, Chosen, Intact, Placeable, Reserved, ManifestPath, TemporaryPath, SafeName, ManifestName;
    ExportEffect(s, plan[0], luck, cfg);
    TurnEffect(s, plan[0], luck, cfg);
    assert forall k :: 0 <= k < |plan| - 1 ==> plan[1..][k] == plan[k + 1];
    assert forall k :: 0 <= k < |plan| ==> !TakesManifest(s, plan[k]);
  }

  // ---- One file in two runs ----

  /** Every turn before turn `k` lets the run go on. */
  predicate Reached(s: State, plan: seq<Planned>, lucks: seq<Luck>, cfg: Config, k: nat)
    requires |lucks| == |plan| && Proper(s.manifest) && SafePlan(plan) && k <= |plan|
    decreases |plan|
  {
    k > 0 ==>
      && Turn(s, plan[0], lucks[0], cfg).1
      && Reached(Turn(s, plan[0], lucks[0], cfg).0, plan[1..], lucks[1..], cfg, k - 1)
  }

  /** The state before turn `k`. */
  function StateAt(s: State, plan: seq<Planned>, lucks: seq<Luck>, cfg: Config, k: nat): (n: State)
    requires |lucks| == |plan| && Proper(s.manifest) && SafePlan(plan) && k <= |plan|
    ensures Proper(n.manifest)
    decreases |plan|
  {
    if k == 0 then s else StateAt(Turn(s, plan[0], lucks[0], cfg).0, plan[1..], lucks[1..], cfg, k - 1)
  }

  /** A file whose turn was reached and good is settled for the next run, whatever the other files did. */
  lemma {:induction false} GoodIsSettled(s: State, plan: seq<Planned>, lucks: seq<Luck>, cfg: Config, k: nat)
    requires |lucks| == |plan| && k < |plan| && Proper(s.manifest) && SafePlan(plan) && Tidy(s.manifest)
    requires Roomy(s, plan, lucks, cfg) && Faithful(cfg) && InStep(s, cfg)
    requires forall i, j :: 0 <= i < j < |plan| ==> plan[i].uid != plan[j].uid
    requires Reached(s, plan, lucks, cfg, k) && Good(StateAt(s, plan, lucks, cfg, k), plan[k], lucks[k], cfg)
    requires Run(s, plan, lucks, cfg).1 || NoneTakesManifest(s, plan)
    ensures CanResume(Run(s, plan, lucks, cfg).0, cfg, plan[k])
    decreases |plan|
  {
    hide Turn, Tidy, HasRoom, Settled, Faithful, TakesManifest, InStep, Loaded, Resumed, Good, CanResume;
    TurnKeepsTidy(s, plan[0], lucks[0], cfg);
    TurnInStep(s, plan[0], lucks[0], cfg);
    var next := Turn(s, plan[0], lucks[0], cfg).0;
    if NoneTakesManifest(s, plan) {
      NoneTakesAfter(s, plan, lucks[0], cfg);
    }
    if k > 0 {
      GoodIsSettled(next, plan[1..], lucks[1..], cfg, k - 1);
    } else {
      OwnTurn(s, plan[0], lucks[0], cfg);
      StaysSettled(next, plan[1..], lucks[1..], cfg, plan[0]);
    }
  }

  lemma {:induction false} SettledAt(s: State, plan: seq<Planned>, lucks: seq<Luck>, cfg: Config, k: nat, g: Planned)
    requires |lucks| == |plan| && k <= |plan| && Proper(s.manifest) && SafePlan(plan) && Tidy(s.manifest)
    requires Roomy(s, plan, lucks, cfg) && Reached(s, plan, lucks, cfg, k) && Settled(s, g, cfg.direct)
    requires forall i :: 0 <= i < k ==> plan[i].uid != g.uid
    ensures Settled(StateAt(s, plan, lucks, cfg, k), g, cfg.direct)
    decreases |plan|
  {
    hide Turn, Tidy, HasRoom, Settled;
    if k > 0 {
      TurnKeepsTidy(s, plan[0], lucks[0], cfg);
      OtherTurn(s, plan[0], lucks[0], cfg, g);
      SettledAt(Turn(s, plan[0], lucks[0], cfg).0, plan[1..], lucks[1..], cfg, k - 1, g);
    }
  }

  lemma SettledSkips(s: State, f: Planned, luck: Luck, cfg: Config)
    requires Proper(s.manifest) && Settled(s, f, cfg.direct)
    ensures Export(s, f, luck, cfg) == (s, Skipped)
  {
  }

  /** Resuming: a file whose turn was reached in one run, and that was then exported with as many bytes as claimed
      or was already there, is skipped by the next run if that reaches it. It does not matter what happens to any
      other file in either run, nor whether the first run got to its end; only a run that is cut short must not
      have put a file in the place of the manifest. */
  lemma NotExportedAgain(s: State, plan: seq<Planned>, lucks: seq<Luck>, again: seq<Luck>, cfg: Config, k: nat)
    requires |lucks| == |plan| == |again| && k < |plan| && Proper(s.manifest) && SafePlan(plan) && Tidy(s.manifest)
    requires Roomy(s, plan, lucks, cfg) && Faithful(cfg) && InStep(s, cfg)
    requires forall i, j :: 0 <= i < j < |plan| ==> plan[i].uid != plan[j].uid
    requires Reached(s, plan, lucks, cfg, k) && Good(StateAt(s, plan, lucks, cfg, k), plan[k], lucks[k], cfg)
    requires Run(s, plan, lucks, cfg).1 || NoneTakesManifest(s, plan)
    ensures var disk := Run(s, plan, lucks, cfg).0.disk;
            && Loaded(disk, cfg).Some? && Proper(Resumed(disk, cfg).manifest)
            && var r := Resumed(disk, cfg);
               Roomy(r, plan, again, cfg) && Reached(r, plan, again, cfg, k) ==>
                 Export(StateAt(r, plan, again, cfg, k), plan[k], again[k], cfg)
                 == (StateAt(r, plan, again, cfg, k), Skipped)
  {
    hide Roomy, Run, Settled, Good, Loaded, Resumed, Export, StateAt, Reached, Tidy, Proper, InStep, Faithful;
    GoodIsSettled(s, plan, lucks, cfg, k);
    var r := Resumed(Run(s, plan, lucks, cfg).0.disk, cfg);
    if Roomy(r, plan, again, cfg) && Reached(r, plan, again, cfg, k) {
      SettledAt(r, plan, again, cfg, k, plan[k]);
      SettledSkips(StateAt(r, plan, again, cfg, k), plan[k], again[k], cfg);
    }
  }

  // ---- Runs without faults ----

  /** Every turn is reached and good. */
  predicate Faultless(s: State, plan: seq<Planned>, lucks: seq<Luck>, cfg: Config)
    requires |lucks| == |plan| && Proper(s.manifest) && SafePlan(plan)
    decreases |plan|
  {
    plan != [] ==>
      && Good(s, plan[0], lucks[0], cfg)
      && Turn(s, plan[0], lucks[0], cfg).1
      && Faultless(Turn(s, plan[0], lucks[0], cfg).0, plan[1..], lucks[1..], cfg)
  }

  lemma {:induction false} FaultlessIsGood(s: State, plan: seq<Planned>, lucks: seq<Luck>, cfg: Config)
    requires |lucks| == |plan| && Proper(s.manifest) && SafePlan(plan) && Faultless(s, plan, lucks, cfg)
    requires Faithful(cfg) && InStep(s, cfg)
    ensures forall k :: 0 <= k < |plan| ==>
              Reached(s, plan, lucks, cfg, k) && Good(StateAt(s, plan, lucks, cfg, k), plan[k], lucks[k], cfg)
    ensures Run(s, plan, lucks, cfg).1 && InStep(Run(s, plan, lucks, cfg).0, cfg)
    ensures Proper(Run(s, plan, lucks, cfg).0.manifest)
    decreases |plan|
  {
    hide Turn, Good, InStep, Faithful;
    if plan != [] {
      TurnInStep(s, plan[0], lucks[0], cfg);
      FaultlessIsGood(Turn(s, plan[0], lucks[0], cfg).0, plan[1..], lucks[1..], cfg);
    }
  }

  lemma {:induction false} RerunSkipsAll(s: State, plan: seq<Planned>, lucks: seq<Luck>, cfg: Config)
    requires |lucks| == |plan| && Proper(s.manifest) && SafePlan(plan)
    requires forall k :: 0 <= k < |plan| ==> Settled(s, plan[k], cfg.direct)
    ensures Run(s, plan, lucks, cfg) == (s, true)
    decreases |plan|
  {
    hide Export, Settled, Intact;
    if plan != [] {
      SettledSkips(s, plan[0], lucks[0], cfg);
      RerunSkipsAll(s, plan[1..], lucks[1..], cfg);
    }
  }

  /** A run without faults is not repeated: a run that reads its manifest again, whatever the network does then,
      changes nothing. */
  lemma RunThenRerun(s: State, plan: seq<Planned>, lucks: seq<Luck>, again: seq<Luck>, cfg: Config)
    requires |lucks| == |plan| == |again| && Proper(s.manifest) && SafePlan(plan) && Tidy(s.manifest)
    requires Roomy(s, plan, lucks, cfg) && Faultless(s, plan, lucks, cfg) && Faithful(cfg) && InStep(s, cfg)
    requires forall i, j :: 0 <= i < j < |plan| ==> plan[i].uid != plan[j].uid
    ensures var n := Run(s, plan, lucks, cfg).0;
            && Loaded(n.disk, cfg).Some? && Resumed(n.disk, cfg) == n && Proper(n.manifest)
            && Run(n, plan, again, cfg) == (n, true)
  {
    hide Settled, Roomy, Faultless, Tidy, Run, Good, Loaded, Faithful, Proper;
    FaultlessIsGood(s, plan, lucks, cfg);
    var n := Run(s, plan, lucks, cfg).0;
    forall k | 0 <= k < |plan|
      ensures Settled(n, plan[k], cfg.direct)
    {
      GoodIsSettled(s, plan, lucks, cfg, k);
    }
    RerunSkipsAll(n, plan, again, cfg);
  }
}
