/** What an export does, told from the manifest's entry, the disk and the outside alone: when it skips a file, where it
    puts it and when it succeeds; and that a new revision is always fetched. */
module TakeoutExact {
  import opened Bytes
  import opened Decimals
  import opened Takeout
  import opened TakeoutNames
  import opened TakeoutRuns
  import opened Wrappers

  /** The recorded path may be used again: it stays below the destination and, in direct mode, in the planned folder. */
  predicate Usable(path: Stored, f: Planned, direct: bool) {
    !path.absolute && ".." !in path.parts && (direct ==> f.dir <= path.parts)
  }

  /** Something is at the path, or some node is recorded there. */
  ghost predicate Taken(s: State, p: Path) {
    p in s.disk || exists u :: RecordedAt(s.manifest, u, p)
  }

  predicate RecordedAt(m: Manifest, u: string, p: Path) {
    u in m && !m[u].path.absolute && ".." !in m[u].path.parts && m[u].path.parts == p
  }

  lemma TakenIsUsed(s: State, p: Path)
    ensures Taken(s, p) <==> p in UsedPaths(s)
  {
    if u :| u in s.manifest && Recorded(s.manifest, u) == Some(p) {
      assert RecordedAt(s.manifest, u, p);
    }
    if u :| RecordedAt(s.manifest, u, p) {
      assert Recorded(s.manifest, u) == Some(p);
    }
  }

  /** The path is the first of the name's 10,000 candidates that is not taken, or the last resort if all are. */
  ghost predicate FirstFree(s: State, f: Planned, p: Path) {
    || (exists i: nat :: i < 10_000 && FreeCandidate(s, f, p, i))
    || (p == f.dir + [SafeName(f.name) + " (collision)"]
        && forall i: nat :: i < 10_000 ==> Taken(s, Candidate(f.dir, SafeName(f.name), i)))
  }

  ghost predicate FreeCandidate(s: State, f: Planned, p: Path, i: nat) {
    && p == Candidate(f.dir, SafeName(f.name), i) && !Taken(s, p)
    && forall j: nat :: j < i ==> Taken(s, Candidate(f.dir, SafeName(f.name), j))
  }

  lemma {:induction false} FirstUnusedExact(parent: Path, name: string, used: set<Path>, k: nat) returns (i: nat)
    requires k <= CANDIDATES
    ensures k <= i <= CANDIDATES && forall j: nat :: k <= j < i ==> Candidate(parent, name, j) in used
    ensures i < CANDIDATES ==> Candidate(parent, name, i) !in used
    ensures FirstUnused(parent, name, used, k) == if i < CANDIDATES then Some(Candidate(parent, name, i)) else None
    decreases CANDIDATES - k
  {
    hide Candidate;
    i := k;
    if k < CANDIDATES && Candidate(parent, name, k) in used {
      i := FirstUnusedExact(parent, name, used, k + 1);
    }
  }

  lemma NewPathFirst(s: State, f: Planned)
    ensures FirstFree(s, f, NewPath(s, f))
  {
    hide FirstUnused, SafeName, UsedPaths, Candidate, Taken;
    var i := FirstUnusedExact(f.dir, SafeName(f.name), UsedPaths(s), 0);
    forall p
      ensures Taken(s, p) <==> p in UsedPaths(s)
    {
      TakenIsUsed(s, p);
    }
    assert i < CANDIDATES ==> FreeCandidate(s, f, NewPath(s, f), i);
  }

  lemma FirstFreeUnique(s: State, f: Planned, p: Path, q: Path)
    requires FirstFree(s, f, p) && FirstFree(s, f, q)
    ensures p == q
  {
    hide Taken, SafeName, Candidate;
  }

  predicate FileOfSize(disk: Disk, p: Path, size: nat) {
    p in disk && disk[p].File? && |disk[p].bytes| == size
  }

  /** A file is skipped if and only if the manifest has an entry for it with exactly this revision and this size, and a
      file of that length is where it is looked for: at the recorded path if that is usable; otherwise where a new
      file would go, which can only be the last resort, all 10,000 candidates being taken. */
  lemma SkippedExactly(s: State, f: Planned, luck: Luck, cfg: Config)
    requires Proper(s.manifest)
    ensures Export(s, f, luck, cfg).1.Skipped? <==>
              && f.uid in s.manifest
              && s.manifest[f.uid].revision == f.revision && s.manifest[f.uid].size == f.size
              && if Usable(s.manifest[f.uid].path, f, cfg.direct) then
                   FileOfSize(s.disk, s.manifest[f.uid].path.parts, f.size)
                 else
                   && (forall i: nat :: i < 10_000 ==> Taken(s, Candidate(f.dir, SafeName(f.name), i)))
                   && FileOfSize(s.disk, f.dir + [SafeName(f.name) + " (collision)"], f.size)
    ensures Export(s, f, luck, cfg).1.Skipped? ==> Export(s, f, luck, cfg).0 == s
  {
    SkippedLooked(s, f, luck, cfg);
    if f.uid in s.manifest && !Usable(s.manifest[f.uid].path, f, cfg.direct) {
      hide SafeName, Candidate;
      NewPathFirst(s, f);
      hide NewPath, Export, Looked;
      NewLookedFor(s, f, NewPath(s, f));
    }
  }

  lemma SkippedLooked(s: State, f: Planned, luck: Luck, cfg: Config)
    requires Proper(s.manifest)
    ensures Export(s, f, luck, cfg).1.Skipped? ==> Export(s, f, luck, cfg).0 == s
    ensures Export(s, f, luck, cfg).1.Skipped? <==>
              && f.uid in s.manifest
              && s.manifest[f.uid].revision == f.revision && s.manifest[f.uid].size == f.size
              && FileOfSize(s.disk, if Usable(s.manifest[f.uid].path, f, cfg.direct) then s.manifest[f.uid].path.parts
                                    else NewPath(s, f), f.size)
  {
    hide NewPath, Chosen, Fetch, Save;
    ChosenNotEmpty(s, f, cfg.direct);
  }

  /** What exists is taken, so a new path that exists is the last resort. */
  lemma NewLookedFor(s: State, f: Planned, p: Path)
    requires FirstFree(s, f, p)
    ensures p in s.disk <==>
              && (forall i: nat :: i < 10_000 ==> Taken(s, Candidate(f.dir, SafeName(f.name), i)))
              && f.dir + [SafeName(f.name) + " (collision)"] in s.disk
    ensures p in s.disk ==> p == f.dir + [SafeName(f.name) + " (collision)"]
  {
    hide SafeName, Candidate;
  }

  /** Where a file that is not skipped goes: to its recorded path again, if that is usable and, in direct mode, nothing
      is there; otherwise to the first free candidate. */
  lemma GoesTo(s: State, f: Planned, direct: bool)
    ensures var p := Chosen(s, f, direct);
            if f.uid in s.manifest && Usable(s.manifest[f.uid].path, f, direct)
               && !(direct && s.manifest[f.uid].path.parts in s.disk) then
              p == s.manifest[f.uid].path.parts
            else FirstFree(s, f, p)
  {
    NewPathFirst(s, f);
    hide NewPath, FirstFree;
  }

  // ---- When a file is stored ----

  /** A file stands where a folder above `p` belongs. */
  predicate UnderFile(disk: Disk, p: Path) {
    exists i :: 0 < i < |p| && p[..i] in disk && disk[p[..i]].File?
  }

  /** The k-th name tried for the partial file of `p`. */
  function PartialFor(p: Path, k: nat): Path
    requires p != []
  {
    p[..|p| - 1] + ["." + p[|p| - 1] + ".pdcli-partial" + if k == 0 then "" else "." + Decimal(k)]
  }

  lemma {:induction false} PartialExact(disk: Disk, p: Path, k: nat)
    requires p != [] && k <= CANDIDATES
    ensures PartialPath(disk, p, k).Some? <==> exists i: nat :: k <= i < CANDIDATES && PartialFor(p, i) !in disk
    decreases CANDIDATES - k
  {
    hide PartialFor;
    if k < CANDIDATES {
      PartialNamed(p, k);
      hide PartialName;
      if PartialFor(p, k) in disk {
        PartialExact(disk, p, k + 1);
      }
    }
  }

  lemma PartialNamed(p: Path, k: nat)
    requires p != []
    ensures PartialFor(p, k) == p[..|p| - 1] + [PartialName(p[|p| - 1], k)]
  {
  }

  lemma PartialAmongParents(disk: Disk, p: Path, i: nat)
    requires p != []
    ensures PartialFor(p, i) in WithParents(disk, p) <==> PartialFor(p, i) in disk
  {
    assert |PartialFor(p, i)| == |p|;
  }

  lemma PlaceableExact(disk: Disk, p: Path, direct: bool)
    requires p != []
    ensures Placeable(disk, p, direct) <==>
              && !UnderFile(disk, p)
              && if direct then p !in disk
                 else (exists i: nat :: i < 10_000 && PartialFor(p, i) !in disk) && !(p in disk && disk[p].Dir?)
  {
    hide PartialPath, PartialFor, WithParents;
    forall i: nat
      ensures PartialFor(p, i) in WithParents(disk, p) <==> PartialFor(p, i) in disk
    {
      PartialAmongParents(disk, p, i);
    }
    PartialExact(WithParents(disk, p), p, 0);
  }

  /** A file that is not skipped gets stored if and only if no file is in the way of a folder, a partial file can be
      named and the place is no folder - or, in direct mode, is free -, the download can be written and arrives
      complete, and it can be moved into place; a claimed size of 0 accepts any length. */
  lemma StoredExactly(s: State, f: Planned, luck: Luck, cfg: Config)
    requires Proper(s.manifest)
    ensures var (p, outcome) := (Chosen(s, f, cfg.direct), Export(s, f, luck, cfg).1);
            && p != []
            && (Stores(outcome) <==>
                  && !outcome.Skipped? && !UnderFile(s.disk, p)
                  && luck.create && luck.download.Some? && (f.size == 0 || |luck.download.value| == f.size)
                  && if cfg.direct then p !in s.disk
                     else (exists i: nat :: i < 10_000 && PartialFor(p, i) !in s.disk)
                          && !(p in s.disk && s.disk[p].Dir?) && luck.rename)
  {
    ExportEffect(s, f, luck, cfg);
    hide Export, Chosen, Intact, Placeable, PartialFor, Reserved, UnderFile;
    PlaceableExact(s.disk, Chosen(s, f, cfg.direct), cfg.direct);
  }

  lemma FoldersAfter(s: State, f: Planned, p: Path, luck: Luck, direct: bool, q: Path)
    requires p != [] && q != [] && Fetch(s, f, p, luck, direct).1
    ensures IsDir(Fetch(s, f, p, luck, direct).0.disk, q) <==> IsDir(s.disk, q) || q < p
  {
    hide PartialPath;
    if q < p {
      assert p[..|q|] == q && 0 < |q| < |p|;
    }
    ParentsBelow(s.disk, p);
    ParentsAre(s.disk, p);
    hide ParentBlocked;
    if q < p && q !in s.disk {
      ParentMade(s.disk, p, |q|);
    }
  }

  lemma ParentMade(disk: Disk, p: Path, i: nat)
    requires 0 < i < |p| && p[..i] !in disk
    ensures IsDir(WithParents(disk, p), p[..i])
  {
  }

  /** A stored file counts as exported if and only if the manifest can be saved afterwards: neither it nor its temporary
      file is a folder, not even one that was made for the file. */
  lemma ExportedExactly(s: State, f: Planned, luck: Luck, cfg: Config)
    requires Proper(s.manifest)
    ensures var outcome := Export(s, f, luck, cfg).1;
            var p := Chosen(s, f, cfg.direct);
            outcome.Exported? <==>
              && Stores(outcome) && luck.saving.Moved?
              && !IsDir(s.disk, ManifestPath()) && !(ManifestPath() < p)
              && !IsDir(s.disk, TemporaryPath()) && !(TemporaryPath() < p)
  {
    hide Chosen, Intact, Fetch, Save, ManifestName, TemporaryName, IsDir;
    ChosenNotEmpty(s, f, cfg.direct);
    var p := Chosen(s, f, cfg.direct);
    var (n, stored) := Fetch(s, f, p, luck, cfg.direct);
    SavedExactly(n, cfg, luck.saving);
    if stored {
      FoldersAfter(s, f, p, luck, cfg.direct, ManifestPath());
      FoldersAfter(s, f, p, luck, cfg.direct, TemporaryPath());
    }
  }

  lemma SavedExactly(s: State, cfg: Config, how: Saving)
    ensures Save(s, cfg, how).1 <==>
              how.Moved? && !IsDir(s.disk, TemporaryPath()) && !IsDir(s.disk, ManifestPath())
    ensures Save(s, cfg, how).0.manifest == s.manifest && Save(s, cfg, how).0.issues == s.issues
  {
    hide TemporaryPath, ManifestPath;
  }

  /** A run goes on after a file that was exported or skipped, and after a failure that is to be recorded and could be
      saved; exactly a recorded failure adds the file to the issues. */
  lemma TurnExactly(s: State, f: Planned, luck: Luck, cfg: Config)
    requires Proper(s.manifest) && SafeFolder(f)
    ensures var ((n, ok), (m, outcome)) := (Turn(s, f, luck, cfg), Export(s, f, luck, cfg));
            && (ok <==>
                  || outcome.Exported? || outcome.Skipped?
                  || (f.recordFailure && luck.noting.Moved?
                      && !IsDir(m.disk, TemporaryPath()) && !IsDir(m.disk, ManifestPath())))
            && n.manifest == m.manifest
            && n.issues == if f.recordFailure && (outcome.Failed? || outcome.Unsaved?) then s.issues + [f.uid]
                           else s.issues
  {
    ExportEffect(s, f, luck, cfg);
    hide Export, Save, Chosen, Intact, Placeable, Reserved, TemporaryPath, ManifestPath;
    var m := Export(s, f, luck, cfg).0;
    SavedExactly(m.(issues := m.issues + [f.uid]), cfg, luck.noting);
  }

  /** The partial file of `p` that would be made: the first name tried that is free. */
  ghost predicate FirstPartial(disk: Disk, p: Path, q: Path) {
    p != [] && exists k: nat :: k < 10_000 && PartialAt(disk, p, q, k)
  }

  ghost predicate PartialAt(disk: Disk, p: Path, q: Path, k: nat)
    requires p != []
  {
    q == PartialFor(p, k) && q !in disk && forall j: nat :: j < k ==> PartialFor(p, j) in disk
  }

  lemma {:induction false} PartialFirst(disk: Disk, p: Path, k: nat)
    requires p != [] && k <= CANDIDATES && PartialPath(disk, p, k).Some?
    requires forall j: nat :: j < k ==> PartialFor(p, j) in disk
    ensures FirstPartial(disk, p, PartialPath(disk, p, k).value)
    decreases CANDIDATES - k
  {
    hide PartialFor;
    PartialNamed(p, k);
    hide PartialName;
    if PartialFor(p, k) in disk {
      PartialFirst(disk, p, k + 1);
    } else {
      assert PartialAt(disk, p, PartialFor(p, k), k);
    }
  }

  lemma FirstPartialSame(disk: Disk, p: Path, q: Path)
    requires p != [] && FirstPartial(WithParents(disk, p), p, q)
    ensures FirstPartial(disk, p, q)
  {
    hide PartialFor, WithParents;
    var k: nat :| k < 10_000 && PartialAt(WithParents(disk, p), p, q, k);
    forall j: nat
      ensures PartialFor(p, j) in WithParents(disk, p) <==> PartialFor(p, j) in disk
    {
      PartialAmongParents(disk, p, j);
    }
    assert PartialAt(disk, p, q, k);
  }

  /** The download was complete, and could not be moved to its place. */
  predicate Stranded(s: State, f: Planned, p: Path, luck: Luck, direct: bool) {
    && !direct && luck.create && luck.download.Some? && (f.size == 0 || |luck.download.value| == f.size)
    && (!luck.rename || IsDir(s.disk, p))
  }

  /** The manifest and all that was there is as it was; new are at most the folders above `p`, all of them unless a file
      is in the way of one, and the finished partial file, if the download could not be moved. */
  ghost predicate Leaves(s: State, f: Planned, p: Path, luck: Luck, direct: bool, n: State)
    requires p != []
  {
    && n.manifest == s.manifest && n.issues == s.issues
    && (forall q :: q in s.disk ==> q in n.disk && n.disk[q] == s.disk[q])
    && (UnderFile(s.disk, p) ==> n.disk == s.disk)
    && (!UnderFile(s.disk, p) ==> forall i :: 0 < i < |p| ==> p[..i] in n.disk)
    && (forall q :: q in n.disk && q !in s.disk ==>
          || (q != [] && q < p && n.disk[q].Dir?)
          || (Stranded(s, f, p, luck, direct) && FirstPartial(s.disk, p, q)
              && n.disk[q] == File(luck.download.value)))
    && (!UnderFile(s.disk, p) && Stranded(s, f, p, luck, direct)
        && (exists k: nat :: k < 10_000 && PartialFor(p, k) !in s.disk) ==>
          exists q :: FirstPartial(s.disk, p, q) && q in n.disk && n.disk[q] == File(luck.download.value))
  }

  /** What a failed export leaves. */
  lemma FailureLeaves(s: State, f: Planned, luck: Luck, cfg: Config)
    requires Proper(s.manifest) && Export(s, f, luck, cfg).1.Failed?
    ensures Chosen(s, f, cfg.direct) != []
    ensures Leaves(s, f, Chosen(s, f, cfg.direct), luck, cfg.direct, Export(s, f, luck, cfg).0)
  {
    hide Export, Chosen, Fetch, Leaves;
    FailedFetch(s, f, luck, cfg);
    FetchLeaves(s, f, Chosen(s, f, cfg.direct), luck, cfg.direct);
  }

  lemma FailedFetch(s: State, f: Planned, luck: Luck, cfg: Config)
    requires Proper(s.manifest) && Export(s, f, luck, cfg).1.Failed?
    ensures Chosen(s, f, cfg.direct) != []
    ensures Fetch(s, f, Chosen(s, f, cfg.direct), luck, cfg.direct) == (Export(s, f, luck, cfg).0, false)
  {
    ChosenNotEmpty(s, f, cfg.direct);
    hide Chosen, Fetch, Save, Intact;
  }

  lemma FetchLeaves(s: State, f: Planned, p: Path, luck: Luck, direct: bool)
    requires p != [] && !Fetch(s, f, p, luck, direct).1
    ensures Leaves(s, f, p, luck, direct, Fetch(s, f, p, luck, direct).0)
  {
    hide Fetch, Leaves, WithParents, PartialPath, FirstPartial, PartialFor, Stranded, UnderFile;
    var disk := WithParents(s.disk, p);
    var part := PartialPath(disk, p, 0);
    FetchShape(s, f, p, luck, direct);
    FoldersMade(s.disk, p);
    PartialFound(s.disk, p);
    if UnderFile(s.disk, p) {
      NothingLeft(s, f, p, luck, direct);
    } else if Stranded(s, f, p, luck, direct) && part.Some? {
      PartialLeft(s, f, p, luck, direct, disk, part.value);
    } else {
      FoldersLeft(s, f, p, luck, direct, disk);
    }
  }

  lemma FetchShape(s: State, f: Planned, p: Path, luck: Luck, direct: bool)
    requires p != [] && !Fetch(s, f, p, luck, direct).1
    ensures var (disk, part) := (WithParents(s.disk, p), PartialPath(WithParents(s.disk, p), p, 0));
            Fetch(s, f, p, luck, direct).0
            == s.(disk := if UnderFile(s.disk, p) then s.disk
                          else if Stranded(s, f, p, luck, direct) && part.Some? then
                            disk[part.value := File(luck.download.value)]
                          else disk)
  {
    ParentsBelow(s.disk, p);
    assert ParentBlocked(s.disk, p) == UnderFile(s.disk, p);
    hide WithParents, PartialPath, ParentBlocked, UnderFile;
  }

  lemma NothingLeft(s: State, f: Planned, p: Path, luck: Luck, direct: bool)
    requires p != [] && UnderFile(s.disk, p)
    ensures Leaves(s, f, p, luck, direct, s)
  {
    hide UnderFile, Stranded, FirstPartial, PartialFor;
  }

  lemma FoldersLeft(s: State, f: Planned, p: Path, luck: Luck, direct: bool, disk: Disk)
    requires p != [] && !UnderFile(s.disk, p)
    requires Stranded(s, f, p, luck, direct) ==> forall k: nat :: k < 10_000 ==> PartialFor(p, k) in s.disk
    requires forall q :: q in s.disk ==> q in disk && disk[q] == s.disk[q]
    requires forall i :: 0 < i < |p| ==> p[..i] in disk
    requires forall q :: q in disk && q !in s.disk ==> q != [] && q < p && disk[q].Dir?
    ensures Leaves(s, f, p, luck, direct, s.(disk := disk))
  {
    hide UnderFile, Stranded, FirstPartial, PartialFor;
  }

  lemma PartialLeft(s: State, f: Planned, p: Path, luck: Luck, direct: bool, disk: Disk, part: Path)
    requires p != [] && !UnderFile(s.disk, p) && Stranded(s, f, p, luck, direct) && FirstPartial(s.disk, p, part)
    requires part !in disk
    requires forall q :: q in s.disk ==> q in disk && disk[q] == s.disk[q]
    requires forall i :: 0 < i < |p| ==> p[..i] in disk
    requires forall q :: q in disk && q !in s.disk ==> q != [] && q < p && disk[q].Dir?
    ensures luck.download.Some?
    ensures Leaves(s, f, p, luck, direct, s.(disk := disk[part := File(luck.download.value)]))
  {
    hide UnderFile, FirstPartial, PartialFor;
  }

  lemma FoldersMade(disk: Disk, p: Path)
    ensures forall i :: 0 < i < |p| ==> p[..i] in WithParents(disk, p)
    ensures forall q :: q in WithParents(disk, p) && q !in disk ==>
              q != [] && q < p && WithParents(disk, p)[q].Dir?
  {
    ParentsAre(disk, p);
  }

  lemma PartialFound(disk: Disk, p: Path)
    requires p != []
    ensures var part := PartialPath(WithParents(disk, p), p, 0);
            && (part.Some? ==> FirstPartial(disk, p, part.value))
            && (part.Some? <==> exists k: nat :: k < 10_000 && PartialFor(p, k) !in disk)
  {
    hide PartialPath, PartialFor, WithParents, FirstPartial;
    forall i: nat
      ensures PartialFor(p, i) in WithParents(disk, p) <==> PartialFor(p, i) in disk
    {
      PartialAmongParents(disk, p, i);
    }
    PartialExact(WithParents(disk, p), p, 0);
    var part := PartialPath(WithParents(disk, p), p, 0);
    if part.Some? {
      PartialFirst(WithParents(disk, p), p, 0);
      FirstPartialSame(disk, p, part.value);
    }
  }

  /** A manifest that could not be saved is as it was; its temporary file has what was written of it. */
  lemma UnsavedLeaves(s: State, cfg: Config, how: Saving)
    requires !Save(s, cfg, how).1
    ensures var (n, text) := (Save(s, cfg, how).0, cfg.text(Record(s.manifest, s.issues)));
            n.disk == if how.Refused? || IsDir(s.disk, TemporaryPath()) then s.disk
                      else s.disk[TemporaryPath() := File(if how.Cut? then how.bytes else text)]
  {
    hide TemporaryPath, ManifestPath;
  }

  // ---- A new revision is fetched ----

  /** The manifest does not record the planned revision. */
  predicate Outdated(m: Manifest, f: Planned) {
    f.uid in m ==> m[f.uid].revision != f.revision
  }

  /** A revision other than the recorded one is never skipped, and once it is exported the manifest, in memory and as
      the next run reads it, records it, and the new bytes are at the recorded path, unless that is one of the
      manifest's own two names. */
  lemma NewRevisionFetched(s: State, f: Planned, luck: Luck, cfg: Config)
    requires Proper(s.manifest) && SafeFolder(f) && Faithful(cfg) && Outdated(s.manifest, f)
    ensures var (n, outcome) := Export(s, f, luck, cfg);
            && !outcome.Skipped?
            && (Stores(outcome) ==>
                  && f.uid in n.manifest && !n.manifest[f.uid].path.absolute
                  && n.manifest[f.uid].revision == f.revision && n.manifest[f.uid].size == f.size
                  && luck.download.Some?
                  && var p := n.manifest[f.uid].path.parts;
                     !Reserved(p) ==> p in n.disk && n.disk[p] == File(luck.download.value))
            && (outcome.Exported? ==> Loaded(n.disk, cfg) == Some(Record(n.manifest, n.issues)))
  {
    SkippedExactly(s, f, luck, cfg);
    StoredExactly(s, f, luck, cfg);
    ExportEffect(s, f, luck, cfg);
    hide Export, Chosen, Intact, Placeable, PartialFor, Reserved, UnderFile, TemporaryPath, ManifestPath, SafeName,
        Usable, Taken;
  }

  /** Files of other nodes leave an entry as it is, whatever happens. */
  lemma {:induction false} EntryStays(s: State, plan: seq<Planned>, lucks: seq<Luck>, cfg: Config, uid: string)
    requires |lucks| == |plan| && Proper(s.manifest) && SafePlan(plan)
    requires forall k :: 0 <= k < |plan| ==> plan[k].uid != uid
    ensures var n := Run(s, plan, lucks, cfg).0;
            (uid in n.manifest <==> uid in s.manifest) && (uid in s.manifest ==> n.manifest[uid] == s.manifest[uid])
    decreases |plan|
  {
    hide Turn, Export;
    if plan != [] {
      OtherEntry(s, plan[0], lucks[0], cfg, uid);
      var (next, ok) := Turn(s, plan[0], lucks[0], cfg);
      if ok {
        EntryStays(next, plan[1..], lucks[1..], cfg, uid);
      }
    }
  }

  lemma OtherEntry(s: State, f: Planned, luck: Luck, cfg: Config, uid: string)
    requires Proper(s.manifest) && SafeFolder(f) && f.uid != uid
    ensures var n := Turn(s, f, luck, cfg).0;
            (uid in n.manifest <==> uid in s.manifest) && (uid in s.manifest ==> n.manifest[uid] == s.manifest[uid])
  {
    hide Turn, Export, Chosen, Intact, Placeable, Reserved, TemporaryPath, ManifestPath;
    ExportEffect(s, f, luck, cfg);
    TurnEffect(s, f, luck, cfg);
  }

  /** The bytes at the recorded path of a node. */
  predicate Holds(s: State, uid: string, bytes: seq<Byte>) {
    && uid in s.manifest && !s.manifest[uid].path.absolute && ".." !in s.manifest[uid].path.parts
    && s.manifest[uid].path.parts in s.disk && s.disk[s.manifest[uid].path.parts] == File(bytes)
    && !Reserved(s.manifest[uid].path.parts)
  }

  lemma OtherTurnHolds(s: State, f: Planned, luck: Luck, cfg: Config, uid: string, bytes: seq<Byte>)
    requires Proper(s.manifest) && SafeFolder(f) && Tidy(s.manifest) && HasRoom(s, f, cfg.direct)
    requires Holds(s, uid, bytes) && uid != f.uid
    ensures Holds(Turn(s, f, luck, cfg).0, uid, bytes)
  {
    hide Export, Turn, Chosen, NewPath, NeedsNew, Exhausted, Placeable, Reserved, ManifestPath, TemporaryPath, Intact;
    var q := s.manifest[uid].path.parts;
    assert Recorded(s.manifest, uid) == Some(q);
    assert RecordedByAnother(s.manifest, f.uid, q);
    ExportEffect(s, f, luck, cfg);
    TurnEffect(s, f, luck, cfg);
    if !Recognised(s, f, cfg.direct) {
      NothingElseReplaced(s, f, luck, cfg, q);
    }
  }

  /** Nor do they touch its bytes, as long as there is room for all names. */
  lemma {:induction false} HoldsOn(s: State, plan: seq<Planned>, lucks: seq<Luck>, cfg: Config, uid: string,
      bytes: seq<Byte>)
    requires |lucks| == |plan| && Proper(s.manifest) && SafePlan(plan) && Tidy(s.manifest)
    requires Roomy(s, plan, lucks, cfg) && Holds(s, uid, bytes)
    requires forall k :: 0 <= k < |plan| ==> plan[k].uid != uid
    ensures Holds(Run(s, plan, lucks, cfg).0, uid, bytes)
    decreases |plan|
  {
    hide Turn, Holds, HasRoom, Tidy;
    if plan != [] {
      TurnKeepsTidy(s, plan[0], lucks[0], cfg);
      OtherTurnHolds(s, plan[0], lucks[0], cfg, uid, bytes);
      var (next, ok) := Turn(s, plan[0], lucks[0], cfg);
      if ok {
        HoldsOn(next, plan[1..], lucks[1..], cfg, uid, bytes);
      }
    }
  }

  /** In a run that reaches a file whose planned revision is not the recorded one, the file is not skipped, and if it is
      exported, the manifest has the new revision when the run is over, and the path it records has the new bytes. */
  lemma {:induction false} NewRevisionKept(s: State, plan: seq<Planned>, lucks: seq<Luck>, cfg: Config, k: nat)
    requires |lucks| == |plan| && k < |plan| && Proper(s.manifest) && SafePlan(plan) && Tidy(s.manifest)
    requires Roomy(s, plan, lucks, cfg) && Faithful(cfg) && Reached(s, plan, lucks, cfg, k)
    requires forall i, j :: 0 <= i < j < |plan| ==> plan[i].uid != plan[j].uid
    requires Outdated(s.manifest, plan[k])
    ensures var (outcome, n) := (Export(StateAt(s, plan, lucks, cfg, k), plan[k], lucks[k], cfg).1,
                                 Run(s, plan, lucks, cfg).0);
            && !outcome.Skipped?
            && (Stores(outcome) ==>
                  && plan[k].uid in n.manifest && !n.manifest[plan[k].uid].path.absolute
                  && n.manifest[plan[k].uid].revision == plan[k].revision
                  && n.manifest[plan[k].uid].size == plan[k].size && lucks[k].download.Some?
                  && (!Reserved(n.manifest[plan[k].uid].path.parts) ==>
                        Holds(n, plan[k].uid, lucks[k].download.value)))
    decreases |plan|
  {
    hide Turn, Export, Tidy, HasRoom, Holds, Reserved, Faithful, Outdated;
    TurnKeepsTidy(s, plan[0], lucks[0], cfg);
    var (next, ok) := Turn(s, plan[0], lucks[0], cfg);
    if k > 0 {
      OtherEntry(s, plan[0], lucks[0], cfg, plan[k].uid);
      StillOutdated(s.manifest, next.manifest, plan[k]);
      NewRevisionKept(next, plan[1..], lucks[1..], cfg, k - 1);
    } else {
      NewRevisionFetched(s, plan[0], lucks[0], cfg);
      TurnHolds(s, plan[0], lucks[0], cfg);
      if ok {
        EntryStays(next, plan[1..], lucks[1..], cfg, plan[0].uid);
        if Stores(Export(s, plan[0], lucks[0], cfg).1) && !Reserved(next.manifest[plan[0].uid].path.parts) {
          HoldsOn(next, plan[1..], lucks[1..], cfg, plan[0].uid, lucks[0].download.value);
        }
      }
    }
  }

  lemma StillOutdated(m: Manifest, n: Manifest, f: Planned)
    requires Outdated(m, f) && (f.uid in n ==> f.uid in m && n[f.uid] == m[f.uid])
    ensures Outdated(n, f)
  {
  }

  /** The file's own turn leaves what its export put there. */
  lemma TurnHolds(s: State, f: Planned, luck: Luck, cfg: Config)
    requires Proper(s.manifest) && SafeFolder(f)
    ensures var (n, (m, outcome)) := (Turn(s, f, luck, cfg).0, Export(s, f, luck, cfg));
            && n.manifest == m.manifest
            && (Stores(outcome) ==>
                  && f.uid in n.manifest && luck.download.Some?
                  && (!Reserved(n.manifest[f.uid].path.parts) ==> Holds(n, f.uid, luck.download.value)))
  {
    hide Turn, Export, Chosen, Intact, Placeable, Reserved, TemporaryPath, ManifestPath;
    ExportEffect(s, f, luck, cfg);
    TurnEffect(s, f, luck, cfg);
    ChosenIsSafe(s, f, cfg.direct);
  }

  /** Two runs: a run that got to its end is followed by one whose plan has another revision of one of its files. The
      second run does not skip that file. */
  lemma NextRunFetches(s: State, plan: seq<Planned>, lucks: seq<Luck>, cfg: Config, k: nat,
      plan2: seq<Planned>, lucks2: seq<Luck>, k2: nat)
    requires |lucks| == |plan| && k < |plan| && Proper(s.manifest) && SafePlan(plan) && Tidy(s.manifest)
    requires Roomy(s, plan, lucks, cfg) && Faithful(cfg) && InStep(s, cfg) && Run(s, plan, lucks, cfg).1
    requires forall i, j :: 0 <= i < j < |plan| ==> plan[i].uid != plan[j].uid
    requires Reached(s, plan, lucks, cfg, k) && Good(StateAt(s, plan, lucks, cfg, k), plan[k], lucks[k], cfg)
    requires |lucks2| == |plan2| && k2 < |plan2| && SafePlan(plan2)
    requires plan2[k2].uid == plan[k].uid && plan2[k2].revision != plan[k].revision
    requires forall i :: 0 <= i < k2 ==> plan2[i].uid != plan2[k2].uid
    ensures var disk := Run(s, plan, lucks, cfg).0.disk;
            && Loaded(disk, cfg).Some? && Proper(Resumed(disk, cfg).manifest)
            && var r := Resumed(disk, cfg);
               Reached(r, plan2, lucks2, cfg, k2) ==>
                 !Export(StateAt(r, plan2, lucks2, cfg, k2), plan2[k2], lucks2[k2], cfg).1.Skipped?
  {
    hide Run, Roomy, Good, StateAt, Reached, Tidy, InStep, Export, Faithful, Loaded, Resumed;
    GoodIsSettled(s, plan, lucks, cfg, k);
    var r := Resumed(Run(s, plan, lucks, cfg).0.disk, cfg);
    SettledIsOutdated(r, plan[k], plan2[k2], cfg.direct);
    hide Settled;
    if Reached(r, plan2, lucks2, cfg, k2) {
      OutdatedAt(r, plan2, lucks2, cfg, k2, plan2[k2]);
      SkippedExactly(StateAt(r, plan2, lucks2, cfg, k2), plan2[k2], lucks2[k2], cfg);
    }
  }

  lemma SettledIsOutdated(s: State, f: Planned, g: Planned, direct: bool)
    requires Settled(s, f, direct) && g.uid == f.uid && g.revision != f.revision
    ensures Outdated(s.manifest, g)
  {
  }

  lemma {:induction false} OutdatedAt(s: State, plan: seq<Planned>, lucks: seq<Luck>, cfg: Config, k: nat, g: Planned)
    requires |lucks| == |plan| && k <= |plan| && Proper(s.manifest) && SafePlan(plan)
    requires Outdated(s.manifest, g) && forall i :: 0 <= i < k ==> plan[i].uid != g.uid
    ensures Outdated(StateAt(s, plan, lucks, cfg, k).manifest, g)
    decreases |plan|
  {
    hide Turn, Outdated;
    if k > 0 {
      OtherEntry(s, plan[0], lucks[0], cfg, g.uid);
      var next := Turn(s, plan[0], lucks[0], cfg).0;
      StillOutdated(s.manifest, next.manifest, g);
      OutdatedAt(next, plan[1..], lucks[1..], cfg, k - 1, g);
    }
  }
}
