/** A resumable export: files are downloaded under a destination folder and recorded in a manifest, which is
    saved into the same folder after every change. */
module Takeout {
  import opened Bytes
  import Decimals
  import opened TakeoutNames
  import opened Wrappers

  datatype Node = Dir | File(bytes: seq<Byte>)

  /** What lies under the destination folder, the manifest's own file included. */
  type Disk = map<Path, Node>

  datatype Entry = Entry(path: Stored, revision: string, size: nat)

  type Manifest = map<string, Entry>

  datatype State = State(manifest: Manifest, disk: Disk, issues: seq<string>)

  /** What the manifest file holds. */
  datatype Record = Record(manifest: Manifest, issues: seq<string>)

  /** Whether files are written without partial files, and how the manifest is written as text and read back. */
  datatype Config = Config(direct: bool, text: Record -> seq<Byte>, parse: seq<Byte> -> Option<Record>)

  datatype Planned = Planned(uid: string, name: string, revision: string, size: nat, dir: Path, recordFailure: bool)

  /** How saving the manifest goes: not even begun, broken off while its temporary file is written, or that file
      complete but not moved, or moved over the manifest. */
  datatype Saving = Refused | Cut(bytes: seq<Byte>) | Unmoved | Moved

  /** How the outside behaves during one export: whether the new file can be made, what the download yields
      (nothing when it fails), whether the finished file can be moved into place, and how the manifest is saved
      after a success and after recording a failure. */
  datatype Luck =
    Luck(create: bool, download: Option<seq<Byte>>, rename: bool, saving: Saving, noting: Saving)

  /** `Unsaved`: the file is in place and in the manifest, but the manifest could not be saved. */
  datatype Outcome = Exported | Skipped | Failed | Unsaved

  predicate Stores(outcome: Outcome) {
    outcome.Exported? || outcome.Unsaved?
  }

  function Recorded(m: Manifest, uid: string): Option<Path> {
    if uid in m then SafeManifestPath(m[uid].path) else None
  }

  function RecordedPaths(m: Manifest): (s: set<Path>)
    ensures forall p :: p in s <==> exists u :: u in m && Recorded(m, u) == Some(p)
  {
    set u | u in m && Recorded(m, u).Some? :: Recorded(m, u).value
  }

  function UsedPaths(s: State): set<Path> {
    s.disk.Keys + RecordedPaths(s.manifest)
  }

  function NewPath(s: State, f: Planned): Path {
    UniquePath(f.dir, SafeName(f.name), UsedPaths(s))
  }

  /** The recorded path, if it may be used again; direct output wants it in the planned folder. */
  function OwnPath(s: State, f: Planned, direct: bool): Option<Path> {
    var recorded := Recorded(s.manifest, f.uid);
    if recorded.Some? && (!direct || f.dir <= recorded.value) then recorded else None
  }

  /** Direct output never writes where something exists. */
  predicate NeedsNew(s: State, f: Planned, direct: bool) {
    var own := OwnPath(s, f, direct);
    own.None? || (direct && own.value in s.disk)
  }

  function Chosen(s: State, f: Planned, direct: bool): Path {
    if NeedsNew(s, f, direct) then NewPath(s, f) else OwnPath(s, f, direct).value
  }

  predicate IsFileOfSize(disk: Disk, p: Path, size: nat) {
    p in disk && disk[p].File? && |disk[p].bytes| == size
  }

  /** Where an earlier export is looked for. */
  function Looked(s: State, f: Planned, direct: bool): Path {
    var own := OwnPath(s, f, direct);
    if own.Some? then own.value else NewPath(s, f)
  }

  /** The manifest and the disk show the planned revision already exported. */
  predicate Intact(s: State, f: Planned, direct: bool) {
    && f.uid in s.manifest && s.manifest[f.uid].revision == f.revision && s.manifest[f.uid].size == f.size
    && IsFileOfSize(s.disk, Looked(s, f, direct), f.size)
  }

  predicate ParentBlocked(disk: Disk, p: Path) {
    exists i :: 0 < i < |p| && p[..i] in disk && disk[p[..i]].File?
  }

  /** With all folders above `p` in place. */
  function WithParents(disk: Disk, p: Path): (r: Disk)
    ensures forall q :: q in disk ==> q in r && r[q] == disk[q]
    ensures forall q :: q in r && q !in disk ==> |q| < |p| && r[q].Dir?
  {
    disk + (map i | 0 < i < |p| && p[..i] !in disk :: p[..i] := Dir)
  }

  function PartialName(name: string, k: nat): string {
    "." + name + ".pdcli-partial" + if k == 0 then "" else "." + Decimals.Decimal(k)
  }

  function PartialPath(disk: Disk, p: Path, k: nat): (r: Option<Path>)
    requires |p| > 0 && k <= CANDIDATES
    ensures r.Some? ==> r.value !in disk && |r.value| == |p| && r.value[..|p| - 1] == p[..|p| - 1]
    decreases CANDIDATES - k
  {
    var candidate := p[..|p| - 1] + [PartialName(p[|p| - 1], k)];
    if k == CANDIDATES then None
    else if candidate !in disk then Some(candidate)
    else PartialPath(disk, p, k + 1)
  }

  function Put(s: State, f: Planned, p: Path, bytes: seq<Byte>, disk: Disk): State {
    s.(manifest := s.manifest[f.uid := Entry(Stored(false, p), f.revision, f.size)], disk := disk[p := File(bytes)])
  }

  /** A size of 0 claims nothing, so then any download is accepted. */
  predicate Accepted(f: Planned, luck: Luck) {
    luck.create && luck.download.Some? && (f.size != 0 ==> |luck.download.value| == f.size)
  }

  /** The program's own manifests never record the destination itself. */
  predicate Proper(m: Manifest) {
    forall u :: u in m ==> m[u].path.parts != []
  }

  /** The download of `f` to path `p`, and whether the file got there. */
  function Fetch(s: State, f: Planned, p: Path, luck: Luck, direct: bool): (State, bool)
    requires p != []
  {
    var disk := WithParents(s.disk, p);
    if ParentBlocked(s.disk, p) then (s, false)
    else if direct then
      if p in disk || !Accepted(f, luck) then (s.(disk := disk), false)
      else (Put(s, f, p, luck.download.value, disk), true)
    else
      var part := PartialPath(disk, p, 0);
      if part.None? || !Accepted(f, luck) then (s.(disk := disk), false)
      else if !luck.rename || IsDir(disk, p) then
        (s.(disk := disk[part.value := File(luck.download.value)]), false)
      else (Put(s, f, p, luck.download.value, disk), true)
  }

  predicate IsDir(disk: Disk, p: Path) {
    p in disk && disk[p].Dir?
  }

  /** The manifest is written to its temporary file, which is then moved into place. */
  function Save(s: State, cfg: Config, how: Saving): (State, bool) {
    var text := File(cfg.text(Record(s.manifest, s.issues)));
    if how.Refused? || IsDir(s.disk, TemporaryPath()) then (s, false)
    else if how.Cut? then (s.(disk := s.disk[TemporaryPath() := File(how.bytes)]), false)
    else if how.Unmoved? || IsDir(s.disk, ManifestPath()) then (s.(disk := s.disk[TemporaryPath() := text]), false)
    else (s.(disk := (s.disk - {TemporaryPath()})[ManifestPath() := text]), true)
  }

  function Export(s: State, f: Planned, luck: Luck, cfg: Config): (State, Outcome)
    requires Proper(s.manifest)
  {
    ChosenNotEmpty(s, f, cfg.direct);
    if Intact(s, f, cfg.direct) then (s, Skipped)
    else
      var (n, stored) := Fetch(s, f, Chosen(s, f, cfg.direct), luck, cfg.direct);
      if !stored then (n, Failed)
      else
        var (m, saved) := Save(n, cfg, luck.saving);
        (m, if saved then Exported else Unsaved)
  }

  lemma ChosenNotEmpty(s: State, f: Planned, direct: bool)
    requires Proper(s.manifest)
    ensures Chosen(s, f, direct) != []
  {
    NewPathNotEmpty(f.dir, SafeName(f.name), UsedPaths(s));
  }

  lemma NewPathNotEmpty(dir: Path, name: string, used: set<Path>)
    ensures UniquePath(dir, name, used) != []
  {
    FirstUnusedMeaning(dir, name, used, 0);
  }

  predicate SafePlan(plan: seq<Planned>) {
    forall k :: 0 <= k < |plan| ==> SafeFolder(plan[k])
  }

  /** Planned folders are made of harmless names. */
  predicate SafeFolder(f: Planned) {
    forall c :: c in f.dir ==> Harmless(c)
  }

  /** One turn of `download_all`: some failures are recorded, others end the run, and so does a manifest that
      cannot be saved with the failure. */
  function Turn(s: State, f: Planned, luck: Luck, cfg: Config): (r: (State, bool))
    requires Proper(s.manifest) && SafeFolder(f)
    ensures Proper(r.0.manifest)
  {
    hide Export, Save, ManifestPath, TemporaryPath;
    ExportedProper(s, f, luck, cfg);
    var (n, outcome) := Export(s, f, luck, cfg);
    SaveEffect(n.(issues := n.issues + [f.uid]), cfg, luck.noting);
    if outcome.Exported? || outcome.Skipped? then (n, true)
    else if f.recordFailure then Save(n.(issues := n.issues + [f.uid]), cfg, luck.noting)
    else (n, false)
  }

  function Run(s: State, plan: seq<Planned>, lucks: seq<Luck>, cfg: Config): (State, bool)
    requires |lucks| == |plan| && Proper(s.manifest) && SafePlan(plan)
    decreases |plan|
  {
    if plan == [] then (s, true)
    else
      var (next, ok) := Turn(s, plan[0], lucks[0], cfg);
      if ok then Run(next, plan[1..], lucks[1..], cfg) else (next, false)
  }

  // ---- The chosen path ----

  /** An export never leaves the destination. */
  lemma ChosenIsSafe(s: State, f: Planned, direct: bool)
    requires Proper(s.manifest) && SafeFolder(f)
    ensures var p := Chosen(s, f, direct);
            p != [] && SafeManifestPath(Stored(false, p)) == Some(p) && (direct ==> f.dir <= p)
  {
    hide UniquePath, SafeName, UsedPaths, Harmless;
    UniqueIsSafe(f.dir, SafeName(f.name), UsedPaths(s));
    NewPathNotEmpty(f.dir, SafeName(f.name), UsedPaths(s));
  }

  /** The manifest's own names are chosen exactly for a file that is called so, at the top of the destination while
      nothing is there, or that is recorded there from an earlier run. */
  lemma ChosenReserved(s: State, f: Planned, direct: bool)
    ensures Reserved(Chosen(s, f, direct)) <==>
              if NeedsNew(s, f, direct) then
                f.dir == [] && ReservedName(SafeName(f.name)) && [SafeName(f.name)] !in UsedPaths(s)
              else Reserved(OwnPath(s, f, direct).value)
    ensures NeedsNew(s, f, direct) && Reserved(Chosen(s, f, direct)) ==> Chosen(s, f, direct) == [SafeName(f.name)]
  {
    UniqueReserved(f.dir, SafeName(f.name), UsedPaths(s));
    hide UniquePath, SafeName, Reserved, UsedPaths, ReservedName, OwnPath;
  }

  lemma ExportedProper(s: State, f: Planned, luck: Luck, cfg: Config)
    requires Proper(s.manifest) && SafeFolder(f)
    ensures Proper(Export(s, f, luck, cfg).0.manifest)
  {
    ChosenIsSafe(s, f, cfg.direct);
    ExportEffect(s, f, luck, cfg);
    hide Chosen, Intact, Export, SafeFolder, Placeable, Reserved, ManifestPath, TemporaryPath;
  }

  // ---- What one export keeps ----

  /** No two nodes share a path. */
  ghost predicate Tidy(m: Manifest) {
    forall u, v :: u in m && v in m && u != v && Recorded(m, u).Some? ==> Recorded(m, u) != Recorded(m, v)
  }

  /** All 10,000 candidate names and the unchecked last resort are taken. */
  predicate Exhausted(s: State, f: Planned) {
    && FirstUnused(f.dir, SafeName(f.name), UsedPaths(s), 0).None?
    && Fallback(f.dir, SafeName(f.name)) in UsedPaths(s)
  }

  predicate RecordedByAnother(m: Manifest, uid: string, p: Path) {
    exists v :: v in m && v != uid && Recorded(m, v) == Some(p)
  }

  lemma ChosenIsFree(s: State, f: Planned, direct: bool)
    requires Tidy(s.manifest)
    ensures RecordedByAnother(s.manifest, f.uid, Chosen(s, f, direct)) ==>
              NeedsNew(s, f, direct) && Exhausted(s, f) && Chosen(s, f, direct) == Fallback(f.dir, SafeName(f.name))
    ensures NeedsNew(s, f, direct) && !Exhausted(s, f) ==> Chosen(s, f, direct) !in UsedPaths(s)
  {
    UniqueUnlessExhausted(f.dir, SafeName(f.name), UsedPaths(s));
    hide FirstUnused, SafeName;
  }

  /** Nothing on the disk keeps a file from being placed at `p`. */
  predicate Placeable(disk: Disk, p: Path, direct: bool)
    requires p != []
  {
    && !ParentBlocked(disk, p)
    && if direct then p !in disk else PartialPath(WithParents(disk, p), p, 0).Some? && !IsDir(disk, p)
  }

  lemma ParentsBelow(disk: Disk, p: Path)
    ensures p in WithParents(disk, p) <==> p in disk
    ensures p in disk ==> WithParents(disk, p)[p] == disk[p]
  {
  }

  lemma FetchEffect(s: State, f: Planned, p: Path, luck: Luck, direct: bool)
    requires p != []
    ensures var (n, stored) := Fetch(s, f, p, luck, direct);
            && (stored <==> Placeable(s.disk, p, direct) && Accepted(f, luck) && (direct || luck.rename))
            && n.issues == s.issues
            && (if stored then
                  n.manifest == s.manifest[f.uid := Entry(Stored(false, p), f.revision, f.size)]
                  && luck.download.Some? && p in n.disk && n.disk[p] == File(luck.download.value)
                  && (direct ==> p !in s.disk)
                else n.manifest == s.manifest)
            && (forall q :: q in n.disk && q !in s.disk && (!stored || q != p) ==>
                  n.disk[q].Dir? || (!stored && !direct && Accepted(f, luck)))
            && (forall q :: q in s.disk && (!stored || q != p) ==> q in n.disk && n.disk[q] == s.disk[q])
  {
    ParentsBelow(s.disk, p);
    hide WithParents, ParentBlocked;
  }

  /** Only the manifest and its temporary file change, and a saved manifest is what the record says. */
  lemma SaveEffect(s: State, cfg: Config, how: Saving)
    ensures var (n, saved) := Save(s, cfg, how);
            && n.manifest == s.manifest && n.issues == s.issues
            && (forall q :: !Reserved(q) ==> (q in n.disk <==> q in s.disk) && (q in s.disk ==> n.disk[q] == s.disk[q]))
            && (if saved then
                  ManifestPath() in n.disk && n.disk[ManifestPath()] == File(cfg.text(Record(n.manifest, n.issues)))
                  && TemporaryPath() !in n.disk
                else
                  (ManifestPath() in n.disk <==> ManifestPath() in s.disk)
                  && (ManifestPath() in s.disk ==> n.disk[ManifestPath()] == s.disk[ManifestPath()]))
    ensures how.Moved? && !IsDir(s.disk, TemporaryPath()) && !IsDir(s.disk, ManifestPath()) ==> Save(s, cfg, how).1
  {
    NamesDiffer();
    hide ManifestPath, TemporaryPath;
  }

  lemma NamesReserved()
    ensures Reserved(ManifestPath()) && Reserved(TemporaryPath())
  {
    hide ManifestPath, TemporaryPath;
  }

  /** When a file gets stored, and what an export leaves: the manifest records exactly the stored files; after a success
      its own file holds it; apart from the manifest's two files nothing existing changes but the chosen path, and
      only folders are new, or at most a finished partial file that could not be moved. */
  lemma ExportEffect(s: State, f: Planned, luck: Luck, cfg: Config)
    requires Proper(s.manifest)
    ensures Chosen(s, f, cfg.direct) != []
    ensures var (n, outcome) := Export(s, f, luck, cfg);
            var p := Chosen(s, f, cfg.direct);
            && (outcome.Skipped? <==> Intact(s, f, cfg.direct)) && (outcome.Skipped? ==> n == s)
            && (Stores(outcome) <==>
                  && !Intact(s, f, cfg.direct) && Placeable(s.disk, p, cfg.direct)
                  && Accepted(f, luck) && (cfg.direct || luck.rename))
            && n.issues == s.issues
            && n.manifest == (if Stores(outcome) then
                                s.manifest[f.uid := Entry(Stored(false, p), f.revision, f.size)] else s.manifest)
            && (Stores(outcome) && !Reserved(p) ==> p in n.disk && n.disk[p] == File(luck.download.value))
            && (Stores(outcome) && cfg.direct ==> p !in s.disk)
            && (outcome.Exported? ==>
                  && ManifestPath() in n.disk && n.disk[ManifestPath()] == File(cfg.text(Record(n.manifest, n.issues)))
                  && TemporaryPath() !in n.disk)
            && (forall q :: q in n.disk && q !in s.disk && q != p && !(Stores(outcome) && Reserved(q)) ==>
                  n.disk[q].Dir? || (!cfg.direct && outcome.Failed? && Accepted(f, luck)))
            && (forall q :: q in s.disk && (!Stores(outcome) || (q != p && !Reserved(q))) ==>
                  q in n.disk && n.disk[q] == s.disk[q])
  {
    hide Chosen, Intact, Fetch, Save, Placeable, Reserved, ManifestPath, TemporaryPath, Accepted, IsDir;
    ChosenNotEmpty(s, f, cfg.direct);
    var p := Chosen(s, f, cfg.direct);
    FetchEffect(s, f, p, luck, cfg.direct);
    SaveEffect(Fetch(s, f, p, luck, cfg.direct).0, cfg, luck.saving);
    NamesReserved();
  }

  /** After an export the downloaded bytes are at the chosen path, except exactly at the two names the manifest
      itself uses: the temporary file is moved away, and the manifest's text takes the place of the file. */
  lemma StoredUnlessReserved(s: State, f: Planned, luck: Luck, cfg: Config)
    requires Proper(s.manifest) && Export(s, f, luck, cfg).1.Exported?
    ensures var n := Export(s, f, luck, cfg).0;
            var p := Chosen(s, f, cfg.direct);
            (luck.download.Some? && p in n.disk && n.disk[p] == File(luck.download.value)) <==>
              && p != TemporaryPath()
              && (p == ManifestPath() ==> luck.download == Some(cfg.text(Record(n.manifest, n.issues))))
  {
    ExportEffect(s, f, luck, cfg);
    NamesDiffer();
    hide Chosen, Export, ManifestPath, TemporaryPath, Intact, Placeable;
  }

  /** A file at the top that is called like the manifest, or like its temporary file, is exported into an empty
      destination and reported as exported, but what is there afterwards is the manifest, or nothing. */
  lemma ReservedNameLosesFile(name: string, content: seq<Byte>, cfg: Config)
      returns (s: State, f: Planned, luck: Luck)
    requires ReservedName(name) && !cfg.direct
    ensures s == State(map[], map[], []) && SafeFolder(f) && f.name == name && f.dir == [] && f.size == |content|
    ensures luck.download == Some(content)
    ensures var (n, outcome) := Export(s, f, luck, cfg);
            && outcome.Exported?
            && (content != cfg.text(Record(n.manifest, n.issues)) ==>
                  !([name] in n.disk && n.disk[[name]] == File(content)))
  {
    s := State(map[], map[], []);
    f := Planned("f", name, "r", |content|, [], false);
    luck := Luck(true, Some(content), true, Moved, Moved);
    ReservedIsPlain(name);
    EmptyDestination(s, f, luck, cfg, name);
    StoredUnlessReserved(s, f, luck, cfg);
    ReservedPath([name]);
    hide Export, Chosen, ReservedName, SafeName, ManifestPath, TemporaryPath;
  }

  lemma EmptyDestination(s: State, f: Planned, luck: Luck, cfg: Config, name: string)
    requires s == State(map[], map[], []) && !cfg.direct && f.dir == [] && f.name == name && SafeName(name) == name
    requires Accepted(f, luck) && luck.rename && luck.saving.Moved?
    ensures Chosen(s, f, false) == [name] && Export(s, f, luck, cfg).1.Exported?
  {
    hide UniquePath, SafeName, ManifestPath, TemporaryPath, PartialName, Save, WithParents;
    UsePlain(f.dir, name, UsedPaths(s));
    assert f.dir + [name] == [name];
    NoFolders(map[], [name]);
    SaveEffect(Fetch(s, f, [name], luck, false).0, cfg, luck.saving);
  }

  predicate Fetchable(s: State, f: Planned, direct: bool)
    requires Proper(s.manifest)
  {
    ChosenNotEmpty(s, f, direct);
    !Intact(s, f, direct) && Placeable(s.disk, Chosen(s, f, direct), direct)
  }

  /** The next new path would be the last resort, where another node is recorded. */
  predicate WouldCollide(s: State, f: Planned, direct: bool) {
    && NeedsNew(s, f, direct) && Exhausted(s, f)
    && RecordedByAnother(s.manifest, f.uid, Fallback(f.dir, SafeName(f.name)))
  }

  lemma DistinctUnlessCollision(s: State, f: Planned, luck: Luck, cfg: Config)
    requires Proper(s.manifest) && SafeFolder(f) && Tidy(s.manifest)
    ensures Tidy(Export(s, f, luck, cfg).0.manifest)
            <==> !(Stores(Export(s, f, luck, cfg).1) && WouldCollide(s, f, cfg.direct))
  {
    ChosenIsSafe(s, f, cfg.direct);
    ChosenIsFree(s, f, cfg.direct);
    ExportEffect(s, f, luck, cfg);
    LastResort(s, f, cfg.direct);
    hide Export, Chosen, Tidy, Intact, NeedsNew, Exhausted, Placeable, Reserved, ManifestPath, TemporaryPath, SafeName;
    var p := Chosen(s, f, cfg.direct);
    if Stores(Export(s, f, luck, cfg).1) {
      OneMoreEntry(s.manifest, f.uid, Entry(Stored(false, p), f.revision, f.size), p);
    }
  }

  /** Whatever happens during it, an export keeps the recorded paths pairwise distinct, except exactly when the file is
      not there yet and can be placed, but all names are taken and another node is recorded at the last resort. */
  lemma PathsStayDistinct(s: State, f: Planned, cfg: Config)
    requires Proper(s.manifest) && SafeFolder(f) && Tidy(s.manifest)
    ensures (forall luck :: Tidy(Export(s, f, luck, cfg).0.manifest))
            <==> !(Fetchable(s, f, cfg.direct) && WouldCollide(s, f, cfg.direct))
  {
    hide *;
    forall luck
      ensures !(Fetchable(s, f, cfg.direct) && WouldCollide(s, f, cfg.direct)) ==>
          Tidy(Export(s, f, luck, cfg).0.manifest)
    {
      DistinctUnlessCollision(s, f, luck, cfg);
      StoresWhatCanBePlaced(s, f, luck, cfg);
    }
    var luck := Lucky(f);
    DistinctUnlessCollision(s, f, luck, cfg);
    StoresWhatCanBePlaced(s, f, luck, cfg);
  }

  function Lucky(f: Planned): (luck: Luck)
    ensures Accepted(f, luck) && luck.rename && luck.saving.Moved?
  {
    Luck(true, Some(seq(f.size, i => 0)), true, Moved, Moved)
  }

  lemma StoresWhatCanBePlaced(s: State, f: Planned, luck: Luck, cfg: Config)
    requires Proper(s.manifest)
    ensures Stores(Export(s, f, luck, cfg).1)
            <==> Fetchable(s, f, cfg.direct) && Accepted(f, luck) && (cfg.direct || luck.rename)
  {
    ExportEffect(s, f, luck, cfg);
    hide Export, Chosen, Intact, Placeable, Reserved, ManifestPath, TemporaryPath;
  }

  lemma LastResort(s: State, f: Planned, direct: bool)
    ensures NeedsNew(s, f, direct) && Exhausted(s, f) ==> Chosen(s, f, direct) == Fallback(f.dir, SafeName(f.name))
  {
  }

  lemma OneMoreEntry(m: Manifest, uid: string, e: Entry, p: Path)
    requires Tidy(m) && SafeManifestPath(e.path) == Some(p)
    ensures Tidy(m[uid := e]) <==> !RecordedByAnother(m, uid, p)
  {
    var n := m[uid := e];
    assert Recorded(n, uid) == Some(p);
    assert forall v :: v in m && v != uid ==> Recorded(n, v) == Recorded(m, v);
    if v :| v in m && v != uid && Recorded(m, v) == Some(p) {
      assert v in n && uid in n && v != uid && Recorded(n, v) == Recorded(n, uid);
    }
  }

  /** No export, successful or not, replaces a file recorded for another node, unless the last resort is taken although
      that file is there; direct output replaces nothing at all. The exception are the manifest's own two names: after
      a success a file at one of them has been moved away, or replaced by the manifest's text. */
  lemma NothingElseReplaced(s: State, f: Planned, luck: Luck, cfg: Config, q: Path)
    requires Proper(s.manifest) && Tidy(s.manifest) && q in s.disk
    requires cfg.direct || (RecordedByAnother(s.manifest, f.uid, q)
                            && !(NeedsNew(s, f, cfg.direct) && Exhausted(s, f)
                                && q == Fallback(f.dir, SafeName(f.name))))
    ensures var (n, outcome) := Export(s, f, luck, cfg);
            && (!Reserved(q) || !Stores(outcome) ==> q in n.disk && n.disk[q] == s.disk[q])
            && (outcome.Exported? ==>
                  (q in n.disk && n.disk[q] == s.disk[q] <==>
                     && q != TemporaryPath()
                     && (q == ManifestPath() ==> s.disk[q] == File(cfg.text(Record(n.manifest, n.issues))))))
  {
    ChosenIsFree(s, f, cfg.direct);
    ExportEffect(s, f, luck, cfg);
    NamesDiffer();
    hide Export, Chosen, Intact, Exhausted, NeedsNew, RecordedByAnother, Tidy, Placeable, ManifestPath, TemporaryPath;
  }

  /** Right after an export the file counts as exported if and only if its claimed size is the length of what is
      there: for an ordinary path its real length, so a file that claims no size is downloaded again on every run.
      At the manifest's own names that is the length of the manifest's text, or never. */
  lemma ExportThenSkip(s: State, f: Planned, luck: Luck, cfg: Config)
    requires Proper(s.manifest) && SafeFolder(f) && Export(s, f, luck, cfg).1.Exported?
    ensures luck.download.Some?
    ensures var n := Export(s, f, luck, cfg).0;
            var p := Chosen(s, f, cfg.direct);
            Intact(n, f, cfg.direct) <==>
              && p != TemporaryPath()
              && f.size == if p == ManifestPath() then |cfg.text(Record(n.manifest, n.issues))|
                           else |luck.download.value|
    ensures OwnPath(Export(s, f, luck, cfg).0, f, cfg.direct) == Some(Chosen(s, f, cfg.direct))
  {
    hide Chosen, Export, NewPath, Placeable, ManifestPath, TemporaryPath, NeedsNew, UniquePath, UsedPaths;
    ChosenIsSafe(s, f, cfg.direct);
    ExportEffect(s, f, luck, cfg);
    NamesDiffer();
  }

  /** For any plain name: ten thousand files of that name, and one more that was exported under the last resort
      and has since been deleted by the user. The next file of the name takes the path recorded for the deleted one. */
  lemma LastResortCollides(name: string, cfg: Config) returns (s: State, f: Planned, luck: Luck)
    requires Harmless(name) && SafeName(name) == name && name[0] != '.' && !cfg.direct
    ensures Proper(s.manifest) && SafeFolder(f) && Tidy(s.manifest)
    ensures Export(s, f, luck, cfg).1.Exported? && !Tidy(Export(s, f, luck, cfg).0.manifest)
  {
    hide Fallback, Alternatives, SafeName, Export, Fetchable, WouldCollide, PartialPath, FirstUnused, SafeManifestPath;
    f := Planned("f", name, "r", 0, [], false);
    s := CrowdedDestination(name);
    luck := Lucky(f);
    CrowdedCollides(s, f, name);
    CrowdedFetchable(s, f, name);
    ExportedAtTop(s, f, luck, cfg);
    DistinctUnlessCollision(s, f, luck, cfg);
  }

  lemma ExportedAtTop(s: State, f: Planned, luck: Luck, cfg: Config)
    requires Proper(s.manifest) && Fetchable(s, f, false) && |Chosen(s, f, false)| == 1 && !cfg.direct
    requires Accepted(f, luck) && luck.rename && luck.saving.Moved? && forall p :: p in s.disk ==> s.disk[p].File?
    ensures Export(s, f, luck, cfg).1.Exported?
  {
    hide Chosen, Intact, Save, PartialPath, WithParents, ManifestPath, TemporaryPath, Accepted;
    var p := Chosen(s, f, false);
    NoFolders(s.disk, p);
    SaveEffect(Fetch(s, f, p, luck, false).0, cfg, luck.saving);
  }

  lemma NoFolders(disk: Disk, p: Path)
    requires |p| == 1
    ensures WithParents(disk, p) == disk
  {
  }

  /** The destination of the counterexample. */
  lemma CrowdedDestination(name: string) returns (s: State)
    ensures s.disk.Keys == Alternatives(name) && forall p :: p in s.disk ==> s.disk[p].File?
    ensures s.manifest == map["x" := Entry(Stored(false, Fallback([], name)), "r", 0)]
    ensures Proper(s.manifest) && Tidy(s.manifest) && Recorded(s.manifest, "x") == Some(Fallback([], name))
  {
    hide Alternatives;
    s := State(map["x" := Entry(Stored(false, Fallback([], name)), "r", 0)],
               map p | p in Alternatives(name) :: File([]), []);
    LastIsSafe(name);
    assert "x" in s.manifest;
  }

  lemma CrowdedCollides(s: State, f: Planned, name: string)
    requires s.disk.Keys == Alternatives(name) && SafeName(name) == name && f.name == name && f.dir == []
        && f.uid == "f"
    requires "x" in s.manifest && "f" !in s.manifest && Recorded(s.manifest, "x") == Some(Fallback([], name))
    ensures WouldCollide(s, f, false)
  {
    AlternativesListed(name);
    DifferentUids();
    FirstUnusedMeaning([], name, UsedPaths(s), 0);
    hide Candidate, Fallback, SafeName, FirstUnused, Alternatives, SafeManifestPath;
    assert RecordedByAnother(s.manifest, "f", Fallback([], name));
  }

  lemma CrowdedFetchable(s: State, f: Planned, name: string)
    requires s.disk.Keys == Alternatives(name) && SafeName(name) == name && f.name == name && f.dir == []
        && f.uid == "f"
    requires "f" !in s.manifest && Proper(s.manifest) && WouldCollide(s, f, false)
    requires (forall p :: p in s.disk ==> s.disk[p].File?) && name != "" && name[0] != '.'
    ensures Fetchable(s, f, false) && |Chosen(s, f, false)| == 1
  {
    LastResort(s, f, false);
    LastIsSafe(name);
    NameFree(name, s.disk);
    PlaceableAtTop(s.disk, Fallback([], name));
    hide Candidate, Fallback, SafeName, FirstUnused, Alternatives, Chosen, Exhausted, PartialPath, Placeable;
  }

  lemma PlaceableAtTop(disk: Disk, p: Path)
    requires |p| == 1 && (forall q :: q in disk ==> disk[q].File?) && PartialPath(disk, p, 0).Some?
    ensures Placeable(disk, p, false)
  {
    NoFolders(disk, p);
    assert !ParentBlocked(disk, p);
  }

  function Alternatives(name: string): set<Path> {
    set k | 0 <= k < CANDIDATES :: Candidate([], name, k)
  }

  lemma AlternativesListed(name: string)
    ensures forall i: nat :: i < CANDIDATES ==> Candidate([], name, i) in Alternatives(name)
  {
  }

  lemma DifferentUids()
    ensures "x" != "f"
  {
    assert "x"[0] != "f"[0];
  }

  lemma LastIsSafe(name: string)
    ensures SafeManifestPath(Stored(false, Fallback([], name))) == Some(Fallback([], name)) && |Fallback([], name)| == 1
  {
    assert |name + " (collision)"| > |".."|;
  }

  lemma NameFree(name: string, disk: Disk)
    requires name != "" && name[0] != '.' && disk.Keys == Alternatives(name)
    ensures PartialPath(disk, Fallback([], name), 0).Some?
  {
    var part := Fallback([], name)[..0] + [PartialName(Fallback([], name)[0], 0)];
    forall k: nat | k < CANDIDATES
      ensures Candidate([], name, k) != part
    {
      assert Candidate([], name, k)[0] == CandidateName(name, k);
      assert part[0][0] == '.';
      FirstLetter(name, k);
    }
  }

  lemma FirstLetter(name: string, k: nat)
    requires name != ""
    ensures CandidateName(name, k) != "" && (name[0] != '.' ==> CandidateName(name, k)[0] == name[0])
  {
  }
}
