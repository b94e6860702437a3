/** The exporter itself, which changes the destination and its manifest step by step. */
module TakeoutExporter {
  import opened Bytes
  import opened StableSort
  import opened Takeout
  import opened TakeoutNames
  import opened TakeoutRuns
  import opened Wrappers

  class Exporter {
    var manifest: Manifest
    var disk: Disk
    var issues: seq<string>
    const cfg: Config

    constructor (s: State, cfg: Config)
      ensures Contents() == s && this.cfg == cfg
    {
      manifest, disk, issues := s.manifest, s.disk, s.issues;
      this.cfg := cfg;
    }

    function Contents(): State
      reads this
    {
      State(manifest, disk, issues)
    }

    /** Reads the manifest of the destination, if there is one; fails when it cannot be read. */
    static method Open(disk: Disk, cfg: Config) returns (exporter: Option<Exporter>)
      ensures exporter.None? <==> Loaded(disk, cfg).None?
      ensures exporter.Some? ==>
                && fresh(exporter.value) && exporter.value.cfg == cfg
                && exporter.value.Contents() == Resumed(disk, cfg) && InStep(exporter.value.Contents(), cfg)
    {
      hide ManifestPath;
      var record := Some(Record(map[], []));
      if ManifestPath() in disk {
        if disk[ManifestPath()].Dir? {
          return None;
        }
        record := cfg.parse(disk[ManifestPath()].bytes);
        if record.None? {
          return None;
        }
      }
      var made := new Exporter(State(record.value.manifest, disk, record.value.issues), cfg);
      return Some(made);
    }

    /** Writes the temporary file and moves it over the manifest. */
    method SaveManifest(how: Saving) returns (ok: bool)
      modifies this`disk
      ensures (Contents(), ok) == Save(old(Contents()), cfg, how)
    {
      var text := cfg.text(Record(manifest, issues));
      if how.Refused? || (TemporaryPath() in disk && disk[TemporaryPath()].Dir?) {
        return false;
      }
      if how.Cut? {
        disk := disk[TemporaryPath() := File(how.bytes)];
        return false;
      }
      ghost var before := disk;
      disk := disk[TemporaryPath() := File(text)];
      NamesDiffer();
      if how.Unmoved? || (ManifestPath() in disk && disk[ManifestPath()].Dir?) {
        return false;
      }
      disk := (disk - {TemporaryPath()})[ManifestPath() := File(text)];
      Renamed(before, File(text));
      return true;
    }

    method ExportFile(f: Planned, luck: Luck) returns (outcome: Outcome)
      requires Proper(manifest)
      modifies this
      ensures (Contents(), outcome) == Export(old(Contents()), f, luck, cfg)
    {
      hide Fetch, Save, UniquePath, UsedPaths, SafeName, SafeManifestPath, IsFileOfSize, ManifestPath, TemporaryPath,
          Proper;
      ghost var was := Contents();
      var recorded := if f.uid in manifest then SafeManifestPath(manifest[f.uid].path) else None;
      var relative;
      if recorded.Some? && (!cfg.direct || f.dir <= recorded.value) {
        relative := recorded.value;
      } else {
        relative := UniqueRelativePath(f.dir, SafeName(f.name), UsedPaths(Contents()));
      }
      assert relative == Looked(was, f, cfg.direct);
      if f.uid in manifest && manifest[f.uid].revision == f.revision && manifest[f.uid].size == f.size
         && IsFileOfSize(disk, relative, f.size) {
        return Skipped;
      }
      if cfg.direct && relative in disk {
        relative := UniqueRelativePath(f.dir, SafeName(f.name), UsedPaths(Contents()));
      }
      assert relative == Chosen(was, f, cfg.direct);
      ChosenNotEmpty(was, f, cfg.direct);
      var stored := FetchTo(f, relative, luck);
      if !stored {
        return Failed;
      }
      var saved := SaveManifest(luck.saving);
      return if saved then Exported else Unsaved;
    }

    method FetchTo(f: Planned, p: Path, luck: Luck) returns (stored: bool)
      requires p != []
      modifies this
      ensures (Contents(), stored) == Fetch(old(Contents()), f, p, luck, cfg.direct)
    {
      hide WithParents, PartialPath;
      if exists i :: 0 < i < |p| && p[..i] in disk && disk[p[..i]].File? {
        return false;
      }
      disk := WithParents(disk, p);
      var target := p;
      if cfg.direct {
        if p in disk {
          return false;
        }
      } else {
        var part := PartialPath(disk, p, 0);
        if part.None? {
          return false;
        }
        target := part.value;
      }
      if !luck.create || luck.download.None? {
        return false;
      }
      if f.size != 0 && |luck.download.value| != f.size {
        return false;
      }
      if !cfg.direct && (!luck.rename || (p in disk && disk[p].Dir?)) {
        disk := disk[target := File(luck.download.value)];
        return false;
      }
      disk := disk[p := File(luck.download.value)];
      manifest := manifest[f.uid := Entry(Stored(false, p), f.revision, f.size)];
      return true;
    }

    method RecordIssue(uid: string, how: Saving) returns (ok: bool)
      modifies this
      ensures (Contents(), ok) == Save(old(Contents()).(issues := old(issues) + [uid]), cfg, how)
    {
      hide Save;
      issues := issues + [uid];
      ok := SaveManifest(how);
    }

    /** Goes through the plan, smallest file first; files of one size keep their listing order. */
    method DownloadAll(plan: seq<Planned>, lucks: seq<Luck>) returns (ok: bool)
      requires |lucks| == |plan| && Proper(manifest) && SafePlan(plan)
      modifies this
      ensures SafePlan(SortedBy(Claimed, plan))
      ensures (Contents(), ok) == Run(old(Contents()), SortedBy(Claimed, plan), lucks, cfg)
    {
      var sorted := SortBy(Claimed, plan);
      SortedIsSafe(plan);
      ok := true;
      for id := 0 to |sorted|
        invariant Proper(manifest)
        invariant Run(old(Contents()), sorted, lucks, cfg) == Run(Contents(), sorted[id..], lucks[id..], cfg)
      {
        hide Export, Save, SafeFolder;
        assert sorted[id..][1..] == sorted[id + 1..] && lucks[id..][1..] == lucks[id + 1..];
        ghost var was := Contents();
        assert Turn(was, sorted[id], lucks[id], cfg) == Turn(was, sorted[id..][0], lucks[id..][0], cfg);
        var outcome := ExportFile(sorted[id], lucks[id]);
        if outcome.Failed? || outcome.Unsaved? {
          if !sorted[id].recordFailure {
            return false;
          }
          ok := RecordIssue(sorted[id].uid, lucks[id].noting);
          if !ok {
            return;
          }
        }
      }
    }
  }

  function Claimed(f: Planned): nat {
    f.size
  }

  lemma Renamed(disk: Disk, text: Node)
    ensures (disk[TemporaryPath() := text] - {TemporaryPath()})[ManifestPath() := text]
         == (disk - {TemporaryPath()})[ManifestPath() := text]
  {
    hide TemporaryPath, ManifestPath;
    assert disk[TemporaryPath() := text] - {TemporaryPath()} == disk - {TemporaryPath()};
  }

  lemma SortedIsSafe(plan: seq<Planned>)
    requires SafePlan(plan)
    ensures SafePlan(SortedBy(Claimed, plan))
  {
    hide SafeFolder;
    SortedAscends(Claimed, plan);
    var sorted := SortedBy(Claimed, plan);
    forall k | 0 <= k < |sorted|
      ensures SafeFolder(sorted[k])
    {
      assert sorted[k] in multiset(sorted);
      var i :| 0 <= i < |plan| && plan[i] == sorted[k];
    }
  }
}
