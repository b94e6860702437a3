/** The retrying upload journal: a table of entries, the flush loop that attempts them in batches,
    and the sweep that enqueues dirty files. */
module Journal {
  import opened Wrappers

  datatype Event = CreateFile | UpdateRevision | Other(name: string)

  datatype Status = Pending | Done | Failed

  datatype Entry = Entry(createdAt: int, event: Event, ino: nat, status: Status, retries: nat)

  type Rows = map<nat, Entry>

  const MAX_RETRIES: nat := 10
  const BATCH: nat := 20
  const UPLOAD_CONCURRENCY: nat := 4

  predicate IsUpload(e: Entry) {
    e.event.CreateFile? || e.event.UpdateRevision?
  }

  ghost predicate PendingFor(rows: Rows, ino: nat) {
    exists id :: id in rows && rows[id].status.Pending? && rows[id].ino == ino
  }

  /** The outcome of one attempt; some error messages are permanent failures. */
  datatype Outcome = Succeeded | Error(permanent: bool)

  /** The status an attempt leaves an entry in. */
  function After(e: Entry, outcome: Outcome): Entry {
    var status :=
      match outcome
      case Succeeded => Done
      case Error(permanent) => if permanent || e.retries >= MAX_RETRIES then Failed else Pending;
    e.(status := status, retries := e.retries + 1)
  }

  /** The entry after `n` attempts in a row that failed for the moment, as long as it was pending. */
  function AfterErrors(e: Entry, n: nat): Entry {
    if n == 0 then e
    else
      var before := AfterErrors(e, n - 1);
      if before.status.Pending? then After(before, Error(false)) else before
  }

  /** An entry that only meets passing errors is given up with exactly its eleventh attempt; a permanent error ends
      it at once, and a success whenever it comes. */
  lemma {:induction false} GivenUpAfterEleven(e: Entry, n: nat)
    requires e.status.Pending? && e.retries == 0
    ensures var after := AfterErrors(e, n);
            && (after.status.Pending? <==> n < 11) && (after.status.Failed? <==> n >= 11)
            && after.retries == (if n < 11 then n else 11)
            && (after.status.Pending? ==>
                After(after, Error(true)).status.Failed? && After(after, Succeeded).status.Done?)
  {
    if n > 0 {
      GivenUpAfterEleven(e, n - 1);
    }
  }

  function Purged(rows: Rows): Rows {
    map id | id in rows && !rows[id].status.Done? :: rows[id]
  }

  function Retried(rows: Rows, ids: set<nat>): Rows {
    map id | id in rows ::
      if id in ids && rows[id].status.Failed? then rows[id].(status := Pending, retries := 0) else rows[id]
  }

  // ---- Choosing a batch ----

  /** Pending, and no pending entry has been attempted less often. */
  predicate Candidate(rows: Rows, id: nat) {
    && id in rows && rows[id].status.Pending?
    && forall other :: other in rows && rows[other].status.Pending? ==> rows[id].retries <= rows[other].retries
  }

  /** A result the query may give: the oldest candidates, oldest first, up to the limit. */
  ghost predicate IsBatch(rows: Rows, limit: nat, batch: seq<nat>) {
    && |batch| <= limit
    && (forall i, j :: 0 <= i < j < |batch| ==> batch[i] != batch[j])
    && (forall i :: 0 <= i < |batch| ==> Candidate(rows, batch[i]))
    && (forall i, j :: 0 <= i < j < |batch| ==> rows[batch[i]].createdAt <= rows[batch[j]].createdAt)
    && (forall i, id :: 0 <= i < |batch| && Candidate(rows, id) && id !in batch ==>
          rows[batch[i]].createdAt <= rows[id].createdAt)
    && (|batch| < limit ==> forall id :: Candidate(rows, id) ==> id in batch)
  }

  lemma Oldest(rows: Rows, left: set<nat>) returns (oldest: nat)
    requires left != {} && left <= rows.Keys
    ensures oldest in left && forall id :: id in left ==> rows[oldest].createdAt <= rows[id].createdAt
    decreases |left|
  {
    var some :| some in left;
    var others := left - {some};
    if others == {} {
      assert left == {some};
      oldest := some;
    } else {
      var best := Oldest(rows, others);
      oldest := if rows[some].createdAt <= rows[best].createdAt then some else best;
      forall id | id in left
        ensures rows[oldest].createdAt <= rows[id].createdAt
      {
        assert id == some || id in others;
      }
    }
  }

  /** Every table has a batch, and it is empty only when nothing is pending. */
  lemma BatchExists(rows: Rows, limit: nat) returns (batch: seq<nat>)
    ensures IsBatch(rows, limit, batch)
    ensures limit > 0 && batch == [] ==> forall id :: id in rows ==> !rows[id].status.Pending?
  {
    var left := set id | id in rows && Candidate(rows, id);
    batch := [];
    while |batch| < limit && left != {}
      invariant |batch| <= limit
      invariant forall id :: id in left <==> Candidate(rows, id) && id !in batch
      invariant left <= rows.Keys
      invariant forall i, j :: 0 <= i < j < |batch| ==> batch[i] != batch[j]
      invariant forall i :: 0 <= i < |batch| ==> Candidate(rows, batch[i])
      invariant forall i, j :: 0 <= i < j < |batch| ==> rows[batch[i]].createdAt <= rows[batch[j]].createdAt
      invariant forall i, id :: 0 <= i < |batch| && id in left ==> rows[batch[i]].createdAt <= rows[id].createdAt
      decreases left
    {
      var oldest := Oldest(rows, left);
      batch := batch + [oldest];
      left := left - {oldest};
    }
    PendingHasCandidate(rows);
  }

  lemma PendingHasCandidate(rows: Rows)
    ensures (forall id :: !Candidate(rows, id)) ==> forall id :: id in rows ==> !rows[id].status.Pending?
  {
    if id :| id in rows && rows[id].status.Pending? {
      var _ := LeastTried(rows, id);
    }
  }

  lemma LeastTried(rows: Rows, id: nat) returns (least: nat)
    requires id in rows && rows[id].status.Pending?
    ensures Candidate(rows, least)
    decreases rows[id].retries
  {
    if Candidate(rows, id) {
      least := id;
    } else {
      var other :| other in rows && rows[other].status.Pending? && rows[other].retries < rows[id].retries;
      least := LeastTried(rows, other);
    }
  }

  // ---- The table ----

  /** A dirty file: whether it exists remotely, and whether its revision is known. */
  datatype File = File(ino: nat, hasNode: bool, hasRevision: bool)

  /** What an upload of the file would be; a remote file without a known revision has to wait. */
  function Upload(f: File): Option<Event> {
    if f.hasNode && f.hasRevision then Some(UpdateRevision)
    else if f.hasNode then None
    else Some(CreateFile)
  }

  datatype Table = Table(rows: Rows, nextId: nat)

  /** Row ids are handed out in increasing order and never reused. */
  ghost predicate Consistent(t: Table) {
    t.nextId > 0 && forall id :: id in t.rows ==> 0 < id < t.nextId
  }

  function Enqueued(t: Table, createdAt: int, event: Event, ino: nat): Table {
    Table(t.rows[t.nextId := Entry(createdAt, event, ino, Pending, 0)], t.nextId + 1)
  }

  ghost function DirtyEnqueued(t: Table, createdAt: int, f: File): Table {
    if PendingFor(t.rows, f.ino) || Upload(f).None? then t else Enqueued(t, createdAt, Upload(f).value, f.ino)
  }

  ghost function Swept(t: Table, clock: seq<int>, files: seq<File>): Table
    requires |clock| == |files|
  {
    if files == [] then t
    else
      var n := |files| - 1;
      DirtyEnqueued(Swept(t, clock[..n], files[..n]), clock[n], files[n])
  }

  class JournalDb {
    var rows: Rows
    var nextId: nat

    ghost function Contents(): Table
      reads this
    {
      Table(rows, nextId)
    }

    ghost predicate Valid()
      reads this
    {
      Consistent(Contents())
    }

    constructor ()
      ensures Valid() && rows == map[]
    {
      rows, nextId := map[], 1;
    }

    method Enqueue(createdAt: int, event: Event, ino: nat) returns (id: nat)
      requires Valid()
      modifies this
      ensures Valid() && id == old(nextId)
      ensures Contents() == Enqueued(old(Contents()), createdAt, event, ino)
    {
      id := nextId;
      rows := rows[id := Entry(createdAt, event, ino, Pending, 0)];
      nextId := nextId + 1;
    }

    method HasPending(ino: nat) returns (found: bool)
      ensures found <==> PendingFor(rows, ino)
    {
      found := exists id :: id in rows && rows[id].status.Pending? && rows[id].ino == ino;
    }

    method EnqueueDirtyUpload(createdAt: int, f: File)
      requires Valid()
      modifies this
      ensures Valid()
      ensures Contents() == DirtyEnqueued(old(Contents()), createdAt, f)
    {
      var pending := HasPending(f.ino);
      if pending {
        return;
      }
      var event;
      if f.hasNode && f.hasRevision {
        event := UpdateRevision;
      } else if f.hasNode {
        return;
      } else {
        event := CreateFile;
      }
      var _ := Enqueue(createdAt, event, f.ino);
    }

    method SweepDirty(clock: seq<int>, files: seq<File>)
      requires Valid() && |clock| == |files|
      modifies this
      ensures Valid()
      ensures Contents() == Swept(old(Contents()), clock, files)
    {
      for n := 0 to |files|
        invariant Valid()
        invariant Contents() == Swept(old(Contents()), clock[..n], files[..n])
      {
        assert clock[..n + 1][..n] == clock[..n] && files[..n + 1][..n] == files[..n];
        EnqueueDirtyUpload(clock[n], files[n]);
      }
      assert clock[..|files|] == clock && files[..|files|] == files;
    }

    method RecordResult(id: nat, outcome: Outcome)
      requires Valid() && id in rows
      modifies this
      ensures Valid() && nextId == old(nextId)
      ensures rows == old(rows)[id := After(old(rows)[id], outcome)]
    {
      var entry := rows[id];
      var status;
      match outcome {
        case Succeeded => status := Done;
        case Error(permanent) =>
          var exceeded := entry.retries >= MAX_RETRIES;
          if permanent || exceeded {
            status := Failed;
          } else {
            status := Pending;
          }
      }
      rows := rows[id := entry.(status := status, retries := entry.retries + 1)];
    }

    method DeleteCompleted()
      requires Valid()
      modifies this
      ensures Valid() && nextId == old(nextId) && rows == Purged(old(rows))
    {
      rows := map id | id in rows && !rows[id].status.Done? :: rows[id];
    }

    /** Makes failed entries pending again; an error when nothing matched. */
    method RetryFailed(id: Option<int>, all: bool) returns (changed: Option<nat>)
      requires Valid()
      modifies this
      ensures Valid() && nextId == old(nextId)
      ensures exists ids: set<nat> :: rows == Retried(old(rows), ids)
                && (forall k :: k in ids <==> k in old(rows) && old(rows)[k].status.Failed? && (all || id == Some(k)))
                && (changed.Some? <==> ids != {}) && (changed.Some? ==> changed.value == |ids|)
    {
      var ids: set<nat> := set k | k in rows && rows[k].status.Failed? && (all || id == Some(k));
      changed := None;
      if (!all && id.None?) || (!all && id.value <= 0) {
        assert ids == {} && rows == Retried(rows, ids);
        return;
      }
      rows := map k | k in rows :: if k in ids then rows[k].(status := Pending, retries := 0) else rows[k];
      if |ids| > 0 {
        changed := Some(|ids|);
      }
    }
  }

  // ---- The dirty sweep ----

  /** Every file that is not remote, or remote with a known revision, has a pending entry. */
  ghost predicate Covered(rows: Rows, files: seq<File>) {
    forall k :: 0 <= k < |files| && (!files[k].hasNode || files[k].hasRevision) ==>
      exists id :: id in rows && rows[id].status.Pending? && rows[id].ino == files[k].ino
  }

  /** The upload of that file: it is created if it is not remote, and gets a new revision if it is remote with a known
      one. A remote file without a known revision calls for nothing. */
  predicate CallsFor(f: File, event: Event) {
    (event.CreateFile? && !f.hasNode) || (event.UpdateRevision? && f.hasNode && f.hasRevision)
  }

  /** An entry for a file that had none pending, with the upload its remote state calls for. */
  ghost predicate NewUpload(before: Rows, e: Entry, files: seq<File>) {
    && e.status.Pending? && e.retries == 0
    && (forall id :: id in before && before[id].status.Pending? ==> before[id].ino != e.ino)
    && exists k :: 0 <= k < |files| && files[k].ino == e.ino && CallsFor(files[k], e.event)
  }

  ghost predicate Extends(before: Rows, after: Rows, files: seq<File>) {
    && (forall id :: id in before ==> id in after && after[id] == before[id])
    && (forall id :: id in after && id !in before ==> NewUpload(before, after[id], files))
    && (forall a, b :: a in after && b in after && a !in before && b !in before && after[a].ino == after[b].ino ==>
        a == b)
  }

  /** After a sweep every dirty file, except a remote one with no known revision, has a pending entry; what was there is
      unchanged, and a file gets at most one new entry, only if it had none: a creation exactly for a file that is not
      remote, a new revision exactly for a remote one whose revision is known. */
  lemma {:induction false} SweepCovers(t: Table, clock: seq<int>, files: seq<File>)
    requires Consistent(t) && |clock| == |files|
    ensures var s := Swept(t, clock, files);
            Consistent(s) && s.nextId >= t.nextId && Covered(s.rows, files) && Extends(t.rows, s.rows, files)
  {
    if files != [] {
      var n := |files| - 1;
      SweepCovers(t, clock[..n], files[..n]);
      OneFileCovered(t, Swept(t, clock[..n], files[..n]), clock[n], files);
    }
  }

  lemma OneFileCovered(t: Table, s: Table, createdAt: int, files: seq<File>)
    requires Consistent(t) && Consistent(s) && s.nextId >= t.nextId && files != []
    requires Covered(s.rows, files[..|files| - 1]) && Extends(t.rows, s.rows, files[..|files| - 1])
    ensures var r := DirtyEnqueued(s, createdAt, files[|files| - 1]);
            Consistent(r) && r.nextId >= s.nextId && Covered(r.rows, files) && Extends(t.rows, r.rows, files)
  {
    hide Covered, Extends;
    MoreFiles(t.rows, s.rows, files);
    var f := files[|files| - 1];
    DirtyFile(s, createdAt, f);
    if DirtyEnqueued(s, createdAt, f) == s {
      NothingAdded(s.rows, files);
    } else {
      OneAdded(t, s, Entry(createdAt, if f.hasNode then UpdateRevision else CreateFile, f.ino, Pending, 0), files);
    }
  }

  /** Looking at one more file changes nothing about the earlier ones. */
  lemma MoreFiles(before: Rows, after: Rows, files: seq<File>)
    requires files != [] && Extends(before, after, files[..|files| - 1])
    ensures Extends(before, after, files)
  {
    forall id | id in after && id !in before
      ensures NewUpload(before, after[id], files)
    {
      var front := files[..|files| - 1];
      var k :| 0 <= k < |front| && front[k].ino == after[id].ino && CallsFor(front[k], after[id].event);
      assert files[k] == front[k];
    }
  }

  lemma NothingAdded(rows: Rows, files: seq<File>)
    requires files != [] && Covered(rows, files[..|files| - 1])
    requires var f := files[|files| - 1];
             || (f.hasNode && !f.hasRevision)
             || exists id :: id in rows && rows[id].status.Pending? && rows[id].ino == f.ino
    ensures Covered(rows, files)
  {
    assert forall k :: 0 <= k < |files| - 1 ==> files[k] == files[..|files| - 1][k];
  }

  lemma OneAdded(t: Table, s: Table, e: Entry, files: seq<File>)
    requires Consistent(t) && Consistent(s) && s.nextId >= t.nextId && files != []
    requires Covered(s.rows, files[..|files| - 1]) && Extends(t.rows, s.rows, files)
    requires var f := files[|files| - 1];
             && e.status.Pending? && e.retries == 0 && e.ino == f.ino && CallsFor(f, e.event)
             && !PendingFor(s.rows, f.ino)
    ensures var after := s.rows[s.nextId := e]; Covered(after, files) && Extends(t.rows, after, files)
  {
    var after := s.rows[s.nextId := e];
    forall k | 0 <= k < |files| && (!files[k].hasNode || files[k].hasRevision)
      ensures PendingFor(after, files[k].ino)
    {
      if k == |files| - 1 {
        assert after[s.nextId].status.Pending?;
      } else {
        assert files[k] == files[..|files| - 1][k];
        var id :| id in s.rows && s.rows[id].status.Pending? && s.rows[id].ino == files[k].ino;
        assert after[id] == s.rows[id];
      }
    }
    assert forall id :: id in t.rows && t.rows[id].status.Pending? ==> s.rows[id] == t.rows[id];
    assert NewUpload(t.rows, e, files);
    forall id | id in s.rows && id !in t.rows
      ensures s.rows[id].ino != e.ino
    {
      assert NewUpload(t.rows, s.rows[id], files);
    }
  }

  /** A remote file without a known revision adds nothing, and one that has its upload pending neither. Any other
      adds one entry. */
  lemma DirtyFile(t: Table, createdAt: int, f: File)
    ensures Consistent(t) ==> Consistent(DirtyEnqueued(t, createdAt, f))
    ensures var r := DirtyEnqueued(t, createdAt, f);
            && (r == t <==> (f.hasNode && !f.hasRevision)
                            || exists id :: id in t.rows && t.rows[id].status.Pending? && t.rows[id].ino == f.ino)
            && (r != t ==>
                  && r.nextId == t.nextId + 1
                  && r.rows == t.rows[t.nextId := Entry(createdAt, if f.hasNode then UpdateRevision else CreateFile,
                                                        f.ino, Pending, 0)])
  {
  }

  // ---- Runs ----

  /** What has been recorded: attempts with their outcomes, and which failed entries a manual retry revived. */
  datatype Record = Attempt(id: nat, outcome: Outcome) | Revived(ids: set<nat>)

  datatype System = System(table: Table, inFlight: set<nat>, log: seq<Record>)

  datatype Step =
    | Arrive(createdAt: int, event: Event, ino: nat)
    | Dirty(createdAt: int, file: File)
    | Load(batch: seq<nat>)
    | Finish(id: nat, outcome: Outcome)
    | DropDone
    | ManualRetry(ids: set<nat>)

  function Failures(rows: Rows, ids: set<nat>): set<nat> {
    set id | id in ids && id in rows && rows[id].status.Failed?
  }

  function Members(batch: seq<nat>): set<nat> {
    set id | id in batch
  }

  /** The flush loop loads a batch when the last is finished; results are recorded in any order; other
      threads enqueue at any time, uploads only through the check for a pending entry. */
  ghost function Next(s: System, step: Step): Option<System> {
    match step
    case Arrive(createdAt, event, ino) =>
      if event.Other? then Some(s.(table := Enqueued(s.table, createdAt, event, ino))) else None
    case Dirty(createdAt, file) => Some(s.(table := DirtyEnqueued(s.table, createdAt, file)))
    case Load(batch) =>
      if s.inFlight == {} && IsBatch(s.table.rows, BATCH, batch) then Some(s.(inFlight := Members(batch))) else None
    case Finish(id, outcome) =>
      if id in s.inFlight && id in s.table.rows then
        Some(System(s.table.(rows := s.table.rows[id := After(s.table.rows[id], outcome)]),
                    s.inFlight - {id}, s.log + [Attempt(id, outcome)]))
      else None
    case DropDone => if s.inFlight == {} then Some(s.(table := s.table.(rows := Purged(s.table.rows)))) else None
    case ManualRetry(ids) =>
      Some(s.(table := s.table.(rows := Retried(s.table.rows, ids)),
          log := s.log + [Revived(Failures(s.table.rows, ids))]))
  }

  ghost function RunFrom(s: System, steps: seq<Step>): Option<System> {
    if steps == [] then Some(s)
    else
      var before := RunFrom(s, steps[..|steps| - 1]);
      if before.None? then None else Next(before.value, steps[|steps| - 1])
  }

  const EMPTY := System(Table(map[], 1), {}, [])

  ghost predicate SucceededIn(log: seq<Record>, id: nat) {
    exists k :: 0 <= k < |log| && log[k] == Attempt(id, Succeeded)
  }

  /** Attempts on the entry since it was enqueued or last revived. */
  function Attempts(log: seq<Record>, id: nat): nat {
    if log == [] then 0
    else
      var earlier := Attempts(log[..|log| - 1], id);
      match log[|log| - 1]
      case Attempt(other, _) => if other == id then earlier + 1 else earlier
      case Revived(ids) => if id in ids then 0 else earlier
  }

  predicate NoAttemptAfterSuccess(log: seq<Record>) {
    forall i, j :: 0 <= i < j < |log| && log[i].Attempt? && log[i].outcome.Succeeded? && log[j].Attempt? ==>
        log[i].id != log[j].id
  }

  ghost predicate Accounted(rows: Rows, log: seq<Record>, id: nat) {
    && (id in rows ==>
          && rows[id].retries == Attempts(log, id)
          && rows[id].retries <= MAX_RETRIES + 1
          && (rows[id].status.Pending? ==> rows[id].retries <= MAX_RETRIES)
          && (rows[id].status.Done? <==> SucceededIn(log, id)))
    && (id !in rows ==> SucceededIn(log, id))
  }

  ghost predicate Invariant(s: System) {
    && Consistent(s.table)
    && (forall id :: id in s.inFlight ==> id in s.table.rows && s.table.rows[id].status.Pending?)
    && (forall id: nat :: 0 < id < s.table.nextId ==> Accounted(s.table.rows, s.log, id))
    && (forall id: nat :: id >= s.table.nextId ==> Attempts(s.log, id) == 0 && !SucceededIn(s.log, id))
    && NoAttemptAfterSuccess(s.log)
  }

  lemma LogGrows(log: seq<Record>, r: Record, id: nat)
    ensures SucceededIn(log + [r], id) <==> SucceededIn(log, id) || r == Attempt(id, Succeeded)
    ensures Attempts(log + [r], id) ==
            if r.Attempt? then Attempts(log, id) + (if r.id == id then 1 else 0)
            else if id in r.ids then 0 else Attempts(log, id)
  {
    var longer := log + [r];
    assert longer[..|log|] == log && longer[|log|] == r;
    if SucceededIn(log, id) {
      var k :| 0 <= k < |log| && log[k] == Attempt(id, Succeeded);
      assert longer[k] == log[k];
    }
  }

  lemma AccountedKept(s: System, step: Step, id: nat)
    requires Invariant(s) && Next(s, step).Some? && 0 < id < Next(s, step).value.table.nextId
    ensures Accounted(Next(s, step).value.table.rows, Next(s, step).value.log, id)
  {
    hide Attempts, SucceededIn, IsBatch, NoAttemptAfterSuccess;
    if step.Finish? {
      LogGrows(s.log, Attempt(step.id, step.outcome), id);
    } else if step.ManualRetry? {
      LogGrows(s.log, Revived(Failures(s.table.rows, step.ids)), id);
    }
    assert id < s.table.nextId ==> Accounted(s.table.rows, s.log, id);
  }

  lemma LogKept(s: System, step: Step)
    requires Invariant(s) && Next(s, step).Some?
    ensures NoAttemptAfterSuccess(Next(s, step).value.log)
    ensures var n := Next(s, step).value;
            forall id: nat :: id >= n.table.nextId ==> Attempts(n.log, id) == 0 && !SucceededIn(n.log, id)
  {
    var n := Next(s, step).value;
    if step.Finish? {
      assert Accounted(s.table.rows, s.log, step.id);
      forall i | 0 <= i < |s.log|
        ensures s.log[i] != Attempt(step.id, Succeeded)
      {
      }
    }
    if step.Finish? || step.ManualRetry? {
      var r := n.log[|s.log|];
      forall id: nat | id >= n.table.nextId
        ensures Attempts(n.log, id) == 0 && !SucceededIn(n.log, id)
      {
        LogGrows(s.log, r, id);
      }
    }
  }

  lemma InvariantKept(s: System, step: Step)
    requires Invariant(s) && Next(s, step).Some?
    ensures Invariant(Next(s, step).value)
  {
    hide Accounted, Attempts, SucceededIn, NoAttemptAfterSuccess;
    LogKept(s, step);
    forall id: nat | 0 < id < Next(s, step).value.table.nextId
      ensures Accounted(Next(s, step).value.table.rows, Next(s, step).value.log, id)
    {
      AccountedKept(s, step, id);
    }
  }

  /** In every run: an entry is attempted at most 11 times before it fails or is manually revived, is never
      attempted again after a success, and leaves the journal only after one. */
  lemma EveryRun(steps: seq<Step>)
    requires RunFrom(EMPTY, steps).Some?
    ensures Invariant(RunFrom(EMPTY, steps).value) && Reliable(RunFrom(EMPTY, steps).value)
  {
    EmptyInvariant();
    InvariantHolds(EMPTY, steps);
    InvariantMeans(RunFrom(EMPTY, steps).value);
  }

  /** What the journal's users rely on. */
  ghost predicate Reliable(s: System) {
    && (forall id: nat :: 0 < id < s.table.nextId && id in s.table.rows ==>
          && Attempts(s.log, id) <= 11
          && (s.table.rows[id].status.Pending? ==> Attempts(s.log, id) < 11)
          && (s.table.rows[id].status.Done? <==> SucceededIn(s.log, id)))
    && (forall id: nat :: 0 < id < s.table.nextId && id !in s.table.rows ==> SucceededIn(s.log, id))
    && NoAttemptAfterSuccess(s.log)
  }

  lemma InvariantMeans(s: System)
    requires Invariant(s)
    ensures Reliable(s)
  {
    hide Attempts, SucceededIn, NoAttemptAfterSuccess;
    forall id: nat | 0 < id < s.table.nextId
      ensures id !in s.table.rows ==> SucceededIn(s.log, id)
      ensures id in s.table.rows ==>
                && Attempts(s.log, id) <= 11
                && (s.table.rows[id].status.Pending? ==> Attempts(s.log, id) < 11)
                && (s.table.rows[id].status.Done? <==> SucceededIn(s.log, id))
    {
      assert Accounted(s.table.rows, s.log, id);
    }
  }

  lemma EmptyInvariant()
    ensures Invariant(EMPTY)
  {
  }

  // ---- Draining ----

  /** Attempts an entry may still get. */
  function Weight(rows: Rows, id: nat): nat {
    if id in rows && rows[id].status.Pending? && rows[id].retries <= MAX_RETRIES then MAX_RETRIES + 1 - rows[id].retries
    else 0
  }

  function Potential(rows: Rows, below: nat): nat {
    if below == 0 then 0 else Potential(rows, below - 1) + Weight(rows, below - 1)
  }

  function AttemptCount(steps: seq<Step>): nat {
    if steps == [] then 0
    else AttemptCount(steps[..|steps| - 1]) + if steps[|steps| - 1].Finish? then 1 else 0
  }

  /** No step of the run enqueues or revives anything. */
  predicate NoArrivals(steps: seq<Step>) {
    forall k :: 0 <= k < |steps| ==> steps[k].Load? || steps[k].Finish? || steps[k].DropDone?
  }

  lemma {:induction false} PotentialFalls(before: Rows, after: Rows, below: nat, id: nat)
    requires id < below && Weight(after, id) < Weight(before, id)
    requires forall other: nat :: other != id ==> Weight(after, other) == Weight(before, other)
    ensures Potential(after, below) < Potential(before, below)
  {
    if id == below - 1 {
      PotentialSame(before, after, below - 1);
    } else {
      PotentialFalls(before, after, below - 1, id);
    }
  }

  lemma {:induction false} PotentialSame(before: Rows, after: Rows, below: nat)
    requires forall other: nat :: other < below ==> Weight(after, other) == Weight(before, other)
    ensures Potential(after, below) == Potential(before, below)
  {
    if below > 0 {
      PotentialSame(before, after, below - 1);
    }
  }

  lemma {:induction false} NothingPending(rows: Rows, below: nat, id: nat)
    requires id < below && Potential(rows, below) == 0
    ensures Weight(rows, id) == 0
  {
    if id < below - 1 {
      NothingPending(rows, below - 1, id);
    }
  }

  /** When nothing new is enqueued, every recorded result strictly lowers the sum of 11 minus the retry
      count over the pending entries, and nothing raises it: a run holds at most that many attempts. */
  lemma {:induction false} AttemptsBounded(s: System, steps: seq<Step>)
    requires Invariant(s) && NoArrivals(steps) && RunFrom(s, steps).Some?
    ensures var n := RunFrom(s, steps).value;
            && Invariant(n) && n.table.nextId == s.table.nextId
            && Potential(n.table.rows, n.table.nextId) + AttemptCount(steps) <= Potential(s.table.rows, s.table.nextId)
  {
    if steps != [] {
      hide Invariant, Potential, IsBatch;
      var earlier, step := steps[..|steps| - 1], steps[|steps| - 1];
      AttemptsBounded(s, earlier);
      var b := RunFrom(s, earlier).value;
      InvariantKept(b, step);
      StepLowersPotential(b, step);
    }
  }

  lemma StepLowersPotential(s: System, step: Step)
    requires Invariant(s) && Next(s, step).Some? && NoArrivals([step])
    ensures var n := Next(s, step).value;
            && n.table.nextId == s.table.nextId
            && (if step.Finish? then Potential(n.table.rows, n.table.nextId) < Potential(s.table.rows, s.table.nextId)
                else Potential(n.table.rows, n.table.nextId) == Potential(s.table.rows, s.table.nextId))
  {
    hide Potential, IsBatch, Attempts, SucceededIn;
    var n := Next(s, step).value;
    assert [step][0] == step;
    if step.Finish? {
      assert Accounted(s.table.rows, s.log, step.id);
      PotentialFalls(s.table.rows, n.table.rows, s.table.nextId, step.id);
    } else {
      PotentialSame(s.table.rows, n.table.rows, s.table.nextId);
    }
  }

  /** And the loop never idles: while something is pending, either an attempt is under way or the next
      batch is not empty. So the journal drains. */
  lemma KeepsGoing(s: System) returns (batch: seq<nat>)
    requires Invariant(s) && s.inFlight == {}
    ensures Next(s, Load(batch)).Some? && |batch| <= 20
    ensures Potential(s.table.rows, s.table.nextId) > 0 <==> batch != []
  {
    batch := BatchExists(s.table.rows, BATCH);
    var rows, below := s.table.rows, s.table.nextId;
    if batch != [] {
      var id := batch[0];
      assert Candidate(rows, id) && Accounted(rows, s.log, id);
      if Potential(rows, below) == 0 {
        NothingPending(rows, below, id);
      }
    } else {
      PotentialSame(map[], rows, below);
      NoRows(below);
    }
  }

  lemma {:induction false} NoRows(below: nat)
    ensures Potential(map[], below) == 0
  {
    if below > 0 {
      NoRows(below - 1);
    }
  }

  // ---- Fairness ----

  /** All pending entries have been attempted `m` or `m + 1` times, those under way `m` times. */
  ghost predicate Level(s: System, m: nat) {
    && (forall id :: id in s.table.rows && s.table.rows[id].status.Pending? ==> m <= s.table.rows[id].retries <= m + 1)
    && (forall id :: id in s.inFlight ==>
        id in s.table.rows && s.table.rows[id].status.Pending? && s.table.rows[id].retries == m)
  }

  /** From equal counts, and without arrivals, no entry ever gets ahead of another by more than one attempt. */
  lemma {:induction false} Fair(s: System, steps: seq<Step>, m: nat) returns (k: nat)
    requires NoArrivals(steps) && RunFrom(s, steps).Some?
    requires s.inFlight == {} && forall id :: id in s.table.rows && s.table.rows[id].status.Pending? ==>
        s.table.rows[id].retries == m
    ensures Level(RunFrom(s, steps).value, k)
    ensures var rows := RunFrom(s, steps).value.table.rows;
            forall a, b :: a in rows && b in rows && rows[a].status.Pending? && rows[b].status.Pending? ==>
              rows[a].retries <= rows[b].retries + 1
  {
    if steps == [] {
      k := m;
    } else {
      var earlier, step := steps[..|steps| - 1], steps[|steps| - 1];
      var j := Fair(s, earlier, m);
      k := StepKeepsLevel(RunFrom(s, earlier).value, step, j);
    }
  }

  lemma StepKeepsLevel(s: System, step: Step, m: nat) returns (k: nat)
    requires Level(s, m) && NoArrivals([step]) && Next(s, step).Some?
    ensures Level(Next(s, step).value, k)
  {
    assert [step][0] == step;
    k := m;
    if step.Load? && step.batch != [] {
      assert Candidate(s.table.rows, step.batch[0]);
      k := s.table.rows[step.batch[0]].retries;
    }
  }

  // ---- One pending upload per file ----

  ghost predicate OneUploadEach(rows: Rows) {
    forall a, b ::
      a in rows && b in rows && PendingUpload(rows[a]) && PendingUpload(rows[b]) && rows[a].ino == rows[b].ino ==>
        a == b
  }

  predicate PendingUpload(e: Entry) {
    e.status.Pending? && !e.event.Other?
  }

  /** Without manual retries no file ever has two pending uploads. */
  lemma {:induction false} UploadsUnique(s: System, steps: seq<Step>)
    requires Invariant(s) && OneUploadEach(s.table.rows) && RunFrom(s, steps).Some?
    requires forall k :: 0 <= k < |steps| ==> !steps[k].ManualRetry?
    ensures OneUploadEach(RunFrom(s, steps).value.table.rows)
  {
    if steps != [] {
      UploadsUnique(s, steps[..|steps| - 1]);
      InvariantHolds(s, steps[..|steps| - 1]);
      StepKeepsUploadsUnique(RunFrom(s, steps[..|steps| - 1]).value, steps[|steps| - 1]);
    }
  }

  lemma {:induction false} InvariantHolds(s: System, steps: seq<Step>)
    requires Invariant(s) && RunFrom(s, steps).Some?
    ensures Invariant(RunFrom(s, steps).value)
  {
    if steps != [] {
      InvariantHolds(s, steps[..|steps| - 1]);
      InvariantKept(RunFrom(s, steps[..|steps| - 1]).value, steps[|steps| - 1]);
    }
  }

  lemma StepKeepsUploadsUnique(s: System, step: Step)
    requires Invariant(s) && OneUploadEach(s.table.rows) && Next(s, step).Some? && !step.ManualRetry?
    ensures OneUploadEach(Next(s, step).value.table.rows)
  {
    hide IsBatch, Accounted, NoAttemptAfterSuccess;
  }

  /** A manual retry keeps that exactly when each failed upload it revives is its file's only one: no other
      upload of the file is pending, or failed and revived with it. */
  lemma RetryKeepsUploadsUnique(rows: Rows, ids: set<nat>)
    requires OneUploadEach(rows)
    ensures OneUploadEach(Retried(rows, ids)) <==>
            forall a, b :: a in Failures(rows, ids) && b in rows && a != b && IsUpload(rows[a]) && IsUpload(rows[b])
                           && rows[a].ino == rows[b].ino ==>
                             !rows[b].status.Pending? && b !in Failures(rows, ids)
  {
    var after := Retried(rows, ids);
    forall a, b | a in Failures(rows, ids) && b in rows && a != b && IsUpload(rows[a]) && IsUpload(rows[b])
                  && rows[a].ino == rows[b].ino && (rows[b].status.Pending? || b in Failures(rows, ids))
      ensures !OneUploadEach(after)
    {
      assert PendingUpload(after[a]) && PendingUpload(after[b]);
    }
    forall a, b | a in after && b in after && PendingUpload(after[a]) && PendingUpload(after[b])
        && rows[a].ino == rows[b].ino && a != b
      ensures a in Failures(rows, ids) || b in Failures(rows, ids)
    {
      assert !(PendingUpload(rows[a]) && PendingUpload(rows[b]));
    }
  }

  /** A file whose failed upload was enqueued afresh by a sweep gets a second pending one by a manual retry. */
  lemma RetryCanDuplicateAnUpload()
    ensures var rows: Rows := map[1 := Entry(0, CreateFile, 5, Failed, 1), 2 := Entry(9, CreateFile, 5, Pending, 0)];
            OneUploadEach(rows) && !OneUploadEach(Retried(rows, {1}))
  {
    var rows: Rows := map[1 := Entry(0, CreateFile, 5, Failed, 1), 2 := Entry(9, CreateFile, 5, Pending, 0)];
    RetryKeepsUploadsUnique(rows, {1});
    assert 1 in Failures(rows, {1}) && rows[2].status.Pending?;
  }

  // ---- The order within a batch ----

  function Joined(rounds: seq<seq<Entry>>): seq<Entry> {
    if rounds == [] then [] else Joined(rounds[..|rounds| - 1]) + rounds[|rounds| - 1]
  }

  predicate Uploads(round: seq<Entry>) {
    forall e :: e in round ==> e.event.CreateFile? || e.event.UpdateRevision?
  }

  /** One to four uploads, or a single other entry. */
  predicate IsRound(round: seq<Entry>) {
    0 < |round| && if Uploads(round) then |round| <= 4 else |round| == 1
  }

  predicate WellPacked(rounds: seq<seq<Entry>>) {
    && (forall i :: 0 <= i < |rounds| ==> IsRound(rounds[i]))
    && (forall i :: 0 <= i < |rounds| - 1 && Uploads(rounds[i]) && Uploads(rounds[i + 1]) ==>
          |rounds[i]| == 4)
  }

  lemma EmptyRounds()
    ensures WellPacked([]) && Joined([]) == []
  {
  }

  lemma NoUploads()
    ensures Uploads([])
  {
  }

  lemma OneMoreRound(rounds: seq<seq<Entry>>, e: Entry)
    requires WellPacked(rounds) && !IsUpload(e)
    ensures WellPacked(rounds + [[e]]) && !Uploads((rounds + [[e]])[|rounds|])
    ensures Joined(rounds + [[e]]) == Joined(rounds) + [e]
  {
    JoinedSnoc(rounds, [e]);
    hide Joined;
    assert [e][0] == e && e in [e];
  }

  lemma JoinedSnoc(rounds: seq<seq<Entry>>, round: seq<Entry>)
    ensures Joined(rounds + [round]) == Joined(rounds) + round
  {
    assert (rounds + [round])[..|rounds|] == rounds;
  }

  lemma Collected(done: seq<Entry>, uploads: seq<Entry>, e: Entry, entries: seq<Entry>, n: nat)
    requires n < |entries| && done + uploads == entries[..n] && e == entries[n]
    ensures done + (uploads + [e]) == entries[..n + 1] && (done + uploads) + [e] == entries[..n + 1]
    ensures Uploads(uploads) && IsUpload(e) ==> Uploads(uploads + [e])
  {
  }

  lemma SplitAfter(done: seq<Entry>, left: seq<Entry>, size: nat)
    requires size <= |left|
    ensures done + left == (done + left[..size]) + left[size..]
  {
  }

  /** The uploads collected so far, appended in chunks. */
  method FlushUploads(rounds: seq<seq<Entry>>, uploads: seq<Entry>) returns (more: seq<seq<Entry>>)
    requires WellPacked(rounds) && Uploads(uploads)
    requires rounds != [] ==> !Uploads(rounds[|rounds| - 1])
    ensures WellPacked(more) && Joined(more) == Joined(rounds) + uploads
  {
    more := rounds;
    var left := uploads;
    hide Joined;
    while left != []
      invariant WellPacked(more) && Uploads(left)
      invariant left != [] && more != [] && Uploads(more[|more| - 1]) ==> |more[|more| - 1]| == UPLOAD_CONCURRENCY
      invariant Joined(rounds) + uploads == Joined(more) + left
      decreases |left|
    {
      var size := if |left| < UPLOAD_CONCURRENCY then |left| else UPLOAD_CONCURRENCY;
      JoinedSnoc(more, left[..size]);
      SplitAfter(Joined(more), left, size);
      more := more + [left[..size]];
      left := left[size..];
    }
  }

  /** The rounds a batch is worked off in; the entries of one round run concurrently, a round starts when the
      one before has finished. All entries are attempted once, in order, anything but an upload by itself. */
  method Rounds(entries: seq<Entry>) returns (rounds: seq<seq<Entry>>)
    ensures Joined(rounds) == entries
    ensures WellPacked(rounds)
  {
    rounds := [];
    var uploads := [];
    hide Joined, WellPacked;
    EmptyRounds();
    for n := 0 to |entries|
      invariant WellPacked(rounds) && Uploads(uploads)
      invariant rounds != [] ==> !Uploads(rounds[|rounds| - 1])
      invariant Joined(rounds) + uploads == entries[..n]
    {
      hide Uploads;
      Collected(Joined(rounds), uploads, entries[n], entries, n);
      if IsUpload(entries[n]) {
        uploads := uploads + [entries[n]];
      } else {
        rounds := FlushUploads(rounds, uploads);
        OneMoreRound(rounds, entries[n]);
        rounds := rounds + [[entries[n]]];
        uploads := [];
        assert Joined(rounds) + [] == Joined(rounds);
        NoUploads();
      }
    }
    assert entries[..|entries|] == entries;
    rounds := FlushUploads(rounds, uploads);
  }
}
