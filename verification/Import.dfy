/** Concurrent photo import under the skip strategy: jobs share a duplicate index and take a lock on the file
    name, then one on the content fingerprint. Every stretch of code between two waits is one step. */
module Import {
  import opened Bytes
  import opened Wrappers

  type Fingerprint = seq<Byte>

  const FINGERPRINT_LENGTH: nat := 32
  const ATTEMPTS: nat := 10

  datatype Result = Uploaded(fp: Fingerprint) | Skipped(fp: Fingerprint) | SkippedUnread | Error(transient: bool)

  /** Where a job is. From `Hashing` to `Recording` it holds its name's lock, from `Checking` on its content's. */
  datatype Job =
    | NotStarted
    | Opening(attempt: nat)
    | WantName(attempt: nat)
    | Hashing(attempt: nat)
    | WantContent(attempt: nat, fp: Fingerprint)
    | Checking(attempt: nat, fp: Fingerprint)
    | WantIndex(attempt: nat, fp: Fingerprint)
    | Scanning(attempt: nat, fp: Fingerprint)
    | Deciding(attempt: nat, fp: Fingerprint)
    | Uploading(attempt: nat, fp: Fingerprint)
    | Recording(fp: Fingerprint)
    | Backoff(attempt: nat)
    | Ended(result: Result)

  datatype Index = Unknown | BeingScanned(scanner: nat) | Known(known: set<Fingerprint>)

  datatype Upload = Upload(job: nat, fp: Fingerprint)

  /** The files to import by name, how many jobs may run, what the upload cache held at the start, and which of the
      files it knew as imported and unchanged since. */
  datatype Setup = Setup(files: seq<string>, limit: nat, cached: set<Fingerprint>, imported: set<nat>)

  datatype State = State(
    jobs: seq<Job>,
    names: map<string, nat>,
    contents: map<Fingerprint, nat>,
    index: Index,
    scanned: set<Fingerprint>,
    cache: set<Fingerprint>,
    uploads: seq<Upload>,
    next: nat,
    running: set<nat>,
    results: map<nat, Result>,
    failed: bool)

  datatype Step =
    | Start
    | Collect(job: nat)
    | Open(job: nat)
    | SkipUnread(job: nat)
    | LockName(job: nat)
    | Hash(job: nat, fp: Fingerprint)
    | LockContent(job: nat)
    | SkipCached(job: nat)
    | Ask(job: nat)
    | UseIndex(job: nat)
    | Scan(job: nat)
    | ScanDone(job: nat, found: set<Fingerprint>)
    | Decide(job: nat)
    | Finish(job: nat)
    | Record(job: nat)
    | Fail(job: nat, transient: bool)
    | Retry(job: nat)

  predicate HoldsName(pc: Job) {
    pc.Hashing? || pc.WantContent? || HoldsContent(pc)
  }

  predicate HoldsContent(pc: Job) {
    pc.Checking? || pc.WantIndex? || pc.Scanning? || pc.Deciding? || pc.Uploading? || pc.Recording?
  }

  predicate CanFail(pc: Job) {
    pc.Opening? || pc.Hashing? || pc.Scanning? || pc.Uploading?
  }

  /** What a job's step does beside moving the job on. The end of an attempt drops both its locks. */
  datatype Effect =
    | Nothing
    | TakeName
    | TakeContent
    | SetIndex(index: Index, found: set<Fingerprint>)
    | LogUpload
    | Leave(index: Index, cache: set<Fingerprint>)

  datatype Move = Move(pc: Job, effect: Effect)

  /** Transient errors are retried a limited number of times; an interrupted scan leaves the index unknown. */
  function AfterError(s: State, pc: Job, transient: bool): Move
    requires CanFail(pc)
  {
    Move(if transient && pc.attempt < ATTEMPTS then Backoff(pc.attempt) else Ended(Error(transient)),
         Leave(if pc.Scanning? then Unknown else s.index, s.cache))
  }

  function WithPhoto(index: Index, fp: Fingerprint): Index
    requires index.Known?
  {
    if |fp| == FINGERPRINT_LENGTH then Known(index.known + {fp}) else index
  }

  /** One step of job `j`, which is at `pc`. */
  function JobMove(file: string, s: State, step: Step, j: nat, pc: Job): (r: Option<Move>)
    ensures r.Some? && r.value.effect.TakeContent? ==> HoldsContent(r.value.pc)
    ensures r.Some? && r.value.effect.LogUpload? ==> r.value.pc.Recording?
  {
    match step
    case Open(_) => if pc.Opening? then Some(Move(WantName(pc.attempt), Nothing)) else None
    case SkipUnread(_) => if pc.Opening? then Some(Move(Ended(SkippedUnread), Leave(s.index, s.cache))) else None
    case LockName(_) =>
      if pc.WantName? && file !in s.names then Some(Move(Hashing(pc.attempt), TakeName)) else None
    case Hash(_, fp) =>
      if pc.Hashing? && |fp| == FINGERPRINT_LENGTH then Some(Move(WantContent(pc.attempt, fp), Nothing)) else None
    case LockContent(_) =>
      if pc.WantContent? && pc.fp !in s.contents then Some(Move(Checking(pc.attempt, pc.fp), TakeContent)) else None
    case SkipCached(_) =>
      if pc.Checking? && pc.fp in s.cache then Some(Move(Ended(Skipped(pc.fp)), Leave(s.index, s.cache))) else None
    case Ask(_) => if pc.Checking? then Some(Move(WantIndex(pc.attempt, pc.fp), Nothing)) else None
    case UseIndex(_) =>
      if pc.WantIndex? && s.index.Known? then Some(Move(Deciding(pc.attempt, pc.fp), Nothing)) else None
    case Scan(_) =>
      if pc.WantIndex? && s.index.Unknown? then
        Some(Move(Scanning(pc.attempt, pc.fp), SetIndex(BeingScanned(j), s.scanned)))
      else None
    case ScanDone(_, found) =>
      if pc.Scanning? then Some(Move(Deciding(pc.attempt, pc.fp), SetIndex(Known(found), found))) else None
    case Decide(_) =>
      if !pc.Deciding? || !s.index.Known? then None
      else if pc.fp in s.index.known then Some(Move(Ended(Skipped(pc.fp)), Leave(s.index, s.cache + {pc.fp})))
      else Some(Move(Uploading(pc.attempt, pc.fp), Nothing))
    case Finish(_) => if pc.Uploading? then Some(Move(Recording(pc.fp), LogUpload)) else None
    case Record(_) =>
      if pc.Recording? && s.index.Known? then
        Some(Move(Ended(Uploaded(pc.fp)), Leave(WithPhoto(s.index, pc.fp), s.cache + {pc.fp})))
      else None
    case Fail(_, transient) => if CanFail(pc) then Some(AfterError(s, pc, transient)) else None
    case Retry(_) => if pc.Backoff? then Some(Move(Opening(pc.attempt + 1), Nothing)) else None
    case _ => None
  }

  function Dropped<K>(locks: map<K, nat>, j: nat): map<K, nat> {
    map k | k in locks && locks[k] != j :: locks[k]
  }

  function Apply(file: string, s: State, j: nat, m: Move): (n: State)
    requires j < |s.jobs| && (m.effect.TakeContent? ==> HoldsContent(m.pc)) && (m.effect.LogUpload? ==> m.pc.Recording?)
    ensures n.jobs == s.jobs[j := m.pc]
    ensures n.next == s.next && n.running == s.running && n.results == s.results && n.failed == s.failed
  {
    var n := s.(jobs := s.jobs[j := m.pc]);
    match m.effect
    case Nothing => n
    case TakeName => n.(names := s.names[file := j])
    case TakeContent => n.(contents := s.contents[m.pc.fp := j])
    case SetIndex(index, found) => n.(index := index, scanned := found)
    case LogUpload => n.(uploads := s.uploads + [Upload(j, m.pc.fp)])
    case Leave(index, cache) =>
      n.(names := Dropped(s.names, j), contents := Dropped(s.contents, j), index := index, cache := cache)
  }

  /** The importing loop starts jobs while there is room and no permanent failure, and collects finished ones. */
  function Next(setup: Setup, s: State, step: Step): (r: Option<State>)
    requires |s.jobs| == |setup.files|
    ensures r.Some? ==> |r.value.jobs| == |s.jobs|
  {
    if step.Start? then
      if !s.failed && |s.running| < setup.limit && s.next < |s.jobs| then
        Some(s.(jobs := s.jobs[s.next := Opening(1)], next := s.next + 1, running := s.running + {s.next}))
      else None
    else if step.job >= |s.jobs| then None
    else
      var (j, pc) := (step.job, s.jobs[step.job]);
      if step.Collect? then
        if pc.Ended? && j in s.running then
          Some(s.(running := s.running - {j}, results := s.results[j := pc.result],
                  failed := s.failed || pc.result == Error(false)))
        else None
      else
        var move := JobMove(setup.files[j], s, step, j, pc);
        if move.None? || (step.SkipUnread? && j !in setup.imported) then None
        else Some(Apply(setup.files[j], s, j, move.value))
  }

  function Initial(setup: Setup): State {
    State(seq(|setup.files|, _ => NotStarted), map[], map[], Unknown, {}, setup.cached, [], 0, {}, map[], false)
  }

  ghost function Run(setup: Setup, steps: seq<Step>): (r: Option<State>)
    ensures r.Some? ==> |r.value.jobs| == |setup.files|
  {
    if steps == [] then Some(Initial(setup))
    else
      var before := Run(setup, steps[..|steps| - 1]);
      if before.None? then None else Next(setup, before.value, steps[|steps| - 1])
  }

  /** What the moves have to do with the locks and the index. */
  lemma MoveShape(file: string, s: State, step: Step, j: nat, pc: Job)
    requires JobMove(file, s, step, j, pc).Some?
    ensures var m := JobMove(file, s, step, j, pc).value;
            && !pc.NotStarted? && !pc.Ended? && !m.pc.NotStarted?
            && (m.effect.TakeName? ==> !HoldsName(pc) && HoldsName(m.pc) && !HoldsContent(m.pc) && file !in s.names)
            && (m.effect.TakeContent? ==>
                HoldsName(pc) && !HoldsContent(pc) && HoldsContent(m.pc) && m.pc.fp !in s.contents)
            && (m.effect.Leave? ==> !HoldsName(m.pc))
            && (m.effect.Nothing? || m.effect.SetIndex? || m.effect.LogUpload? || m.effect.TakeContent? ==>
                  HoldsName(m.pc) == HoldsName(pc))
            && (m.effect.Nothing? || m.effect.SetIndex? || m.effect.LogUpload? || m.effect.TakeName? ==>
                  HoldsContent(m.pc) == HoldsContent(pc) && (HoldsContent(pc) ==> m.pc.fp == pc.fp))
  {
  }

  // ---- The order of starting and finishing ----

  ghost predicate Counted(setup: Setup, s: State)
    requires |s.jobs| == |setup.files|
  {
    && s.next <= |s.jobs| && |s.running| <= setup.limit
    && (forall j :: 0 <= j < |s.jobs| ==> (s.jobs[j].NotStarted? <==> j >= s.next))
    && (forall j :: j in s.running <==> 0 <= j < s.next && j !in s.results)
    && (forall j :: j in s.results ==> j < s.next && s.jobs[j] == Ended(s.results[j]))
    && (s.failed <==> exists j :: j in s.results && s.results[j] == Error(false))
  }

  lemma CountedKept(setup: Setup, s: State, step: Step)
    requires |s.jobs| == |setup.files| && Counted(setup, s) && Next(setup, s, step).Some?
    ensures Counted(setup, Next(setup, s, step).value)
  {
    if step.Start? {
      StartCounted(setup, s);
    } else if step.Collect? {
      CollectCounted(setup, s, step.job);
    } else {
      MoveShape(setup.files[step.job], s, step, step.job, s.jobs[step.job]);
      hide JobMove, Counted, Apply;
      var m := JobMove(setup.files[step.job], s, step, step.job, s.jobs[step.job]).value;
      MovedCounted(setup, s, Next(setup, s, step).value, step.job, m.pc);
    }
  }

  lemma StartCounted(setup: Setup, s: State)
    requires |s.jobs| == |setup.files| && Counted(setup, s) && Next(setup, s, Start).Some?
    ensures Counted(setup, Next(setup, s, Start).value)
  {
    hide JobMove, Apply;
  }

  lemma CollectCounted(setup: Setup, s: State, j: nat)
    requires |s.jobs| == |setup.files| && Counted(setup, s) && Next(setup, s, Collect(j)).Some?
    ensures Counted(setup, Next(setup, s, Collect(j)).value)
  {
    hide JobMove, Apply;
    var n := Next(setup, s, Collect(j)).value;
    assert forall k :: k in s.results ==> n.results[k] == s.results[k];
    assert n.results[j] == s.jobs[j].result;
  }

  lemma MovedCounted(setup: Setup, s: State, n: State, j: nat, pc: Job)
    requires |s.jobs| == |setup.files| && Counted(setup, s) && j < |s.jobs|
    requires !s.jobs[j].NotStarted? && !s.jobs[j].Ended? && !pc.NotStarted?
    requires n.jobs == s.jobs[j := pc] && n.next == s.next && n.running == s.running && n.results == s.results
        && n.failed == s.failed
    ensures Counted(setup, n)
  {
  }

  // ---- Locks ----

  function NameHeld(file: string, pc: Job): Option<string> {
    if HoldsName(pc) then Some(file) else None
  }

  function ContentHeld(pc: Job): Option<Fingerprint> {
    if HoldsContent(pc) then Some(pc.fp) else None
  }

  function NamesHeld(files: seq<string>, jobs: seq<Job>): (r: seq<Option<string>>)
    requires |jobs| == |files|
    ensures |r| == |jobs| && forall j :: 0 <= j < |r| ==> r[j] == NameHeld(files[j], jobs[j])
  {
    seq(|jobs|, j requires 0 <= j < |jobs| && |jobs| == |files| => NameHeld(files[j], jobs[j]))
  }

  function ContentsHeld(jobs: seq<Job>): (r: seq<Option<Fingerprint>>)
    ensures |r| == |jobs| && forall j :: 0 <= j < |r| ==> r[j] == ContentHeld(jobs[j])
  {
    seq(|jobs|, j requires 0 <= j < |jobs| => ContentHeld(jobs[j]))
  }

  /** The table says exactly which job holds which lock; so no lock is held twice. */
  ghost predicate TableSound<K>(held: seq<Option<K>>, locks: map<K, nat>) {
    && (forall k :: k in locks ==> locks[k] < |held| && held[locks[k]] == Some(k))
    && (forall j :: 0 <= j < |held| && held[j].Some? ==> held[j].value in locks && locks[held[j].value] == j)
  }

  lemma TableChanges<K>(held: seq<Option<K>>, locks: map<K, nat>, j: nat, k: K)
    requires TableSound(held, locks) && j < |held|
    ensures held[j].None? && k !in locks ==> TableSound(held[j := Some(k)], locks[k := j])
    ensures TableSound(held[j := None], Dropped(locks, j))
    ensures TableSound(held[j := held[j]], locks)
  {
    assert held[j := held[j]] == held;
  }

  ghost predicate LocksSound(setup: Setup, s: State)
    requires |s.jobs| == |setup.files|
  {
    TableSound(NamesHeld(setup.files, s.jobs), s.names) && TableSound(ContentsHeld(s.jobs), s.contents)
  }

  lemma HeldAfter(files: seq<string>, jobs: seq<Job>, j: nat, pc: Job)
    requires |jobs| == |files| && j < |jobs|
    ensures NamesHeld(files, jobs[j := pc]) == NamesHeld(files, jobs)[j := NameHeld(files[j], pc)]
    ensures ContentsHeld(jobs[j := pc]) == ContentsHeld(jobs)[j := ContentHeld(pc)]
  {
  }

  lemma LocksKept(setup: Setup, s: State, step: Step)
    requires |s.jobs| == |setup.files| && Counted(setup, s) && LocksSound(setup, s) && Next(setup, s, step).Some?
    ensures LocksSound(setup, Next(setup, s, step).value)
  {
    if step.Start? {
      HeldAfter(setup.files, s.jobs, s.next, Opening(1));
      hide JobMove, TableSound, Apply;
      TableChanges(NamesHeld(setup.files, s.jobs), s.names, s.next, "");
      TableChanges(ContentsHeld(s.jobs), s.contents, s.next, []);
    } else if !step.Collect? {
      MoveShape(setup.files[step.job], s, step, step.job, s.jobs[step.job]);
      hide JobMove, TableSound, Counted, Apply;
      MovedLocks(setup.files, s, step.job, JobMove(setup.files[step.job], s, step, step.job, s.jobs[step.job]).value);
    }
  }

  lemma MovedLocks(files: seq<string>, s: State, j: nat, m: Move)
    requires |s.jobs| == |files| && j < |s.jobs|
    requires TableSound(NamesHeld(files, s.jobs), s.names) && TableSound(ContentsHeld(s.jobs), s.contents)
    requires m.effect.TakeName? ==>
        !HoldsName(s.jobs[j]) && HoldsName(m.pc) && !HoldsContent(m.pc) && files[j] !in s.names
    requires m.effect.TakeContent? ==> !HoldsContent(s.jobs[j]) && HoldsContent(m.pc) && m.pc.fp !in s.contents
    requires m.effect.LogUpload? ==> m.pc.Recording?
    requires m.effect.Leave? ==> !HoldsName(m.pc)
    requires m.effect.Nothing? || m.effect.SetIndex? || m.effect.LogUpload? || m.effect.TakeContent? ==>
               HoldsName(m.pc) == HoldsName(s.jobs[j])
    requires m.effect.Nothing? || m.effect.SetIndex? || m.effect.LogUpload? || m.effect.TakeName? ==>
               HoldsContent(m.pc) == HoldsContent(s.jobs[j]) && (HoldsContent(s.jobs[j]) ==> m.pc.fp == s.jobs[j].fp)
    ensures var n := Apply(files[j], s, j, m);
            TableSound(NamesHeld(files, n.jobs), n.names) && TableSound(ContentsHeld(n.jobs), n.contents)
  {
    hide TableSound;
    HeldAfter(files, s.jobs, j, m.pc);
    TableChanges(NamesHeld(files, s.jobs), s.names, j, files[j]);
    TableChanges(ContentsHeld(s.jobs), s.contents, j, if HoldsContent(m.pc) then m.pc.fp else []);
  }

  // ---- The index ----

  predicate NeedsIndex(pc: Job) {
    pc.Deciding? || pc.Uploading? || pc.Recording?
  }

  /** Whoever scans is marked in the index, and decisions are taken only on a known index. */
  ghost predicate IndexSound(jobs: seq<Job>, index: Index) {
    && (forall j :: 0 <= j < |jobs| && jobs[j].Scanning? ==> index == BeingScanned(j))
    && (index.BeingScanned? ==> index.scanner < |jobs| && jobs[index.scanner].Scanning?)
    && (forall j :: 0 <= j < |jobs| && NeedsIndex(jobs[j]) ==> index.Known?)
  }

  /** How the index moves with its job. */
  lemma IndexMoves(file: string, s: State, step: Step, j: nat, pc: Job)
    requires JobMove(file, s, step, j, pc).Some?
    ensures var m := JobMove(file, s, step, j, pc).value;
            var index := if m.effect.SetIndex? || m.effect.Leave? then m.effect.index else s.index;
            && (m.pc.Scanning? ==> s.index.Unknown? && index == BeingScanned(j))
            && (pc.Scanning? ==> index.Unknown? || index.Known?)
            && (!pc.Scanning? && !m.pc.Scanning? ==> index == s.index || (index.Known? && s.index.Known?))
            && (NeedsIndex(m.pc) && !pc.Scanning? ==> s.index.Known? || NeedsIndex(pc))
            && (NeedsIndex(m.pc) && pc.Scanning? ==> index.Known?)
  {
  }

  lemma IndexKept(setup: Setup, s: State, step: Step)
    requires |s.jobs| == |setup.files| && Counted(setup, s) && IndexSound(s.jobs, s.index) && Next(setup, s, step).Some?
    ensures IndexSound(Next(setup, s, step).value.jobs, Next(setup, s, step).value.index)
  {
    hide JobMove;
    if !step.Start? && !step.Collect? {
      IndexMoves(setup.files[step.job], s, step, step.job, s.jobs[step.job]);
      hide Counted, IndexSound;
      var m := JobMove(setup.files[step.job], s, step, step.job, s.jobs[step.job]).value;
      MovedIndex(s.jobs, s.index, step.job, m.pc, Next(setup, s, step).value.index);
    }
  }

  lemma MovedIndex(jobs: seq<Job>, index: Index, j: nat, pc: Job, after: Index)
    requires j < |jobs| && IndexSound(jobs, index)
    requires pc.Scanning? ==> index.Unknown? && after == BeingScanned(j)
    requires jobs[j].Scanning? ==> !pc.Scanning? && !after.BeingScanned?
    requires !jobs[j].Scanning? && !pc.Scanning? ==> after == index || (after.Known? && index.Known?)
    requires NeedsIndex(pc) ==> after.Known?
    ensures IndexSound(jobs[j := pc], after)
  {
  }

  // ---- Uploads ----

  predicate LoggedBy(pc: Job, fp: Fingerprint) {
    pc == Recording(fp) || pc == Ended(Uploaded(fp))
  }

  /** Jobs report an upload exactly when it is in the log. */
  ghost predicate LogSound(jobs: seq<Job>, uploads: seq<Upload>) {
    && (forall k :: 0 <= k < |uploads| ==> uploads[k].job < |jobs| && LoggedBy(jobs[uploads[k].job], uploads[k].fp))
    && (forall j: nat, f :: j < |jobs| && LoggedBy(jobs[j], f) ==> Upload(j, f) in uploads)
  }

  /** No fingerprint twice, none that the scan found, and the index lags behind by what is being recorded. */
  ghost predicate UploadsSound(s: State) {
    && (forall k, l :: 0 <= k < l < |s.uploads| ==> s.uploads[k].fp != s.uploads[l].fp)
    && (forall k :: 0 <= k < |s.uploads| ==> s.uploads[k].fp !in s.scanned)
    && (!s.index.Known? ==> s.uploads == [] && s.scanned == {})
    && (s.index.Known? ==>
          && s.scanned <= s.index.known
          && (forall k :: 0 <= k < |s.uploads| ==>
                s.uploads[k].fp in s.index.known
                || (s.uploads[k].job < |s.jobs| && s.jobs[s.uploads[k].job] == Recording(s.uploads[k].fp)))
          && (forall j :: 0 <= j < |s.jobs| && s.jobs[j].Uploading? ==> s.jobs[j].fp !in s.index.known))
    && (forall j :: 0 <= j < |s.jobs| && (HoldsContent(s.jobs[j]) || s.jobs[j].WantContent?) ==>
        |s.jobs[j].fp| == FINGERPRINT_LENGTH)
  }

  /** Steps that neither upload, record nor finish a scan. */
  predicate Quiet(step: Step) {
    !step.Start? && !step.Collect? && !step.Finish? && !step.Record? && !step.ScanDone?
  }

  lemma QuietMoves(file: string, s: State, step: Step, j: nat, pc: Job)
    requires Quiet(step) && JobMove(file, s, step, j, pc).Some?
    ensures var m := JobMove(file, s, step, j, pc).value;
            && !m.effect.LogUpload? && (m.effect.SetIndex? ==> m.effect.found == s.scanned)
            && (m.effect.SetIndex? || m.effect.Leave? ==>
                  m.effect.index == s.index || (!m.effect.index.Known? && (s.index.Unknown? || pc.Scanning?)))
            && !pc.Recording? && !m.pc.Recording? && (forall f :: m.pc != Ended(Uploaded(f))) && !pc.Ended?
            && (m.pc.Uploading? ==> s.index.Known? && m.pc.fp !in s.index.known)
            && (HoldsContent(m.pc) || m.pc.WantContent? ==>
                  |m.pc.fp| == FINGERPRINT_LENGTH || ((HoldsContent(pc) || pc.WantContent?) && m.pc.fp == pc.fp))
  {
  }

  /** Moving a job that is and was not logged. */
  lemma LogUntouched(jobs: seq<Job>, uploads: seq<Upload>, j: nat, pc: Job)
    requires j < |jobs| && LogSound(jobs, uploads)
    requires forall f :: !LoggedBy(jobs[j], f) && !LoggedBy(pc, f)
    ensures LogSound(jobs[j := pc], uploads)
  {
  }

  lemma LogExtended(jobs: seq<Job>, uploads: seq<Upload>, j: nat, fp: Fingerprint)
    requires j < |jobs| && LogSound(jobs, uploads) && jobs[j].Uploading?
    ensures LogSound(jobs[j := Recording(fp)], uploads + [Upload(j, fp)])
  {
    var longer := uploads + [Upload(j, fp)];
    assert longer[|uploads|] == Upload(j, fp) && forall u :: u in uploads ==> u in longer;
  }

  lemma LogReported(jobs: seq<Job>, uploads: seq<Upload>, j: nat, fp: Fingerprint)
    requires j < |jobs| && LogSound(jobs, uploads) && jobs[j] == Recording(fp)
    ensures LogSound(jobs[j := Ended(Uploaded(fp))], uploads)
  {
    assert LoggedBy(jobs[j], fp);
  }

  lemma QuietKeeps(file: string, s: State, j: nat, m: Move)
    requires j < |s.jobs| && UploadsSound(s) && LogSound(s.jobs, s.uploads) && IndexSound(s.jobs, s.index)
    requires !m.effect.LogUpload? && (m.effect.SetIndex? ==> m.effect.found == s.scanned)
    requires m.effect.TakeContent? ==> HoldsContent(m.pc)
    requires m.effect.SetIndex? || m.effect.Leave? ==>
               m.effect.index == s.index || (!m.effect.index.Known? && (s.index.Unknown? || s.jobs[j].Scanning?))
    requires !s.jobs[j].Recording? && !s.jobs[j].Ended? && !m.pc.Recording? && forall f :: m.pc != Ended(Uploaded(f))
    requires m.pc.Uploading? ==> s.index.Known? && m.pc.fp !in s.index.known
    requires HoldsContent(m.pc) || m.pc.WantContent? ==>
               |m.pc.fp| == FINGERPRINT_LENGTH
               || ((HoldsContent(s.jobs[j]) || s.jobs[j].WantContent?) && m.pc.fp == s.jobs[j].fp)
    ensures var n := Apply(file, s, j, m); UploadsSound(n) && LogSound(n.jobs, n.uploads)
  {
    LogUntouched(s.jobs, s.uploads, j, m.pc);
    assert s.jobs[j].Scanning? ==> !s.index.Known?;
    hide LogSound, IndexSound, Dropped, UploadsSound;
    var n := Apply(file, s, j, m);
    assert n.uploads == s.uploads && n.scanned == s.scanned;
    assert n.index == s.index || (!n.index.Known? && !s.index.Known?);
    UploadsUntouched(s, n, j, m.pc);
  }

  lemma UploadsUntouched(s: State, n: State, j: nat, pc: Job)
    requires j < |s.jobs| && UploadsSound(s)
    requires n.jobs == s.jobs[j := pc] && n.uploads == s.uploads && n.scanned == s.scanned
    requires n.index == s.index || (!n.index.Known? && !s.index.Known?)
    requires !s.jobs[j].Recording? && (pc.Uploading? ==> s.index.Known? && pc.fp !in s.index.known)
    requires HoldsContent(pc) || pc.WantContent? ==>
               |pc.fp| == FINGERPRINT_LENGTH
                   || ((HoldsContent(s.jobs[j]) || s.jobs[j].WantContent?) && pc.fp == s.jobs[j].fp)
    ensures UploadsSound(n)
  {
  }

  lemma ContentUnique(setup: Setup, s: State, i: nat, j: nat)
    requires |s.jobs| == |setup.files| && LocksSound(setup, s) && i < |s.jobs| && j < |s.jobs|
    requires HoldsContent(s.jobs[i]) && HoldsContent(s.jobs[j]) && s.jobs[i].fp == s.jobs[j].fp
    ensures i == j
  {
    var held := ContentsHeld(s.jobs);
    assert held[i].Some? && held[j].Some?;
  }

  lemma FinishKeeps(setup: Setup, s: State, j: nat)
    requires |s.jobs| == |setup.files| && LocksSound(setup, s) && IndexSound(s.jobs, s.index)
    requires UploadsSound(s) && LogSound(s.jobs, s.uploads) && Next(setup, s, Finish(j)).Some?
    ensures var n := Next(setup, s, Finish(j)).value; UploadsSound(n) && LogSound(n.jobs, n.uploads)
  {
    LogExtended(s.jobs, s.uploads, j, s.jobs[j].fp);
    NewToAll(setup, s, j);
    var n := Next(setup, s, Finish(j)).value;
    assert n == s.(jobs := s.jobs[j := Recording(s.jobs[j].fp)], uploads := s.uploads + [Upload(j, s.jobs[j].fp)]);
    assert s.index.Known?;
    hide LogSound, LocksSound, IndexSound, Next;
    UploadLogged(s, j);
  }

  lemma UploadLogged(s: State, j: nat)
    requires UploadsSound(s) && j < |s.jobs| && s.jobs[j].Uploading? && s.index.Known?
    requires forall k :: 0 <= k < |s.uploads| ==> s.uploads[k].fp != s.jobs[j].fp
    ensures UploadsSound(s.(jobs := s.jobs[j := Recording(s.jobs[j].fp)],
        uploads := s.uploads + [Upload(j, s.jobs[j].fp)]))
  {
  }

  /** What is being uploaded has not been uploaded before. */
  lemma NewToAll(setup: Setup, s: State, j: nat)
    requires |s.jobs| == |setup.files| && LocksSound(setup, s) && IndexSound(s.jobs, s.index) && UploadsSound(s)
    requires j < |s.jobs| && s.jobs[j].Uploading?
    ensures forall k :: 0 <= k < |s.uploads| ==> s.uploads[k].fp != s.jobs[j].fp
  {
    forall k | 0 <= k < |s.uploads|
      ensures s.uploads[k].fp != s.jobs[j].fp
    {
      if s.uploads[k].fp == s.jobs[j].fp {
        ContentUnique(setup, s, s.uploads[k].job, j);
      }
    }
  }

  lemma RecordKeeps(setup: Setup, s: State, j: nat)
    requires |s.jobs| == |setup.files| && LocksSound(setup, s) && IndexSound(s.jobs, s.index)
    requires UploadsSound(s) && LogSound(s.jobs, s.uploads) && Next(setup, s, Record(j)).Some?
    ensures var n := Next(setup, s, Record(j)).value; UploadsSound(n) && LogSound(n.jobs, n.uploads)
  {
    LogReported(s.jobs, s.uploads, j, s.jobs[j].fp);
    OthersElse(setup, s, j);
    var n := Next(setup, s, Record(j)).value;
    assert n.jobs == s.jobs[j := Ended(Uploaded(s.jobs[j].fp))] && n.uploads == s.uploads && n.scanned == s.scanned;
    assert s.index.Known? && n.index == WithPhoto(s.index, s.jobs[j].fp);
    hide LogSound, LocksSound, IndexSound, Next, Dropped;
    PhotoRecorded(s, n, j);
  }

  lemma OthersElse(setup: Setup, s: State, j: nat)
    requires |s.jobs| == |setup.files| && LocksSound(setup, s) && j < |s.jobs| && s.jobs[j].Recording?
    ensures forall i :: 0 <= i < |s.jobs| && s.jobs[i].Uploading? ==> s.jobs[i].fp != s.jobs[j].fp
  {
    forall i: nat | i < |s.jobs| && s.jobs[i].Uploading?
      ensures s.jobs[i].fp != s.jobs[j].fp
    {
      if s.jobs[i].fp == s.jobs[j].fp {
        ContentUnique(setup, s, i, j);
      }
    }
  }

  lemma PhotoRecorded(s: State, n: State, j: nat)
    requires UploadsSound(s) && j < |s.jobs| && s.jobs[j].Recording? && s.index.Known?
    requires forall i :: 0 <= i < |s.jobs| && s.jobs[i].Uploading? ==> s.jobs[i].fp != s.jobs[j].fp
    requires n.jobs == s.jobs[j := Ended(Uploaded(s.jobs[j].fp))] && n.uploads == s.uploads && n.scanned == s.scanned
    requires n.index == WithPhoto(s.index, s.jobs[j].fp)
    ensures UploadsSound(n)
  {
    assert HoldsContent(s.jobs[j]);
    assert n.index.known == s.index.known + {s.jobs[j].fp};
  }

  lemma ScanKeeps(setup: Setup, s: State, j: nat, found: set<Fingerprint>)
    requires |s.jobs| == |setup.files| && IndexSound(s.jobs, s.index)
    requires UploadsSound(s) && LogSound(s.jobs, s.uploads) && Next(setup, s, ScanDone(j, found)).Some?
    ensures var n := Next(setup, s, ScanDone(j, found)).value; UploadsSound(n) && LogSound(n.jobs, n.uploads)
  {
    var n := Next(setup, s, ScanDone(j, found)).value;
    var pc := s.jobs[j];
    assert pc.Scanning? && !s.index.Known?;
    assert n == s.(jobs := s.jobs[j := Deciding(pc.attempt, pc.fp)], index := Known(found), scanned := found);
    hide LogSound, UploadsSound, IndexSound, Next, JobMove, Apply;
    LogUntouched(s.jobs, s.uploads, j, Deciding(pc.attempt, pc.fp));
    ScanRecorded(s, j, found);
  }

  lemma ScanRecorded(s: State, j: nat, found: set<Fingerprint>)
    requires UploadsSound(s) && j < |s.jobs| && s.jobs[j].Scanning? && !s.index.Known?
    requires forall i :: 0 <= i < |s.jobs| && s.jobs[i].Uploading? ==> NeedsIndex(s.jobs[i])
    requires forall i :: 0 <= i < |s.jobs| && NeedsIndex(s.jobs[i]) ==> s.index.Known?
    ensures UploadsSound(s.(jobs := s.jobs[j := Deciding(s.jobs[j].attempt, s.jobs[j].fp)],
                            index := Known(found), scanned := found))
  {
  }

  lemma StartKeeps(setup: Setup, s: State)
    requires |s.jobs| == |setup.files| && Counted(setup, s)
    requires UploadsSound(s) && LogSound(s.jobs, s.uploads) && Next(setup, s, Start).Some?
    ensures var n := Next(setup, s, Start).value; UploadsSound(n) && LogSound(n.jobs, n.uploads)
  {
    hide LogSound, JobMove;
    LogUntouched(s.jobs, s.uploads, s.next, Opening(1));
  }

  lemma CollectKeeps(setup: Setup, s: State, step: Step)
    requires |s.jobs| == |setup.files| && step.Collect?
    requires UploadsSound(s) && LogSound(s.jobs, s.uploads) && Next(setup, s, step).Some?
    ensures var n := Next(setup, s, step).value; UploadsSound(n) && LogSound(n.jobs, n.uploads)
  {
    hide LogSound, JobMove;
  }

  lemma UploadsKept(setup: Setup, s: State, step: Step)
    requires |s.jobs| == |setup.files| && Counted(setup, s) && LocksSound(setup, s) && IndexSound(s.jobs, s.index)
    requires UploadsSound(s) && LogSound(s.jobs, s.uploads) && Next(setup, s, step).Some?
    ensures var n := Next(setup, s, step).value; UploadsSound(n) && LogSound(n.jobs, n.uploads)
  {
    hide LogSound, UploadsSound, LocksSound, IndexSound, Counted, Next;
    match step {
      case Start => StartKeeps(setup, s);
      case Collect(_) => CollectKeeps(setup, s, step);
      case Finish(j) => FinishKeeps(setup, s, j);
      case Record(j) => RecordKeeps(setup, s, j);
      case ScanDone(j, found) => ScanKeeps(setup, s, j, found);
      case _ => QuietStepKeeps(setup, s, step);
    }
  }

  lemma QuietStepKeeps(setup: Setup, s: State, step: Step)
    requires |s.jobs| == |setup.files| && IndexSound(s.jobs, s.index) && Quiet(step)
    requires UploadsSound(s) && LogSound(s.jobs, s.uploads) && Next(setup, s, step).Some?
    ensures var n := Next(setup, s, step).value; UploadsSound(n) && LogSound(n.jobs, n.uploads)
  {
    QuietMoves(setup.files[step.job], s, step, step.job, s.jobs[step.job]);
    hide UploadsSound, LogSound, IndexSound, JobMove, Apply;
    QuietKeeps(setup.files[step.job], s, step.job,
        JobMove(setup.files[step.job], s, step, step.job, s.jobs[step.job]).value);
  }

  // ---- Skipping ----

  /** The content was in the upload cache at the start, found by the scan, or uploaded in this run. */
  ghost predicate Vouched(setup: Setup, scanned: set<Fingerprint>, uploads: seq<Upload>, f: Fingerprint) {
    f in setup.cached || f in scanned || exists u :: u in uploads && u.fp == f
  }

  ghost predicate SkipsSound(setup: Setup, s: State) {
    && (forall f :: f in s.cache ==> Vouched(setup, s.scanned, s.uploads, f))
    && (s.index.Known? ==> forall f :: f in s.index.known ==> Vouched(setup, s.scanned, s.uploads, f))
    && (forall j, f :: 0 <= j < |s.jobs| && s.jobs[j] == Ended(Skipped(f)) ==> Vouched(setup, s.scanned, s.uploads, f))
  }

  /** The fingerprint is in the cache or the index, or its upload is being recorded. */
  predicate Seen(s: State, pc: Job, f: Fingerprint) {
    f in s.cache || (s.index.Known? && f in s.index.known) || pc == Recording(f)
  }

  lemma SkipMoves(file: string, s: State, step: Step, j: nat, pc: Job)
    requires JobMove(file, s, step, j, pc).Some?
    ensures var m := JobMove(file, s, step, j, pc).value;
            && (forall f :: m.pc == Ended(Skipped(f)) ==> Seen(s, pc, f))
            && (m.effect.Leave? ==> forall f :: f in m.effect.cache ==> Seen(s, pc, f))
            && (m.effect.Leave? && m.effect.index.Known? ==> forall f :: f in m.effect.index.known ==> Seen(s, pc, f))
            && (m.effect.SetIndex? ==>
                  if m.effect.index.Known? then pc.Scanning? && m.effect.index.known == m.effect.found
                  else m.effect.found == s.scanned)
  {
  }

  lemma SkipsKept(setup: Setup, s: State, step: Step)
    requires |s.jobs| == |setup.files| && IndexSound(s.jobs, s.index) && UploadsSound(s) && LogSound(s.jobs, s.uploads)
    requires SkipsSound(setup, s) && Next(setup, s, step).Some?
    ensures SkipsSound(setup, Next(setup, s, step).value)
  {
    if !step.Start? && !step.Collect? {
      var (j, pc) := (step.job, s.jobs[step.job]);
      SkipMoves(setup.files[j], s, step, j, pc);
      assert pc.Scanning? ==> s.scanned == {};
      assert forall f :: pc == Recording(f) ==> LoggedBy(pc, f) && Upload(j, f) in s.uploads;
      hide JobMove, IndexSound, UploadsSound, LogSound, Dropped;
      MovedSkips(setup, s, j, JobMove(setup.files[j], s, step, j, pc).value);
    }
  }

  lemma MovedSkips(setup: Setup, s: State, j: nat, m: Move)
    requires j < |s.jobs| && |s.jobs| == |setup.files| && SkipsSound(setup, s)
    requires s.jobs[j].Scanning? ==> s.scanned == {}
    requires forall f :: s.jobs[j] == Recording(f) ==> Upload(j, f) in s.uploads
    requires m.effect.TakeContent? ==> HoldsContent(m.pc)
    requires m.effect.LogUpload? ==> m.pc.Recording?
    requires forall f :: m.pc == Ended(Skipped(f)) ==> Seen(s, s.jobs[j], f)
    requires m.effect.Leave? ==> forall f :: f in m.effect.cache ==> Seen(s, s.jobs[j], f)
    requires m.effect.Leave? && m.effect.index.Known? ==>
              forall f :: f in m.effect.index.known ==> Seen(s, s.jobs[j], f)
    requires m.effect.SetIndex? ==>
               if m.effect.index.Known? then s.jobs[j].Scanning? && m.effect.index.known == m.effect.found
               else m.effect.found == s.scanned
    ensures SkipsSound(setup, Apply(setup.files[j], s, j, m))
  {
    hide Dropped;
    var n := Apply(setup.files[j], s, j, m);
    forall f | Vouched(setup, s.scanned, s.uploads, f)
      ensures Vouched(setup, n.scanned, n.uploads, f)
    {
      assert forall u :: u in s.uploads ==> u in n.uploads;
    }
    forall f | Seen(s, s.jobs[j], f)
      ensures Vouched(setup, n.scanned, n.uploads, f)
    {
      if s.jobs[j] == Recording(f) {
        assert Upload(j, f) in s.uploads && Upload(j, f).fp == f;
      }
    }
    hide Seen;
    forall f | n.index.Known? && f in n.index.known
      ensures Vouched(setup, n.scanned, n.uploads, f)
    {
    }
  }

  ghost predicate Invariant(setup: Setup, s: State)
    requires |s.jobs| == |setup.files|
  {
    && Counted(setup, s) && LocksSound(setup, s) && IndexSound(s.jobs, s.index) && UploadsSound(s)
        && LogSound(s.jobs, s.uploads)
    && SkipsSound(setup, s)
  }

  lemma InitialInvariant(setup: Setup)
    ensures Invariant(setup, Initial(setup))
  {
  }

  lemma {:induction false} InvariantHolds(setup: Setup, steps: seq<Step>)
    requires Run(setup, steps).Some?
    ensures Invariant(setup, Run(setup, steps).value)
  {
    hide Counted, LocksSound, IndexSound, UploadsSound, LogSound, SkipsSound, Next, Initial;
    if steps == [] {
      InitialInvariant(setup);
    } else {
      var earlier, step := steps[..|steps| - 1], steps[|steps| - 1];
      InvariantHolds(setup, earlier);
      var s := Run(setup, earlier).value;
      CountedKept(setup, s, step);
      LocksKept(setup, s, step);
      IndexKept(setup, s, step);
      UploadsKept(setup, s, step);
      SkipsKept(setup, s, step);
    }
  }

  /** In every run under the skip strategy: no fingerprint is uploaded twice, none is uploaded that the scanned
      index held, a file reported as uploaded was, one skipped after hashing is vouched for by the cache, the
      scan or an upload of this run, at most `limit` jobs are under way, and none is started after a permanent
      failure. */
  lemma EveryRun(setup: Setup, steps: seq<Step>)
    requires Run(setup, steps).Some?
    ensures var s := Run(setup, steps).value;
            && (forall k, l :: 0 <= k < l < |s.uploads| ==> s.uploads[k].fp != s.uploads[l].fp)
            && (forall k :: 0 <= k < |s.uploads| ==> s.uploads[k].fp !in s.scanned)
            && (forall j, f :: j in s.results && s.results[j] == Uploaded(f) ==> Upload(j, f) in s.uploads)
            && (forall j, f :: j in s.results && s.results[j] == Skipped(f) ==> Vouched(setup, s.scanned, s.uploads, f))
            && |s.running| <= setup.limit
            && ((exists j :: j in s.results && s.results[j] == Error(false)) ==> Next(setup, s, Start).None?)
  {
    InvariantHolds(setup, steps);
    var s := Run(setup, steps).value;
    forall j, f | j in s.results && s.results[j] == Uploaded(f)
      ensures Upload(j, f) in s.uploads
    {
      assert s.jobs[j] == Ended(s.results[j]) && LoggedBy(s.jobs[j], f);
    }
    hide Vouched;
    forall j, f | j in s.results && s.results[j] == Skipped(f)
      ensures Vouched(setup, s.scanned, s.uploads, f)
    {
      assert s.jobs[j] == Ended(Skipped(f));
    }
    hide LocksSound, IndexSound, LogSound, SkipsSound, JobMove, Run;
  }

  /** When the loop ends without a permanent failure, every file has exactly one result. */
  lemma AllAccountedFor(setup: Setup, steps: seq<Step>)
    requires Run(setup, steps).Some? && setup.limit > 0
    requires var s := Run(setup, steps).value; s.running == {} && Next(setup, s, Start).None? && !s.failed
    ensures var s := Run(setup, steps).value;
            forall j :: j in s.results <==> 0 <= j < |setup.files|
  {
    InvariantHolds(setup, steps);
    hide LocksSound, IndexSound, LogSound, UploadsSound, SkipsSound, JobMove, Run;
  }

  // ---- No deadlock ----

  /** A step the job can take by itself now. */
  ghost predicate Able(setup: Setup, s: State, j: nat)
    requires |s.jobs| == |setup.files|
  {
    exists step: Step :: !step.Start? && step.job == j && Next(setup, s, step).Some?
  }

  predicate Blocked(file: string, s: State, pc: Job) {
    || (pc.WantName? && file in s.names)
    || (pc.WantContent? && pc.fp in s.contents)
    || (pc.WantIndex? && s.index.BeingScanned?)
  }

  lemma MoveExists(file: string, s: State, j: nat, pc: Job) returns (step: Step)
    requires !Blocked(file, s, pc) && !pc.NotStarted? && !pc.Ended? && (NeedsIndex(pc) ==> s.index.Known?)
    ensures !step.Start? && !step.Collect? && !step.SkipUnread? && step.job == j
    ensures JobMove(file, s, step, j, pc).Some?
  {
    step :=
      if pc.Opening? then Open(j)
      else if pc.WantName? then LockName(j)
      else if pc.Hashing? then Hash(j, seq(FINGERPRINT_LENGTH, _ => 0))
      else if pc.WantContent? then LockContent(j)
      else if pc.Checking? then Ask(j)
      else if pc.WantIndex? then (if s.index.Known? then UseIndex(j) else Scan(j))
      else if pc.Scanning? then ScanDone(j, {})
      else if pc.Deciding? then Decide(j)
      else if pc.Uploading? then Finish(j)
      else if pc.Recording? then Record(j)
      else Retry(j);
  }

  lemma AbleUnlessBlocked(setup: Setup, s: State, j: nat)
    requires |s.jobs| == |setup.files| && Invariant(setup, s) && j in s.running
    ensures j < |s.jobs|
    ensures Able(setup, s, j) || Blocked(setup.files[j], s, s.jobs[j])
  {
    if s.jobs[j].Ended? {
      assert Next(setup, s, Collect(j)).Some?;
    } else if !Blocked(setup.files[j], s, s.jobs[j]) {
      var step := MoveExists(setup.files[j], s, j, s.jobs[j]);
      hide JobMove, Counted, LocksSound, UploadsSound, LogSound, IndexSound, SkipsSound, Apply;
      assert Next(setup, s, step).Some?;
    }
  }

  /** The lock order cannot deadlock: whenever jobs are under way, one of them can move. Behind a job that waits for
      a name stands its holder, behind one that waits for a content a job past both locks, and behind one that
      waits for the index the job that is scanning. */
  lemma SomeoneMoves(setup: Setup, s: State, j: nat)
    requires |s.jobs| == |setup.files| && Invariant(setup, s) && j in s.running
    ensures exists k: nat :: k < |s.jobs| && Able(setup, s, k)
  {
    hide Next, Invariant, Able, JobMove;
    HolderRuns(setup, s, j);
    var a := if s.jobs[j].WantName? && setup.files[j] in s.names then s.names[setup.files[j]] else j;
    AbleUnlessBlocked(setup, s, a);
    if !Able(setup, s, a) {
      var b := if s.jobs[a].WantContent? && s.jobs[a].fp in s.contents then s.contents[s.jobs[a].fp] else a;
      HolderRuns(setup, s, a);
      AbleUnlessBlocked(setup, s, b);
      if !Able(setup, s, b) {
        AbleUnlessBlocked(setup, s, s.index.scanner);
      }
    }
  }

  /** Whoever holds a lock or scans is running. */
  lemma HolderRuns(setup: Setup, s: State, j: nat)
    requires |s.jobs| == |setup.files| && Invariant(setup, s) && j in s.running
    ensures j < |s.jobs|
    ensures setup.files[j] in s.names ==>
        s.names[setup.files[j]] in s.running && HoldsName(s.jobs[s.names[setup.files[j]]])
    ensures s.jobs[j].WantContent? && s.jobs[j].fp in s.contents ==>
              s.contents[s.jobs[j].fp] in s.running && HoldsContent(s.jobs[s.contents[s.jobs[j].fp]])
    ensures s.index.BeingScanned? ==> s.index.scanner in s.running && s.jobs[s.index.scanner].Scanning?
  {
    hide UploadsSound, LogSound, SkipsSound;
  }
}
