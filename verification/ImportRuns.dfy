/** What becomes of every file in a whole import, told from the steps that were taken. */
module ImportRuns {
  import opened Import
  import opened Wrappers

  /** A step of the job itself, not one of the loop that starts and collects jobs. */
  predicate OfJob(step: Step, j: nat) {
    !step.Start? && !step.Collect? && step.job == j
  }

  /** The job's last own step. */
  function LastOwn(steps: seq<Step>, j: nat): Option<Step> {
    if steps == [] then None
    else
      var step := steps[|steps| - 1];
      if OfJob(step, j) then Some(step) else LastOwn(steps[..|steps| - 1], j)
  }

  /** The fingerprint the job computed last. */
  function LastHash(steps: seq<Step>, j: nat): Option<Fingerprint> {
    if steps == [] then None
    else
      var step := steps[|steps| - 1];
      if step.Hash? && step.job == j then Some(step.fp) else LastHash(steps[..|steps| - 1], j)
  }

  /** How often the step was taken. */
  function Times(steps: seq<Step>, step: Step): nat {
    multiset(steps)[step]
  }

  lemma TimesMore(steps: seq<Step>, last: Step, step: Step)
    ensures Times(steps + [last], step) == Times(steps, step) + (if last == step then 1 else 0)
  {
    assert multiset(steps + [last]) == multiset(steps) + multiset{last};
  }

  // ---- Attempts ----

  /** Where a job is, given how often it failed in passing, failed for good, was retried, and finished an upload. */
  predicate Told(pc: Job, transient: nat, permanent: nat, retries: nat, finished: nat) {
    match pc
    case NotStarted => transient == 0 && permanent == 0 && retries == 0 && finished == 0
    case Backoff(a) => 1 <= a <= 9 && transient == a && permanent == 0 && retries == a - 1 && finished == 0
    case Recording(_) => transient == retries <= 9 && permanent == 0 && finished == 1
    case Ended(result) =>
      (match result
       case Error(passing) =>
         finished == 0 && if passing then transient == 10 && permanent == 0 && retries == 9
                          else transient == retries <= 9 && permanent == 1
       case Uploaded(_) => transient == retries <= 9 && permanent == 0 && finished == 1
       case _ => transient == retries <= 9 && permanent == 0 && finished == 0)
    case _ => 1 <= pc.attempt <= 10 && transient == retries == pc.attempt - 1 && permanent == 0 && finished == 0
  }

  predicate JobTold(steps: seq<Step>, j: nat, pc: Job) {
    Told(pc, Times(steps, Fail(j, true)), Times(steps, Fail(j, false)), Times(steps, Retry(j)),
         Times(steps, Finish(j)))
  }

  lemma MoveTold(file: string, s: State, step: Step, j: nat, pc: Job, t: nat, p: nat, r: nat, f: nat)
    requires Told(pc, t, p, r, f) && OfJob(step, j) && JobMove(file, s, step, j, pc).Some?
    ensures Told(JobMove(file, s, step, j, pc).value.pc,
                 t + (if step == Fail(j, true) then 1 else 0), p + (if step == Fail(j, false) then 1 else 0),
                 r + (if step == Retry(j) then 1 else 0), f + (if step == Finish(j) then 1 else 0))
  {
  }

  // ---- What a job has read ----

  /** The fingerprint the job is working on or has ended with. */
  function Content(pc: Job): Option<Fingerprint> {
    if HoldsContent(pc) || pc.WantContent? then Some(pc.fp)
    else if pc.Ended? && (pc.result.Uploaded? || pc.result.Skipped?) then Some(pc.result.fp)
    else None
  }

  /** What the job's steps say about where it is: the content it works on is the one it read last, a job that never
      failed has read nothing else, an error is the outcome of the job's last step, and a file is skipped unread only
      if it was known as imported. */
  ghost predicate Read(setup: Setup, steps: seq<Step>, j: nat, pc: Job) {
    && (Content(pc).Some? ==> LastHash(steps, j) == Content(pc))
    && (Times(steps, Fail(j, true)) == 0 && Times(steps, Fail(j, false)) == 0 ==>
          forall f :: Hash(j, f) in steps ==> Content(pc) == Some(f))
    && (pc.Ended? && pc.result.Error? ==> LastOwn(steps, j) == Some(Fail(j, pc.result.transient)))
    && (pc == Ended(SkippedUnread) ==> j in setup.imported)
  }

  lemma MoveReads(file: string, s: State, step: Step, j: nat, pc: Job)
    requires OfJob(step, j) && JobMove(file, s, step, j, pc).Some?
    ensures var m := JobMove(file, s, step, j, pc).value.pc;
            && (step.Hash? ==> Content(pc) == None && Content(m) == Some(step.fp))
            && (!step.Hash? && !step.Fail? ==> Content(m) == Content(pc))
            && (step.Fail? ==> Content(m) == None)
            && (m.Ended? && m.result.Error? ==> step == Fail(j, m.result.transient))
            && (m == Ended(SkippedUnread) ==> step.SkipUnread?)
  {
  }

  lemma OtherTold(setup: Setup, steps: seq<Step>, last: Step, j: nat, pc: Job)
    requires JobTold(steps, j, pc) && Read(setup, steps, j, pc) && !OfJob(last, j)
    ensures JobTold(steps + [last], j, pc) && Read(setup, steps + [last], j, pc)
  {
    hide Told, Content, Times;
    assert (steps + [last])[..|steps|] == steps;
    TimesMore(steps, last, Fail(j, true));
    TimesMore(steps, last, Fail(j, false));
    TimesMore(steps, last, Retry(j));
    TimesMore(steps, last, Finish(j));
  }

  lemma OwnTold(setup: Setup, steps: seq<Step>, s: State, step: Step, j: nat)
    requires |s.jobs| == |setup.files| && j < |s.jobs| && OfJob(step, j) && Next(setup, s, step).Some?
    requires JobTold(steps, j, s.jobs[j])
    ensures JobTold(steps + [step], j, Next(setup, s, step).value.jobs[j])
  {
    hide Told, JobMove, Times;
    TimesMore(steps, step, Fail(j, true));
    TimesMore(steps, step, Fail(j, false));
    TimesMore(steps, step, Retry(j));
    TimesMore(steps, step, Finish(j));
    MoveTold(setup.files[j], s, step, j, s.jobs[j], Times(steps, Fail(j, true)), Times(steps, Fail(j, false)),
             Times(steps, Retry(j)), Times(steps, Finish(j)));
  }

  lemma OwnRead(setup: Setup, steps: seq<Step>, s: State, step: Step, j: nat)
    requires |s.jobs| == |setup.files| && j < |s.jobs| && OfJob(step, j) && Next(setup, s, step).Some?
    requires Read(setup, steps, j, s.jobs[j])
    ensures Read(setup, steps + [step], j, Next(setup, s, step).value.jobs[j])
  {
    MoveReads(setup.files[j], s, step, j, s.jobs[j]);
    hide JobMove, Content, Times, Apply;
    assert (steps + [step])[..|steps|] == steps;
    TimesMore(steps, step, Fail(j, true));
    TimesMore(steps, step, Fail(j, false));
  }

  lemma NothingTold(setup: Setup, j: nat)
    ensures JobTold([], j, NotStarted) && Read(setup, [], j, NotStarted)
  {
  }

  lemma StartTold(setup: Setup, steps: seq<Step>, j: nat)
    requires JobTold(steps, j, NotStarted) && Read(setup, steps, j, NotStarted)
    ensures JobTold(steps, j, Opening(1)) && Read(setup, steps, j, Opening(1))
  {
  }

  /** In every run every job is where its steps say. */
  lemma {:induction false} AllTold(setup: Setup, steps: seq<Step>, j: nat)
    requires Run(setup, steps).Some? && j < |setup.files|
    ensures var s := Run(setup, steps).value; JobTold(steps, j, s.jobs[j]) && Read(setup, steps, j, s.jobs[j])
  {
    hide JobTold, Read, Apply, JobMove;
    if steps == [] {
      NothingTold(setup, j);
    } else {
      var earlier, step := steps[..|steps| - 1], steps[|steps| - 1];
      assert earlier + [step] == steps;
      AllTold(setup, earlier, j);
      var s := Run(setup, earlier).value;
      if OfJob(step, j) {
        OwnTold(setup, earlier, s, step, j);
        OwnRead(setup, earlier, s, step, j);
      } else {
        OthersStay(setup, s, step, j);
        InvariantHolds(setup, earlier);
        NextUnstarted(setup, s);
        OtherTold(setup, earlier, step, j, s.jobs[j]);
        if step.Start? && s.next == j {
          StartTold(setup, steps, j);
        }
      }
    }
  }

  lemma OthersStay(setup: Setup, s: State, step: Step, j: nat)
    requires |s.jobs| == |setup.files| && j < |s.jobs| && !OfJob(step, j) && Next(setup, s, step).Some?
    ensures Next(setup, s, step).value.jobs[j] == if step.Start? && s.next == j then Opening(1) else s.jobs[j]
  {
    hide JobMove, Apply;
  }

  lemma NextUnstarted(setup: Setup, s: State)
    requires |s.jobs| == |setup.files| && Invariant(setup, s)
    ensures s.next < |s.jobs| ==> s.jobs[s.next].NotStarted?
  {
    hide LocksSound, IndexSound, UploadsSound, LogSound, SkipsSound;
  }

  // ---- Scan and cache ----

  ghost predicate Scanned(steps: seq<Step>, f: Fingerprint) {
    exists k, found :: ScanDone(k, found) in steps && f in found
  }

  predicate EndedWith(pc: Job, f: Fingerprint) {
    pc == Ended(Uploaded(f)) || pc == Ended(Skipped(f))
  }

  ghost predicate SomeEndedWith(jobs: seq<Job>, f: Fingerprint) {
    exists j :: 0 <= j < |jobs| && EndedWith(jobs[j], f)
  }

  /** The scanned set is what a scan found, and the cache has gained exactly what jobs ended with. */
  ghost predicate Kept(setup: Setup, steps: seq<Step>, s: State) {
    && (forall f :: f in s.scanned ==> Scanned(steps, f))
    && (forall f :: f in s.cache <==> f in setup.cached || SomeEndedWith(s.jobs, f))
  }

  lemma CacheMoves(file: string, s: State, step: Step, j: nat, pc: Job)
    requires JobMove(file, s, step, j, pc).Some?
    ensures var m := JobMove(file, s, step, j, pc).value;
            && !pc.Ended?
            && (m.effect.SetIndex? ==> m.effect.found == s.scanned || (step.ScanDone? && step.found == m.effect.found))
            && (if m.effect.Leave? then forall f :: f in m.effect.cache <==> f in s.cache || EndedWith(m.pc, f)
                else forall f :: !EndedWith(m.pc, f))
  {
  }

  lemma EndedMore(jobs: seq<Job>, j: nat, pc: Job, f: Fingerprint)
    requires j < |jobs| && !jobs[j].Ended?
    ensures SomeEndedWith(jobs[j := pc], f) <==> SomeEndedWith(jobs, f) || EndedWith(pc, f)
  {
    var n := jobs[j := pc];
    if SomeEndedWith(jobs, f) {
      var k :| 0 <= k < |jobs| && EndedWith(jobs[k], f);
      assert EndedWith(n[k], f);
    }
    if EndedWith(pc, f) {
      assert EndedWith(n[j], f);
    }
  }

  lemma ScannedMore(steps: seq<Step>, last: Step, f: Fingerprint)
    ensures Scanned(steps, f) ==> Scanned(steps + [last], f)
    ensures last.ScanDone? && f in last.found ==> Scanned(steps + [last], f)
  {
    if Scanned(steps, f) {
      var k, found :| ScanDone(k, found) in steps && f in found;
      assert ScanDone(k, found) in steps + [last];
    }
    if last.ScanDone? {
      assert last == ScanDone(last.job, last.found) && last in steps + [last];
    }
  }

  lemma MovedKept(setup: Setup, steps: seq<Step>, s: State, step: Step, j: nat)
    requires |s.jobs| == |setup.files| && j < |s.jobs| && OfJob(step, j) && Next(setup, s, step).Some?
    requires Kept(setup, steps, s)
    ensures Kept(setup, steps + [step], Next(setup, s, step).value)
  {
    CacheMoves(setup.files[j], s, step, j, s.jobs[j]);
    hide JobMove, SomeEndedWith, Scanned, EndedWith;
    var n := Next(setup, s, step).value;
    forall f
      ensures Scanned(steps, f) ==> Scanned(steps + [step], f)
      ensures step.ScanDone? && f in step.found ==> Scanned(steps + [step], f)
      ensures SomeEndedWith(n.jobs, f) <==> SomeEndedWith(s.jobs, f) || EndedWith(n.jobs[j], f)
    {
      ScannedMore(steps, step, f);
      EndedMore(s.jobs, j, n.jobs[j], f);
    }
  }

  lemma LoopKept(setup: Setup, steps: seq<Step>, s: State, step: Step)
    requires |s.jobs| == |setup.files| && (step.Start? || step.Collect?) && Next(setup, s, step).Some?
    requires s.next < |s.jobs| ==> s.jobs[s.next].NotStarted?
    requires Kept(setup, steps, s)
    ensures Kept(setup, steps + [step], Next(setup, s, step).value)
  {
    hide JobMove, SomeEndedWith, Scanned, Apply;
    var n := Next(setup, s, step).value;
    forall f
      ensures Scanned(steps, f) ==> Scanned(steps + [step], f)
      ensures SomeEndedWith(n.jobs, f) <==> SomeEndedWith(s.jobs, f)
    {
      ScannedMore(steps, step, f);
      if step.Start? {
        EndedMore(s.jobs, s.next, Opening(1), f);
      }
    }
  }

  lemma NothingKept(setup: Setup)
    ensures Kept(setup, [], Initial(setup))
  {
  }

  lemma {:induction false} AllKept(setup: Setup, steps: seq<Step>)
    requires Run(setup, steps).Some?
    ensures Kept(setup, steps, Run(setup, steps).value)
  {
    hide Kept, Apply, JobMove, Initial;
    if steps == [] {
      NothingKept(setup);
    } else {
      var earlier, step := steps[..|steps| - 1], steps[|steps| - 1];
      assert earlier + [step] == steps;
      AllKept(setup, earlier);
      var s := Run(setup, earlier).value;
      if step.Start? || step.Collect? {
        InvariantHolds(setup, earlier);
        NextUnstarted(setup, s);
        LoopKept(setup, earlier, s, step);
      } else {
        MovedKept(setup, earlier, s, step, step.job);
      }
    }
  }

  // ---- What every file comes to ----

  /** A job ends in a passing error exactly when it has failed in passing ten times, after nine retries, and in a
      permanent one exactly when it has failed for good, once; each retry follows a passing failure. Either error is
      the outcome of its last step. */
  lemma Retried(setup: Setup, steps: seq<Step>, j: nat)
    requires Run(setup, steps).Some? && j < |setup.files|
    ensures var (pc, t, p, r) := (Run(setup, steps).value.jobs[j], Times(steps, Fail(j, true)),
                                  Times(steps, Fail(j, false)), Times(steps, Retry(j)));
            && (pc == Ended(Error(true)) <==> t == 10) && (t == 10 ==> r == 9 && p == 0)
            && (pc == Ended(Error(false)) <==> p == 1) && (p == 1 ==> r == t <= 9)
            && t <= 10 && p <= 1 && r <= t <= r + 1
            && (pc.Ended? && pc.result.Error? ==> LastOwn(steps, j) == Some(Fail(j, pc.result.transient)))
  {
    hide Run, Content, LastOwn, LastHash, Times;
    AllTold(setup, steps, j);
  }

  /** The file's content is at the server, as far as the cache, a scan or this run's uploads tell. */
  ghost predicate Present(setup: Setup, steps: seq<Step>, s: State, f: Fingerprint) {
    f in setup.cached || Scanned(steps, f) || exists u :: u in s.uploads && u.fp == f
  }

  /** Every collected result means what it says: an error that the job's last step failed, ten times in passing or once
      for good; an upload that the content the job read last was uploaded, in one go, by this job; a skip that it is
      present already, or that the file was known as imported; what was uploaded or skipped is remembered. */
  lemma ResultsMean(setup: Setup, steps: seq<Step>, j: nat)
    requires Run(setup, steps).Some? && j in Run(setup, steps).value.results
    ensures var (s, r) := (Run(setup, steps).value, Run(setup, steps).value.results[j]);
            && (r.Error? ==>
                  && LastOwn(steps, j) == Some(Fail(j, r.transient))
                  && Times(steps, Fail(j, r.transient)) == (if r.transient then 10 else 1))
            && (r.Uploaded? || r.Skipped? ==> LastHash(steps, j) == Some(r.fp) && r.fp in s.cache)
            && (r.Uploaded? ==> Upload(j, r.fp) in s.uploads && Times(steps, Finish(j)) == 1)
            && (r.Skipped? ==> Present(setup, steps, s, r.fp))
            && (r.SkippedUnread? ==> j in setup.imported)
  {
    InvariantHolds(setup, steps);
    AllKept(setup, steps);
    ResultOf(setup, Run(setup, steps).value, j);
    AllTold(setup, steps, j);
    hide Invariant, Run, Scanned, LastOwn, LastHash, Times;
    var s := Run(setup, steps).value;
    if s.results[j].Uploaded? || s.results[j].Skipped? {
      assert EndedWith(s.jobs[j], s.results[j].fp);
    }
  }

  lemma ResultOf(setup: Setup, s: State, j: nat)
    requires |s.jobs| == |setup.files| && Invariant(setup, s) && j in s.results
    ensures j < |s.jobs| && s.jobs[j] == Ended(s.results[j])
    ensures s.results[j].Uploaded? ==> Upload(j, s.results[j].fp) in s.uploads
    ensures s.results[j].Skipped? ==> Vouched(setup, s.scanned, s.uploads, s.results[j].fp)
  {
    hide LocksSound, IndexSound, UploadsSound;
    assert s.results[j].Uploaded? ==> LoggedBy(s.jobs[j], s.results[j].fp);
  }

  /** No failure was met. */
  ghost predicate Faultless(steps: seq<Step>) {
    forall j, transient :: Fail(j, transient) !in steps
  }

  lemma FaultlessTimes(steps: seq<Step>, j: nat)
    requires Faultless(steps)
    ensures Times(steps, Fail(j, true)) == 0 && Times(steps, Fail(j, false)) == 0
  {
    assert Fail(j, true) !in multiset(steps) && Fail(j, false) !in multiset(steps);
  }

  lemma FailedJob(setup: Setup, s: State) returns (j: nat)
    requires |s.jobs| == |setup.files| && Invariant(setup, s) && s.failed
    ensures j < |s.jobs| && s.jobs[j] == Ended(Error(false))
  {
    hide LocksSound, IndexSound, UploadsSound, LogSound, SkipsSound;
    j :| j in s.results && s.results[j] == Error(false);
  }

  lemma FaultlessGoesOn(setup: Setup, steps: seq<Step>)
    requires Run(setup, steps).Some? && Faultless(steps)
    ensures !Run(setup, steps).value.failed
  {
    hide Run, Invariant, Faultless, Read, Times;
    InvariantHolds(setup, steps);
    if Run(setup, steps).value.failed {
      var j := FailedJob(setup, Run(setup, steps).value);
      AllTold(setup, steps, j);
      FaultlessTimes(steps, j);
    }
  }

  /** When an import that met no failure is over, every file not known as imported has been read, everything that was
      read is present, and what neither the cache nor a scan knew has been uploaded exactly once, by a job that read
      it. */
  lemma NewUploadedOnce(setup: Setup, steps: seq<Step>, f: Fingerprint)
    requires Run(setup, steps).Some? && setup.limit > 0 && Faultless(steps)
    requires var s := Run(setup, steps).value; s.running == {} && Next(setup, s, Start).None?
    ensures forall j :: 0 <= j < |setup.files| && j !in setup.imported ==> exists g :: Hash(j, g) in steps
    ensures var s := Run(setup, steps).value;
            (exists j :: Hash(j, f) in steps) ==>
              && Present(setup, steps, s, f)
              && (f !in setup.cached && !Scanned(steps, f) ==>
                    exists k :: UploadedAt(s.uploads, f, k) && Hash(s.uploads[k].job, f) in steps)
  {
    FaultlessGoesOn(setup, steps);
    AllAccountedFor(setup, steps);
    hide Run, Scanned;
    forall j: nat | j < |setup.files|
      ensures j !in setup.imported ==> exists g :: Hash(j, g) in steps
      ensures Hash(j, f) in steps ==> EndedWith(Run(setup, steps).value.jobs[j], f)
    {
      FaultlessJob(setup, steps, j);
    }
    if j :| Hash(j, f) in steps {
      HashOfJob(setup, steps, j, f);
      FaultlessJob(setup, steps, j);
      ResultsMean(setup, steps, j);
      var s := Run(setup, steps).value;
      if u :| u in s.uploads && u.fp == f {
        var k :| 0 <= k < |s.uploads| && s.uploads[k] == u;
        UploadWasRead(setup, steps, k);
      }
    }
  }

  /** The content is uploaded there and nowhere else. */
  ghost predicate UploadedAt(uploads: seq<Upload>, f: Fingerprint, k: int) {
    0 <= k < |uploads| && forall l :: 0 <= l < |uploads| ==> (uploads[l].fp == f <==> l == k)
  }

  lemma FaultlessJob(setup: Setup, steps: seq<Step>, j: nat)
    requires Run(setup, steps).Some? && Faultless(steps) && j < |setup.files|
    requires j in Run(setup, steps).value.results
    ensures var s := Run(setup, steps).value;
            && s.jobs[j] == Ended(s.results[j]) && !s.results[j].Error?
            && (j !in setup.imported ==> exists g :: Hash(j, g) in steps)
            && forall f :: Hash(j, f) in steps ==> EndedWith(s.jobs[j], f)
  {
    AllTold(setup, steps, j);
    FaultlessTimes(steps, j);
    InvariantHolds(setup, steps);
    ResultOf(setup, Run(setup, steps).value, j);
    hide Run, Invariant, Times, LastOwn;
    var pc := Run(setup, steps).value.jobs[j];
    if Content(pc).Some? {
      LastHashTaken(steps, j);
    }
  }

  lemma {:induction false} LastHashTaken(steps: seq<Step>, j: nat)
    ensures LastHash(steps, j).Some? ==> Hash(j, LastHash(steps, j).value) in steps
  {
    if steps != [] {
      LastHashTaken(steps[..|steps| - 1], j);
    }
  }

  lemma {:induction false} HashOfJob(setup: Setup, steps: seq<Step>, j: nat, f: Fingerprint)
    requires Run(setup, steps).Some? && Hash(j, f) in steps
    ensures j < |setup.files| && |f| == 32
  {
    hide JobMove, Apply;
    var earlier, step := steps[..|steps| - 1], steps[|steps| - 1];
    if step != Hash(j, f) {
      assert steps == earlier + [step];
      HashOfJob(setup, earlier, j, f);
    } else {
      HashIsWhole(setup, Run(setup, earlier).value, j, f);
    }
  }

  lemma HashIsWhole(setup: Setup, s: State, j: nat, f: Fingerprint)
    requires |s.jobs| == |setup.files| && Next(setup, s, Hash(j, f)).Some?
    ensures j < |s.jobs| && |f| == 32
  {
  }

  /** In every run, each upload is of the content its job read last, and the only one of it; there are as many as
      uploads were finished. */
  lemma UploadWasRead(setup: Setup, steps: seq<Step>, k: nat)
    requires Run(setup, steps).Some? && k < |Run(setup, steps).value.uploads|
    ensures var (job, f) := (Run(setup, steps).value.uploads[k].job, Run(setup, steps).value.uploads[k].fp);
            && LastHash(steps, job) == Some(f) && Hash(job, f) in steps && |f| == 32
            && Times(steps, Finish(job)) == 1
            && UploadedAt(Run(setup, steps).value.uploads, f, k)
  {
    InvariantHolds(setup, steps);
    var s := Run(setup, steps).value;
    UploadOf(setup, s, k);
    hide Run, Invariant, UploadedAt, LastHash, LastOwn, Times;
    AllTold(setup, steps, s.uploads[k].job);
    LastHashTaken(steps, s.uploads[k].job);
    HashOfJob(setup, steps, s.uploads[k].job, s.uploads[k].fp);
  }

  lemma UploadOf(setup: Setup, s: State, k: nat)
    requires |s.jobs| == |setup.files| && Invariant(setup, s) && k < |s.uploads|
    ensures s.uploads[k].job < |s.jobs| && LoggedBy(s.jobs[s.uploads[k].job], s.uploads[k].fp)
    ensures UploadedAt(s.uploads, s.uploads[k].fp, k)
  {
    hide LocksSound, IndexSound, SkipsSound, Counted;
    forall l | 0 <= l < |s.uploads|
      ensures s.uploads[l].fp == s.uploads[k].fp <==> l == k
    {
    }
  }

  /** A file known as imported can be skipped unread, and a content the cache knows without asking for the index. */
  lemma CacheSpares(setup: Setup, s: State, j: nat)
    requires |s.jobs| == |setup.files| && j < |s.jobs|
    ensures s.jobs[j].Opening? ==> (Next(setup, s, SkipUnread(j)).Some? <==> j in setup.imported)
    ensures s.jobs[j].Opening? && j in setup.imported ==>
              Next(setup, s, SkipUnread(j)).value.jobs[j] == Ended(SkippedUnread)
    ensures s.jobs[j].Checking? ==> (Next(setup, s, SkipCached(j)).Some? <==> s.jobs[j].fp in s.cache)
    ensures s.jobs[j].Checking? && s.jobs[j].fp in s.cache ==>
              Next(setup, s, SkipCached(j)).value.jobs[j] == Ended(Skipped(s.jobs[j].fp))
  {
    hide Dropped;
  }

  /** An attempt can fail while it opens, hashes, scans or uploads, and nowhere else. That gives up the job's locks and
      an unfinished scan and changes nothing else; up to the tenth attempt a passing failure is followed by another. */
  lemma FailureWorks(setup: Setup, s: State, j: nat, transient: bool)
    requires |s.jobs| == |setup.files| && j < |s.jobs|
    ensures Next(setup, s, Fail(j, transient)).Some?
            <==> s.jobs[j].Opening? || s.jobs[j].Hashing? || s.jobs[j].Scanning? || s.jobs[j].Uploading?
    ensures var (pc, n) := (s.jobs[j], Next(setup, s, Fail(j, transient)));
            n.Some? ==>
              && n.value.jobs
                 == s.jobs[j := if transient && pc.attempt < 10 then Backoff(pc.attempt) else Ended(Error(transient))]
              && (forall k :: k in n.value.names <==> k in s.names && s.names[k] != j)
              && (forall k :: k in n.value.contents <==> k in s.contents && s.contents[k] != j)
              && n.value.index == (if pc.Scanning? then Unknown else s.index)
              && n.value.cache == s.cache && n.value.uploads == s.uploads && n.value.scanned == s.scanned
  {
  }

  // ---- Every import ends ----

  /** An upper bound on the steps the job has left. */
  function StepsLeft(pc: Job): int {
    match pc
    case NotStarted => 121
    case Opening(a) => 12 * (10 - a) + 11
    case WantName(a) => 12 * (10 - a) + 10
    case Hashing(a) => 12 * (10 - a) + 9
    case WantContent(a, _) => 12 * (10 - a) + 8
    case Checking(a, _) => 12 * (10 - a) + 7
    case WantIndex(a, _) => 12 * (10 - a) + 6
    case Scanning(a, _) => 12 * (10 - a) + 5
    case Deciding(a, _) => 12 * (10 - a) + 4
    case Uploading(a, _) => 12 * (10 - a) + 3
    case Recording(_) => 2
    case Backoff(a) => 12 * (10 - a)
    case Ended(_) => 0
  }

  function JobsLeft(jobs: seq<Job>): int {
    if jobs == [] then 0 else JobsLeft(jobs[..|jobs| - 1]) + StepsLeft(jobs[|jobs| - 1])
  }

  lemma {:induction false} JobsLeftMoved(jobs: seq<Job>, j: nat, pc: Job)
    requires j < |jobs|
    ensures JobsLeft(jobs[j := pc]) == JobsLeft(jobs) - StepsLeft(jobs[j]) + StepsLeft(pc)
  {
    hide StepsLeft;
    if j == |jobs| - 1 {
      assert jobs[j := pc][..j] == jobs[..j];
    } else {
      assert jobs[j := pc][..|jobs| - 1] == jobs[..|jobs| - 1][j := pc];
      JobsLeftMoved(jobs[..|jobs| - 1], j, pc);
    }
  }

  lemma {:induction false} JobsLeftBounds(jobs: seq<Job>)
    requires forall j :: 0 <= j < |jobs| ==> StepsLeft(jobs[j]) >= 0
    ensures JobsLeft(jobs) >= 0
    ensures (forall j :: 0 <= j < |jobs| ==> jobs[j].NotStarted?) ==> JobsLeft(jobs) == 121 * |jobs|
  {
    if jobs != [] {
      JobsLeftBounds(jobs[..|jobs| - 1]);
    }
  }

  lemma MoveSpends(file: string, s: State, step: Step, j: nat, pc: Job, t: nat, p: nat, r: nat, f: nat)
    requires Told(pc, t, p, r, f) && JobMove(file, s, step, j, pc).Some?
    ensures StepsLeft(JobMove(file, s, step, j, pc).value.pc) < StepsLeft(pc)
  {
  }

  lemma StartSpends(setup: Setup, s: State)
    requires |s.jobs| == |setup.files| && Invariant(setup, s) && Next(setup, s, Start).Some?
    ensures var n := Next(setup, s, Start).value; JobsLeft(n.jobs) + |n.running| < JobsLeft(s.jobs) + |s.running|
  {
    NextUnstarted(setup, s);
    NextNotRunning(setup, s);
    JobsLeftMoved(s.jobs, s.next, Opening(1));
    hide Invariant, JobsLeft, JobMove, Apply;
  }

  lemma CollectSpends(setup: Setup, s: State, j: nat)
    requires |s.jobs| == |setup.files| && Next(setup, s, Collect(j)).Some?
    ensures var n := Next(setup, s, Collect(j)).value; JobsLeft(n.jobs) + |n.running| < JobsLeft(s.jobs) + |s.running|
  {
    hide JobsLeft, JobMove, Apply;
    assert s.running == (s.running - {j}) + {j};
  }

  lemma OwnSpends(setup: Setup, s: State, step: Step, j: nat, t: nat, p: nat, r: nat, f: nat)
    requires |s.jobs| == |setup.files| && OfJob(step, j) && Next(setup, s, step).Some? && j < |s.jobs|
    requires Told(s.jobs[j], t, p, r, f)
    ensures var n := Next(setup, s, step).value; JobsLeft(n.jobs) + |n.running| < JobsLeft(s.jobs) + |s.running|
  {
    hide JobsLeft, JobMove, Told, StepsLeft;
    MoveSpends(setup.files[j], s, step, j, s.jobs[j], t, p, r, f);
    JobsLeftMoved(s.jobs, j, Next(setup, s, step).value.jobs[j]);
  }

  /** Every step uses up one of what is left. */
  lemma StepSpends(setup: Setup, steps: seq<Step>, s: State, step: Step)
    requires Run(setup, steps) == Some(s) && Next(setup, s, step).Some?
    ensures var n := Next(setup, s, step).value;
            JobsLeft(n.jobs) + |n.running| < JobsLeft(s.jobs) + |s.running|
  {
    hide Run, Next, JobsLeft, Times, Told, Invariant;
    InvariantHolds(setup, steps);
    if step.Start? {
      StartSpends(setup, s);
    } else if step.Collect? {
      CollectSpends(setup, s, step.job);
    } else {
      JobNamed(setup, s, step);
      var j := step.job;
      AllTold(setup, steps, j);
      OwnSpends(setup, s, step, j, Times(steps, Fail(j, true)), Times(steps, Fail(j, false)),
                Times(steps, Retry(j)), Times(steps, Finish(j)));
    }
  }

  lemma JobNamed(setup: Setup, s: State, step: Step)
    requires |s.jobs| == |setup.files| && !step.Start? && Next(setup, s, step).Some?
    ensures step.job < |s.jobs|
  {
    hide JobMove, Apply;
  }

  lemma NextNotRunning(setup: Setup, s: State)
    requires |s.jobs| == |setup.files| && Invariant(setup, s)
    ensures s.next !in s.running
  {
    hide LocksSound, IndexSound, UploadsSound, LogSound, SkipsSound;
  }

  lemma {:induction false} Spent(setup: Setup, steps: seq<Step>)
    requires Run(setup, steps).Some?
    ensures var s := Run(setup, steps).value; |steps| + JobsLeft(s.jobs) + |s.running| <= 121 * |setup.files|
  {
    hide JobsLeft, Next;
    if steps == [] {
      JobsLeftBounds(Initial(setup).jobs);
    } else {
      Spent(setup, steps[..|steps| - 1]);
      StepSpends(setup, steps[..|steps| - 1], Run(setup, steps[..|steps| - 1]).value, steps[|steps| - 1]);
    }
  }

  /** Every import ends: no run takes more than 121 steps a file. */
  lemma ImportEnds(setup: Setup, steps: seq<Step>)
    requires Run(setup, steps).Some?
    ensures |steps| <= 121 * |setup.files|
  {
    Spent(setup, steps);
    var s := Run(setup, steps).value;
    forall j | 0 <= j < |s.jobs|
      ensures StepsLeft(s.jobs[j]) >= 0
    {
      AllTold(setup, steps, j);
    }
    hide Run, StepsLeft, JobsLeft;
    JobsLeftBounds(s.jobs);
  }
}
