/** The leased analysis-job queue of packages/corpus-store/python/jobs.py and the fenced
    ingest of packages/corpus-store/python/store.py, as transitions on a database value.
    One transaction is one step; `now` is whatever the clock said inside it, so clocks may
    skip or go back.  A crashed worker is one that takes no further steps. */
module JobQueue {
  import opened Options
  import opened Sorting

  type JobId = nat
  type RunId = nat
  type Replay = int
  type Worker = int
  type Key = int

  datatype Status = Queued | Running | Succeeded | Failed

  datatype JobError = LeaseExpired | LeaseExpiredMaxAttempts | Reported(code: int)

  /** A row of analysis_jobs. */
  datatype Job = Job(replay: Replay, status: Status, priority: int, created: int, available: int,
                     started: Option<int>, finished: Option<int>, attempts: nat, maxAttempts: nat,
                     worker: Option<Worker>, lease: Option<int>, heartbeat: Option<int>,
                     result: Option<RunId>, error: Option<JobError>)

  datatype Outcome = InProgress | Completed | Broken | Abandoned

  /** A row of analysis_job_attempts. */
  datatype Attempt = Attempt(worker: Worker, claimedAt: int, recovered: bool,
                             completedAt: Option<int>, outcome: Outcome, error: Option<JobError>)

  /** A row of analysis_runs. */
  datatype Run = Run(key: Key, replay: Replay, indexed: bool)

  type AttemptId = (JobId, nat)

  datatype Db = Db(jobs: map<JobId, Job>, attempts: map<AttemptId, Attempt>,
                   runs: map<RunId, Run>, current: map<Replay, RunId>, sizes: map<Replay, int>,
                   nextJob: JobId, nextRun: RunId)

  datatype Fence = Fence(job: JobId, worker: Worker, attempt: nat)

  datatype Event =
    | Enqueue(replay: Replay, size: int, priority: int, maxAttempts: int, force: bool, now: int)
    | Claim(worker: Worker, leaseMs: int, now: int)
    | Heartbeat(fence: Fence, leaseMs: int, now: int)
    | Succeed(fence: Fence, run: RunId, now: int)
    | Fail(fence: Fence, error: JobError, now: int)
    | Retry(job: JobId, now: int)
    | Ingest(key: Key, replay: Replay, size: int, guard: Option<Fence>, now: int)

  datatype Refusal = SizeMismatch | NotOwner | NotIndexed | NotFailed | Stale | Constraint

  datatype Reply =
    | AlreadyQueued(job: JobId)
    | AlreadyIndexed(run: RunId)
    | JobQueued(job: JobId)
    | Idle
    | Claimed(job: JobId, attempt: nat, recovered: bool)
    | Renewed(expires: int)
    | Finished(job: JobId)
    | Requeued(job: JobId)
    | Indexed(run: RunId)
    | NoOp(run: RunId)
    | Refused(why: Refusal)

  // ----- Queries -----

  predicate IsActive(job: Job) { job.status == Queued || job.status == Running }

  ghost predicate HasActive(db: Db, r: Replay) {
    exists j :: j in db.jobs && db.jobs[j].replay == r && IsActive(db.jobs[j])
  }

  ghost function ActiveJob(db: Db, r: Replay): (j: JobId)
    requires HasActive(db, r)
    ensures j in db.jobs && db.jobs[j].replay == r && IsActive(db.jobs[j])
  {
    var j :| j in db.jobs && db.jobs[j].replay == r && IsActive(db.jobs[j]);
    j
  }

  ghost predicate HasKey(db: Db, k: Key) {
    exists i :: i in db.runs && db.runs[i].key == k
  }

  ghost function RunOf(db: Db, k: Key): (i: RunId)
    requires HasKey(db, k)
    ensures i in db.runs && db.runs[i].key == k
  {
    var i :| i in db.runs && db.runs[i].key == k;
    i
  }

  /** The job is running and leased to this very attempt. */
  predicate Owns(db: Db, f: Fence) {
    f.job in db.jobs
    && db.jobs[f.job].status == Running && db.jobs[f.job].worker == Some(f.worker)
    && db.jobs[f.job].attempts == f.attempt
  }

  predicate Expired(job: Job, now: int) { job.status == Running && job.lease.Some? && job.lease.value <= now }

  predicate Exhausted(job: Job, now: int) { Expired(job, now) && job.attempts >= job.maxAttempts }

  predicate Claimable(job: Job, now: int) {
    && job.attempts < job.maxAttempts
    && ((job.status == Queued && job.available <= now) || Expired(job, now))
  }

  /** The claim order: priority descending, then available time, then row id. */
  predicate ClaimsBefore(jobs: map<JobId, Job>, i: JobId, j: JobId)
    requires i in jobs && j in jobs
  {
    var x, y := jobs[i], jobs[j];
    x.priority > y.priority
    || (x.priority == y.priority && (x.available < y.available || (x.available == y.available && i <= j)))
  }

  ghost predicate IsNextClaim(jobs: map<JobId, Job>, now: int, j: JobId) {
    && j in jobs && Claimable(jobs[j], now)
    && forall i :: i in jobs && Claimable(jobs[i], now) ==> ClaimsBefore(jobs, j, i)
  }

  ghost predicate AnyClaimable(jobs: map<JobId, Job>, now: int) {
    exists j :: j in jobs && Claimable(jobs[j], now)
  }

  lemma {:induction false} NextClaimExists(jobs: map<JobId, Job>, now: int)
    requires AnyClaimable(jobs, now)
    ensures exists j :: IsNextClaim(jobs, now, j)
    decreases |jobs|
  {
    var c :| c in jobs && Claimable(jobs[c], now);
    var rest := jobs - {c};
    if AnyClaimable(rest, now) {
      assert rest.Keys == jobs.Keys - {c};
      NextClaimExists(rest, now);
      var b :| IsNextClaim(rest, now, b);
      var best := if ClaimsBefore(jobs, b, c) then b else c;
      forall i | i in jobs && Claimable(jobs[i], now)
        ensures ClaimsBefore(jobs, best, i)
      {
        if i != c {
          assert i in rest && ClaimsBefore(rest, b, i);
        }
      }
      assert IsNextClaim(jobs, now, best);
    } else {
      assert forall i :: i in jobs && i != c ==> i in rest && rest[i] == jobs[i];
      assert IsNextClaim(jobs, now, c);
    }
  }

  ghost function NextClaim(jobs: map<JobId, Job>, now: int): (j: JobId)
    requires AnyClaimable(jobs, now)
    ensures IsNextClaim(jobs, now, j)
  {
    NextClaimExists(jobs, now);
    var j :| IsNextClaim(jobs, now, j);
    j
  }

  lemma {:induction false} NextClaimIsUnique(jobs: map<JobId, Job>, now: int, i: JobId, j: JobId)
    requires IsNextClaim(jobs, now, i) && IsNextClaim(jobs, now, j)
    ensures i == j
  {
    assert ClaimsBefore(jobs, i, j) && ClaimsBefore(jobs, j, i);
  }

  // ----- Row updates -----

  function Unleased(job: Job): Job {
    job.(worker := None, lease := None, heartbeat := None)
  }

  function ExpireJob(job: Job, now: int): Job {
    Unleased(job).(status := Failed, finished := Some(now), error := Some(LeaseExpiredMaxAttempts))
  }

  function AbandonAttempt(a: Attempt, now: int, e: JobError): Attempt {
    if a.outcome == InProgress then a.(outcome := Abandoned, completedAt := Some(now), error := Some(e)) else a
  }

  /** `expire_exhausted`: every running job whose lease ran out on its last attempt fails,
      and that attempt is abandoned. */
  ghost function ExpireAll(db: Db, now: int): Db {
    db.(jobs := map j | j in db.jobs :: if Exhausted(db.jobs[j], now) then ExpireJob(db.jobs[j], now) else db.jobs[j],
        attempts := map a: AttemptId | a in db.attempts ::
          if a.0 in db.jobs && Exhausted(db.jobs[a.0], now) && a.1 == db.jobs[a.0].attempts
          then AbandonAttempt(db.attempts[a], now, LeaseExpiredMaxAttempts) else db.attempts[a])
  }

  function ClaimJob(job: Job, worker: Worker, leaseMs: int, now: int): Job {
    job.(status := Running, started := if job.started.Some? then job.started else Some(now), finished := None,
         attempts := job.attempts + 1, worker := Some(worker), lease := Some(now + leaseMs), heartbeat := Some(now),
         error := None)
  }

  function FinishJob(job: Job, run: Option<RunId>, e: Option<JobError>, now: int): Job {
    Unleased(job).(status := if run.Some? then Succeeded else Failed, finished := Some(now), result := run, error := e)
  }

  function FinishAttempt(a: Attempt, e: Option<JobError>, now: int): Attempt {
    if e.Some? then a.(outcome := Broken, completedAt := Some(now), error := e)
    else a.(outcome := Completed, completedAt := Some(now))
  }

  function Requeue(job: Job, now: int): Job {
    Unleased(job).(status := Queued, available := now, started := None, finished := None, result := None, error := None,
                   maxAttempts := if job.maxAttempts >= job.attempts + 1 then job.maxAttempts else job.attempts + 1)
  }

  // ----- The transactions -----

  ghost function DoEnqueue(db: Db, e: Event): (Db, Reply)
    requires e.Enqueue?
  {
    var db1 := if e.replay in db.sizes then db else db.(sizes := db.sizes[e.replay := e.size]);
    if db1.sizes[e.replay] != e.size then (db, Refused(SizeMismatch))
    else if HasActive(db1, e.replay) then (db1, AlreadyQueued(ActiveJob(db1, e.replay)))
    else if e.replay in db1.current && !e.force then (db1, AlreadyIndexed(db1.current[e.replay]))
    else if e.maxAttempts <= 0 then (db, Refused(Constraint))
    else
      var job := Job(e.replay, Queued, e.priority, e.now, e.now, None, None, 0, e.maxAttempts, None, None, None, None, None);
      (db1.(jobs := db1.jobs[db1.nextJob := job], nextJob := db1.nextJob + 1), JobQueued(db1.nextJob))
  }

  /** Claim job `j` for a new attempt, abandoning the attempt whose lease ran out. */
  function ClaimRow(db: Db, j: JobId, worker: Worker, leaseMs: int, now: int): (Db, Reply)
    requires j in db.jobs
  {
    var job := db.jobs[j];
    var recovered := job.status == Running;
    var last := (j, job.attempts);
    var attempts := if recovered && last in db.attempts
                    then db.attempts[last := AbandonAttempt(db.attempts[last], now, LeaseExpired)] else db.attempts;
    var next := (j, job.attempts + 1);
    (db.(jobs := db.jobs[j := ClaimJob(job, worker, leaseMs, now)],
         attempts := attempts[next := Attempt(worker, now, recovered, None, InProgress, None)]),
     Claimed(j, job.attempts + 1, recovered))
  }

  ghost function DoClaim(db: Db, e: Event): (Db, Reply)
    requires e.Claim?
  {
    var swept := ExpireAll(db, e.now);
    if !AnyClaimable(swept.jobs, e.now) then (swept, Idle)
    else
      var j := NextClaim(swept.jobs, e.now);
      if (j, swept.jobs[j].attempts + 1) in swept.attempts then (db, Refused(Constraint))
      else ClaimRow(swept, j, e.worker, e.leaseMs, e.now)
  }

  function DoHeartbeat(db: Db, e: Event): (Db, Reply)
    requires e.Heartbeat?
  {
    if !Owns(db, e.fence) then (db, Refused(NotOwner))
    else
      var job := db.jobs[e.fence.job].(lease := Some(e.now + e.leaseMs), heartbeat := Some(e.now));
      (db.(jobs := db.jobs[e.fence.job := job]), Renewed(e.now + e.leaseMs))
  }

  function FinishRow(db: Db, f: Fence, run: Option<RunId>, e: Option<JobError>, now: int): Db
    requires f.job in db.jobs
  {
    var id := (f.job, f.attempt);
    db.(jobs := db.jobs[f.job := FinishJob(db.jobs[f.job], run, e, now)],
        attempts := if id in db.attempts then db.attempts[id := FinishAttempt(db.attempts[id], e, now)] else db.attempts)
  }

  function DoSucceed(db: Db, e: Event): (Db, Reply)
    requires e.Succeed?
  {
    if !Owns(db, e.fence) then (db, Refused(NotOwner))
    else if !(e.run in db.runs && db.runs[e.run].replay == db.jobs[e.fence.job].replay && db.runs[e.run].indexed) then
      (db, Refused(NotIndexed))
    else (FinishRow(db, e.fence, Some(e.run), None, e.now), Finished(e.fence.job))
  }

  function DoFail(db: Db, e: Event): (Db, Reply)
    requires e.Fail?
  {
    if !Owns(db, e.fence) then (db, Refused(NotOwner))
    else (FinishRow(db, e.fence, None, Some(e.error), e.now), Finished(e.fence.job))
  }

  /** Requeueing is refused by the unique index when the replay has another active job. */
  ghost function DoRetry(db: Db, e: Event): (Db, Reply)
    requires e.Retry?
  {
    if !(e.job in db.jobs && db.jobs[e.job].status == Failed) then (db, Refused(NotFailed))
    else if HasActive(db, db.jobs[e.job].replay) then (db, Refused(Constraint))
    else (db.(jobs := db.jobs[e.job := Requeue(db.jobs[e.job], e.now)]), Requeued(e.job))
  }

  /** The fence of a job-driven ingest: unlike heartbeat and finish it also needs an
      unexpired lease and the job's own replay. */
  predicate FenceHolds(db: Db, f: Fence, replay: Replay, now: int) {
    Owns(db, f) && db.jobs[f.job].lease.Some? && db.jobs[f.job].lease.value > now && db.jobs[f.job].replay == replay
  }

  ghost function DoIngest(db: Db, e: Event): (Db, Reply)
    requires e.Ingest?
  {
    if e.guard.Some? && !FenceHolds(db, e.guard.value, e.replay, e.now) then (db, Refused(Stale))
    else if HasKey(db, e.key) then
      if db.runs[RunOf(db, e.key)].indexed then (db, NoOp(RunOf(db, e.key))) else (db, Refused(NotIndexed))
    else
      var id := db.nextRun;
      (db.(runs := db.runs[id := Run(e.key, e.replay, true)], current := db.current[e.replay := id],
           sizes := if e.replay in db.sizes then db.sizes else db.sizes[e.replay := e.size], nextRun := id + 1),
       Indexed(id))
  }

  ghost function Apply(db: Db, e: Event): (Db, Reply) {
    match e
    case Enqueue(_, _, _, _, _, _) => DoEnqueue(db, e)
    case Claim(_, _, _) => DoClaim(db, e)
    case Heartbeat(_, _, _) => DoHeartbeat(db, e)
    case Succeed(_, _, _) => DoSucceed(db, e)
    case Fail(_, _, _) => DoFail(db, e)
    case Retry(_, _) => DoRetry(db, e)
    case Ingest(_, _, _, _, _) => DoIngest(db, e)
  }

  ghost function Execute(db: Db, events: seq<Event>): Db {
    if events == [] then db else Apply(Execute(db, events[..|events| - 1]), events[|events| - 1]).0
  }

  const EMPTY: Db := Db(map[], map[], map[], map[], map[], 1, 1)

  // ----- The invariant -----

  /** Which columns of a job are set, as a function of its status. */
  predicate JobShape(job: Job) {
    && (job.status == Running <==> job.worker.Some?)
    && (job.status == Running <==> job.lease.Some?)
    && (job.status == Running <==> job.heartbeat.Some?)
    && (job.started.None? <==> job.status == Queued)
    && (job.finished.Some? <==> job.status == Succeeded || job.status == Failed)
    && (job.result.Some? <==> job.status == Succeeded)
    && (job.error.Some? <==> job.status == Failed)
    && job.attempts <= job.maxAttempts && 0 < job.maxAttempts
    && (job.status == Queued ==> job.attempts < job.maxAttempts)
    && (job.status != Queued ==> 0 < job.attempts)
  }

  predicate AttemptShape(a: Attempt) {
    && (a.completedAt.Some? <==> a.outcome != InProgress)
    && (a.error.Some? <==> a.outcome == Broken || a.outcome == Abandoned)
  }

  /** What the last attempt of a job says about its status. */
  predicate LastAttemptAgrees(job: Job, a: Attempt) {
    match job.status
    case Queued => a.outcome == Broken || a.outcome == Abandoned
    case Running => a.outcome == InProgress && job.worker == Some(a.worker)
    case Succeeded => a.outcome == Completed
    case Failed => a.outcome == Broken || a.outcome == Abandoned
  }

  /** Attempt rows of a job are numbered exactly 1..attempts. */
  ghost predicate AttemptsNumbered(db: Db) {
    forall j: JobId, n: nat :: (j, n) in db.attempts <==> j in db.jobs && 1 <= n <= db.jobs[j].attempts
  }

  ghost predicate AttemptsAgree(db: Db)
    requires AttemptsNumbered(db)
  {
    forall j: JobId, n: nat :: (j, n) in db.attempts ==>
      && AttemptShape(db.attempts[(j, n)])
      && if n == db.jobs[j].attempts then LastAttemptAgrees(db.jobs[j], db.attempts[(j, n)])
         else db.attempts[(j, n)].outcome == Broken || db.attempts[(j, n)].outcome == Abandoned
  }

  ghost predicate JobsShaped(db: Db) {
    forall j :: j in db.jobs ==> j < db.nextJob && JobShape(db.jobs[j])
  }

  ghost predicate OneActivePerReplay(db: Db) {
    forall i, j ::
      (i in db.jobs && j in db.jobs && IsActive(db.jobs[i]) && IsActive(db.jobs[j]) && db.jobs[i].replay == db.jobs[j].replay)
      ==> i == j
  }

  predicate ResultIsIndexed(db: Db, job: Job) {
    job.result.Some? ==>
      job.result.value in db.runs && db.runs[job.result.value].indexed && db.runs[job.result.value].replay == job.replay
  }

  ghost predicate ResultsIndexed(db: Db) {
    forall j :: j in db.jobs ==> ResultIsIndexed(db, db.jobs[j])
  }

  ghost predicate RunsConsistent(db: Db) {
    && (forall i :: i in db.runs ==> i < db.nextRun && db.runs[i].indexed && db.runs[i].replay in db.sizes)
    && (forall i, i' :: i in db.runs && i' in db.runs && db.runs[i].key == db.runs[i'].key ==> i == i')
    && (forall r :: r in db.current ==> db.current[r] in db.runs && db.runs[db.current[r]].replay == r)
  }

  ghost predicate Inv(db: Db) {
    && JobsShaped(db) && AttemptsNumbered(db) && AttemptsAgree(db) && OneActivePerReplay(db)
    && ResultsIndexed(db) && RunsConsistent(db)
  }

  // ----- Every transaction keeps the invariant -----

  lemma {:induction false} EmptyKeepsInv()
    ensures Inv(EMPTY)
  {
  }

  /** A step that leaves a job where the invariant wants it and touches no other row. */
  lemma {:induction false} NewJobKeepsInv(db: Db, job: Job)
    requires Inv(db) && job.status == Queued && JobShape(job) && job.attempts == 0 && !HasActive(db, job.replay)
    ensures Inv(db.(jobs := db.jobs[db.nextJob := job], nextJob := db.nextJob + 1))
  {
    var db' := db.(jobs := db.jobs[db.nextJob := job], nextJob := db.nextJob + 1);
    assert db.nextJob !in db.jobs;
    assert AttemptsNumbered(db');
    assert OneActivePerReplay(db');
    hide JobShape, AttemptShape, LastAttemptAgrees, OneActivePerReplay;
    assert AttemptsAgree(db');
    assert ResultsIndexed(db');
  }

  lemma {:induction false} SizesOnly(db: Db, sizes: map<Replay, int>, r: Replay)
    requires Inv(db) && db.sizes.Keys <= sizes.Keys
    ensures Inv(db.(sizes := sizes))
    ensures HasActive(db.(sizes := sizes), r) <==> HasActive(db, r)
  {
    hide JobShape, AttemptShape, LastAttemptAgrees, AttemptsNumbered, IsActive;
    var db' := db.(sizes := sizes);
    assert AttemptsNumbered(db') by { SameAttempts(db, db'); }
    assert AttemptsAgree(db') by { SameAttempts(db, db'); }
    assert forall j :: j in db.jobs ==> ResultIsIndexed(db, db.jobs[j]);
    assert forall j :: j in db.jobs ==> db'.jobs[j] == db.jobs[j] && (HasActive(db, db.jobs[j].replay) || !IsActive(db.jobs[j]));
  }

  lemma {:induction false} SameAttempts(db: Db, db': Db)
    requires db.jobs == db'.jobs && db.attempts == db'.attempts && AttemptsNumbered(db) && AttemptsAgree(db)
    ensures AttemptsNumbered(db') && AttemptsAgree(db')
  {
    hide AttemptShape, LastAttemptAgrees;
  }

  lemma {:induction false} EnqueueKeepsInv(db: Db, e: Event)
    requires Inv(db) && e.Enqueue?
    ensures Inv(DoEnqueue(db, e).0)
  {
    hide Inv, HasActive;
    var sizes := if e.replay in db.sizes then db.sizes else db.sizes[e.replay := e.size];
    SizesOnly(db, sizes, e.replay);
    if DoEnqueue(db, e).1.JobQueued? {
      NewJobKeepsInv(db.(sizes := sizes),
        Job(e.replay, Queued, e.priority, e.now, e.now, None, None, 0, e.maxAttempts, None, None, None, None, None));
    }
  }

  /** One attempt of an expiring job. */
  lemma {:induction false} ExpiryOfAttempt(job: Job, a: Attempt, n: nat, now: int)
    requires JobShape(job) && AttemptShape(a)
    requires if n == job.attempts then LastAttemptAgrees(job, a) else a.outcome == Broken || a.outcome == Abandoned
    requires Exhausted(job, now)
    ensures var job', a' := ExpireJob(job, now), if n == job.attempts then AbandonAttempt(a, now, LeaseExpiredMaxAttempts) else a;
            && AttemptShape(a') && job'.attempts == job.attempts
            && if n == job'.attempts then LastAttemptAgrees(job', a') else a'.outcome == Broken || a'.outcome == Abandoned
  {
  }

  lemma {:induction false} ExpireKeepsNumbers(db: Db, now: int)
    requires AttemptsNumbered(db)
    ensures AttemptsNumbered(ExpireAll(db, now))
  {
    var db' := ExpireAll(db, now);
    assert db'.jobs.Keys == db.jobs.Keys && db'.attempts.Keys == db.attempts.Keys;
    assert forall j :: j in db.jobs ==> db'.jobs[j].attempts == db.jobs[j].attempts;
    hide ExpireAll, Exhausted;
    forall j: JobId, n: nat
      ensures (j, n) in db'.attempts <==> j in db'.jobs && 1 <= n <= db'.jobs[j].attempts
    {
      assert (j, n) in db.attempts <==> j in db.jobs && 1 <= n <= db.jobs[j].attempts;
    }
  }

  lemma {:induction false} ExpireKeepsAttempts(db: Db, now: int)
    requires Inv(db)
    ensures AttemptsNumbered(ExpireAll(db, now)) && AttemptsAgree(ExpireAll(db, now))
  {
    var db' := ExpireAll(db, now);
    ExpireKeepsNumbers(db, now);
    hide OneActivePerReplay, ResultsIndexed, RunsConsistent, JobShape, AttemptShape, LastAttemptAgrees, ExpireJob, AbandonAttempt,
      Exhausted;
    forall j: JobId, n: nat | (j, n) in db'.attempts
      ensures AttemptShape(db'.attempts[(j, n)])
      ensures if n == db'.jobs[j].attempts then LastAttemptAgrees(db'.jobs[j], db'.attempts[(j, n)])
              else db'.attempts[(j, n)].outcome == Broken || db'.attempts[(j, n)].outcome == Abandoned
    {
      assert (j, n) in db.attempts && JobShape(db.jobs[j]);
      if Exhausted(db.jobs[j], now) {
        ExpiryOfAttempt(db.jobs[j], db.attempts[(j, n)], n, now);
      }
    }
    hide *;
  }

  lemma {:induction false} ExpiryOfJob(job: Job, now: int)
    requires JobShape(job) && Exhausted(job, now)
    ensures JobShape(ExpireJob(job, now)) && ExpireJob(job, now).result == job.result == None
    ensures !IsActive(ExpireJob(job, now)) && ExpireJob(job, now).replay == job.replay
  {
  }

  lemma {:induction false} ExpireKeepsInv(db: Db, now: int)
    requires Inv(db)
    ensures Inv(ExpireAll(db, now))
  {
    ExpireKeepsAttempts(db, now);
    var db' := ExpireAll(db, now);
    hide AttemptsAgree, AttemptsNumbered, JobShape, IsActive, ExpireJob, Exhausted;
    forall j | j in db'.jobs
      ensures j < db'.nextJob && JobShape(db'.jobs[j]) && ResultIsIndexed(db', db'.jobs[j])
      ensures IsActive(db'.jobs[j]) ==> IsActive(db.jobs[j])
      ensures db'.jobs[j].replay == db.jobs[j].replay
    {
      assert j in db.jobs && ResultIsIndexed(db, db.jobs[j]);
      if Exhausted(db.jobs[j], now) {
        ExpiryOfJob(db.jobs[j], now);
      }
    }
    hide ResultIsIndexed, ExpireAll;
  }

  lemma {:induction false} ClaimRowKeepsAttempts(db: Db, j: JobId, worker: Worker, leaseMs: int, now: int)
    requires Inv(db) && j in db.jobs && Claimable(db.jobs[j], now)
    ensures AttemptsNumbered(ClaimRow(db, j, worker, leaseMs, now).0)
    ensures AttemptsAgree(ClaimRow(db, j, worker, leaseMs, now).0)
  {
    hide OneActivePerReplay, ResultsIndexed, RunsConsistent;
    var db' := ClaimRow(db, j, worker, leaseMs, now).0;
    var k := db.jobs[j].attempts;
    assert (j, k + 1) !in db.attempts;
    assert k > 0 <==> (j, k) in db.attempts;
    forall i: JobId, n: nat
      ensures (i, n) in db'.attempts <==> i in db'.jobs && 1 <= n <= db'.jobs[i].attempts
    {
      assert (i, n) in db.attempts <==> i in db.jobs && 1 <= n <= db.jobs[i].attempts;
    }
    forall i: JobId, n: nat | (i, n) in db'.attempts
      ensures AttemptShape(db'.attempts[(i, n)])
      ensures if n == db'.jobs[i].attempts then LastAttemptAgrees(db'.jobs[i], db'.attempts[(i, n)])
              else db'.attempts[(i, n)].outcome == Broken || db'.attempts[(i, n)].outcome == Abandoned
    {
      if !(i == j && n == k + 1) {
        assert (i, n) in db.attempts;
      }
    }
  }

  lemma {:induction false} ClaimRowKeepsInv(db: Db, j: JobId, worker: Worker, leaseMs: int, now: int)
    requires Inv(db) && j in db.jobs && Claimable(db.jobs[j], now)
    ensures Inv(ClaimRow(db, j, worker, leaseMs, now).0)
  {
    ClaimRowKeepsAttempts(db, j, worker, leaseMs, now);
    hide AttemptsAgree, AttemptsNumbered;
    assert ResultIsIndexed(db, db.jobs[j]);
  }

  lemma {:induction false} ClaimKeepsInv(db: Db, e: Event)
    requires Inv(db) && e.Claim?
    ensures Inv(DoClaim(db, e).0)
  {
    ExpireKeepsInv(db, e.now);
    var swept := ExpireAll(db, e.now);
    hide ExpireAll, Inv, ClaimRow;
    if AnyClaimable(swept.jobs, e.now) {
      ClaimRowKeepsInv(swept, NextClaim(swept.jobs, e.now), e.worker, e.leaseMs, e.now);
    }
  }

  /** Rewriting one job without touching its attempts. */
  lemma {:induction false} JobUpdateKeepsInv(db: Db, j: JobId, job: Job)
    requires Inv(db) && j in db.jobs && JobShape(job)
    requires job.replay == db.jobs[j].replay && job.attempts == db.jobs[j].attempts
    requires job.attempts > 0 ==> (j, job.attempts) in db.attempts && LastAttemptAgrees(job, db.attempts[(j, job.attempts)])
    requires IsActive(job) ==> IsActive(db.jobs[j]) || !HasActive(db, job.replay)
    requires ResultIsIndexed(db, job)
    ensures Inv(db.(jobs := db.jobs[j := job]))
  {
    var db' := db.(jobs := db.jobs[j := job]);
    hide JobShape, AttemptShape, LastAttemptAgrees, IsActive;
    assert AttemptsNumbered(db');
    forall i: JobId, n: nat | (i, n) in db'.attempts
      ensures AttemptShape(db'.attempts[(i, n)])
      ensures if n == db'.jobs[i].attempts then LastAttemptAgrees(db'.jobs[i], db'.attempts[(i, n)])
              else db'.attempts[(i, n)].outcome == Broken || db'.attempts[(i, n)].outcome == Abandoned
    {
      assert (i, n) in db.attempts;
    }
    hide AttemptsNumbered, AttemptsAgree;
    assert ResultsIndexed(db');
    assert OneActivePerReplay(db');
  }

  /** What the invariant says about one job and its last attempt. */
  lemma {:induction false} JobFacts(db: Db, j: JobId)
    requires Inv(db) && j in db.jobs
    ensures JobShape(db.jobs[j]) && ResultIsIndexed(db, db.jobs[j])
    ensures db.jobs[j].attempts > 0 ==>
              && (j, db.jobs[j].attempts) in db.attempts
              && LastAttemptAgrees(db.jobs[j], db.attempts[(j, db.jobs[j].attempts)])
  {
    hide JobShape, ResultIsIndexed, LastAttemptAgrees, AttemptShape;
    assert db.jobs[j].attempts > 0 ==> (j, db.jobs[j].attempts) in db.attempts;
  }

  lemma {:induction false} HeartbeatKeepsInv(db: Db, e: Event)
    requires Inv(db) && e.Heartbeat?
    ensures Inv(DoHeartbeat(db, e).0)
  {
    hide Inv;
    if Owns(db, e.fence) {
      var j := e.fence.job;
      JobFacts(db, j);
      JobUpdateKeepsInv(db, j, db.jobs[j].(lease := Some(e.now + e.leaseMs), heartbeat := Some(e.now)));
    }
  }

  lemma {:induction false} FinishKeepsAttempts(db: Db, f: Fence, run: Option<RunId>, e: Option<JobError>, now: int)
    requires Inv(db) && Owns(db, f) && run.Some? != e.Some?
    ensures AttemptsNumbered(FinishRow(db, f, run, e, now)) && AttemptsAgree(FinishRow(db, f, run, e, now))
  {
    hide OneActivePerReplay, ResultsIndexed, RunsConsistent;
    JobFacts(db, f.job);
    var db', id := FinishRow(db, f, run, e, now), (f.job, f.attempt);
    hide JobsShaped;
    assert id in db.attempts;
    assert AttemptsNumbered(db');
    forall i: JobId, n: nat | (i, n) in db'.attempts
      ensures AttemptShape(db'.attempts[(i, n)])
      ensures if n == db'.jobs[i].attempts then LastAttemptAgrees(db'.jobs[i], db'.attempts[(i, n)])
              else db'.attempts[(i, n)].outcome == Broken || db'.attempts[(i, n)].outcome == Abandoned
    {
      assert (i, n) in db.attempts;
    }
  }

  lemma {:induction false} FinishKeepsInv(db: Db, f: Fence, run: Option<RunId>, e: Option<JobError>, now: int)
    requires Inv(db) && Owns(db, f) && run.Some? != e.Some?
    requires run.Some? ==> run.value in db.runs && db.runs[run.value].replay == db.jobs[f.job].replay && db.runs[run.value].indexed
    ensures Inv(FinishRow(db, f, run, e, now))
  {
    FinishKeepsAttempts(db, f, run, e, now);
    JobFacts(db, f.job);
    hide AttemptsNumbered, AttemptsAgree;
  }

  lemma {:induction false} RetryKeepsInv(db: Db, e: Event)
    requires Inv(db) && e.Retry?
    ensures Inv(DoRetry(db, e).0)
  {
    hide Inv, HasActive;
    if DoRetry(db, e).1.Requeued? {
      var j := e.job;
      JobFacts(db, j);
      JobUpdateKeepsInv(db, j, Requeue(db.jobs[j], e.now));
    }
  }

  lemma {:induction false} NewRunKeepsRuns(db: Db, run: Run, sizes: map<Replay, int>)
    requires Inv(db) && !HasKey(db, run.key) && run.indexed && run.replay in sizes && db.sizes.Keys <= sizes.Keys
    ensures var db' := db.(runs := db.runs[db.nextRun := run], current := db.current[run.replay := db.nextRun],
                           sizes := sizes, nextRun := db.nextRun + 1);
            RunsConsistent(db') && ResultsIndexed(db')
  {
    var db' := db.(runs := db.runs[db.nextRun := run], current := db.current[run.replay := db.nextRun],
                   sizes := sizes, nextRun := db.nextRun + 1);
    hide AttemptsNumbered, AttemptsAgree, JobsShaped, OneActivePerReplay;
    assert db.nextRun !in db.runs;
    forall j | j in db'.jobs
      ensures ResultIsIndexed(db', db'.jobs[j])
    {
      assert ResultIsIndexed(db, db.jobs[j]);
    }
    hide ResultIsIndexed;
  }

  lemma {:induction false} IngestKeepsInv(db: Db, e: Event)
    requires Inv(db) && e.Ingest?
    ensures Inv(DoIngest(db, e).0)
  {
    var db' := DoIngest(db, e).0;
    hide AttemptsNumbered, AttemptsAgree, JobShape, IsActive, FenceHolds, ResultsIndexed, RunsConsistent, HasKey;
    if DoIngest(db, e).1.Indexed? {
      NewRunKeepsRuns(db, Run(e.key, e.replay, true), db'.sizes);
      SameAttempts(db, db');
    }
  }

  lemma {:induction false} ApplyKeepsInv(db: Db, e: Event)
    requires Inv(db)
    ensures Inv(Apply(db, e).0)
  {
    hide Inv, DoEnqueue, DoClaim, DoHeartbeat, DoRetry, DoIngest, FinishRow;
    match e
    case Enqueue(_, _, _, _, _, _) => EnqueueKeepsInv(db, e);
    case Claim(_, _, _) => ClaimKeepsInv(db, e);
    case Heartbeat(_, _, _) => HeartbeatKeepsInv(db, e);
    case Succeed(_, _, _) =>
      if DoSucceed(db, e).1.Finished? {
        FinishKeepsInv(db, e.fence, Some(e.run), None, e.now);
      }
    case Fail(_, _, _) =>
      if DoFail(db, e).1.Finished? {
        FinishKeepsInv(db, e.fence, None, Some(e.error), e.now);
      }
    case Retry(_, _) => RetryKeepsInv(db, e);
    case Ingest(_, _, _, _, _) => IngestKeepsInv(db, e);
  }

  /** The invariant holds after every run of the system. */
  lemma {:induction false} ExecuteKeepsInv(db: Db, events: seq<Event>)
    requires Inv(db)
    ensures Inv(Execute(db, events))
  {
    if events != [] {
      ExecuteKeepsInv(db, events[..|events| - 1]);
      ApplyKeepsInv(Execute(db, events[..|events| - 1]), events[|events| - 1]);
    }
  }
}
