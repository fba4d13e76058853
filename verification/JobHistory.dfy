/** What whole runs of the job queue preserve: history is append-only, a superseded attempt
    is fenced off for good, an analysis key is indexed once, and work is bounded. */
module JobHistory {
  import opened JobQueue
  import opened Options
  import opened Sorting

  // ----- History only grows -----

  predicate JobLater(job: Job, job': Job) {
    && job'.replay == job.replay && job'.created == job.created && job'.priority == job.priority
    && job.attempts <= job'.attempts && job.maxAttempts <= job'.maxAttempts
    && (job.status == Succeeded ==> job' == job)
  }

  predicate AttemptLater(a: Attempt, a': Attempt) {
    && a'.worker == a.worker && a'.claimedAt == a.claimedAt && a'.recovered == a.recovered
    && (a.outcome != InProgress ==> a' == a)
  }

  ghost predicate JobsLater(jobs: map<JobId, Job>, jobs': map<JobId, Job>) {
    forall j :: j in jobs ==> j in jobs' && JobLater(jobs[j], jobs'[j])
  }

  ghost predicate AttemptsLater(attempts: map<AttemptId, Attempt>, attempts': map<AttemptId, Attempt>) {
    forall a :: a in attempts ==> a in attempts' && AttemptLater(attempts[a], attempts'[a])
  }

  ghost predicate RunsLater(runs: map<RunId, Run>, runs': map<RunId, Run>) {
    forall i :: i in runs ==> i in runs' && runs'[i] == runs[i]
  }

  /** `db'` may follow `db`: no row disappears, attempt counts never fall, finished attempts
      and succeeded jobs never change, and indexed analyses stay as they are. */
  ghost predicate Later(db: Db, db': Db) {
    JobsLater(db.jobs, db'.jobs) && AttemptsLater(db.attempts, db'.attempts) && RunsLater(db.runs, db'.runs)
  }

  lemma {:induction false} LaterTransitive(a: Db, b: Db, c: Db)
    requires Later(a, b) && Later(b, c)
    ensures Later(a, c)
  {
    forall j | j in a.jobs
      ensures j in c.jobs && JobLater(a.jobs[j], c.jobs[j])
    {
      assert JobLater(a.jobs[j], b.jobs[j]) && JobLater(b.jobs[j], c.jobs[j]);
    }
    forall x | x in a.attempts
      ensures x in c.attempts && AttemptLater(a.attempts[x], c.attempts[x])
    {
      assert AttemptLater(a.attempts[x], b.attempts[x]) && AttemptLater(b.attempts[x], c.attempts[x]);
    }
    hide JobLater, AttemptLater;
  }

  lemma {:induction false} ExpireIsLater(db: Db, now: int)
    requires Inv(db)
    ensures Later(db, ExpireAll(db, now))
  {
    hide Inv;
  }

  lemma {:induction false} ClaimRowIsLater(db: Db, j: JobId, worker: Worker, leaseMs: int, now: int)
    requires Inv(db) && j in db.jobs && Claimable(db.jobs[j], now)
    requires (j, db.jobs[j].attempts + 1) !in db.attempts
    ensures Later(db, ClaimRow(db, j, worker, leaseMs, now).0)
  {
    JobFacts(db, j);
    hide Inv;
  }

  lemma {:induction false} FinishIsLater(db: Db, f: Fence, run: Option<RunId>, e: Option<JobError>, now: int)
    requires Inv(db) && Owns(db, f)
    ensures Later(db, FinishRow(db, f, run, e, now))
  {
    JobFacts(db, f.job);
    hide Inv;
  }

  lemma {:induction false} AddedRowsAreLater(db: Db, db': Db)
    requires forall j :: j in db.jobs ==> j in db'.jobs && db'.jobs[j] == db.jobs[j]
    requires db'.attempts == db.attempts
    requires RunsLater(db.runs, db'.runs)
    ensures Later(db, db')
  {
  }

  lemma {:induction false} EnqueueIsLater(db: Db, e: Event)
    requires Inv(db) && e.Enqueue?
    ensures Later(db, DoEnqueue(db, e).0)
  {
    hide Inv, HasActive, Later;
    NextJobIsNew(db);
    AddedRowsAreLater(db, DoEnqueue(db, e).0);
  }

  lemma {:induction false} NextJobIsNew(db: Db)
    requires Inv(db)
    ensures db.nextJob !in db.jobs && db.nextRun !in db.runs
  {
  }

  lemma {:induction false} IngestIsLater(db: Db, e: Event)
    requires Inv(db) && e.Ingest?
    ensures Later(db, DoIngest(db, e).0)
  {
    hide Inv, HasKey, FenceHolds, Later;
    NextJobIsNew(db);
    AddedRowsAreLater(db, DoIngest(db, e).0);
  }

  lemma {:induction false} JobUpdateIsLater(db: Db, j: JobId, job: Job)
    requires j in db.jobs && JobLater(db.jobs[j], job)
    ensures Later(db, db.(jobs := db.jobs[j := job]))
  {
    hide JobLater;
    forall i | i in db.jobs
      ensures JobLater(db.jobs[i], db.jobs[j := job][i])
    {
      SameJob(db.jobs[i]);
    }
    forall a | a in db.attempts
      ensures AttemptLater(db.attempts[a], db.attempts[a])
    {
    }
  }

  lemma {:induction false} SameJob(job: Job)
    ensures JobLater(job, job)
  {
  }

  lemma {:induction false} ApplyIsLater(db: Db, e: Event)
    requires Inv(db)
    ensures Later(db, Apply(db, e).0)
  {
    hide Inv, Later, ExpireAll, ClaimRow, FinishRow, DoEnqueue, DoIngest, HasActive;
    match e
    case Claim(_, _, _) =>
      var swept := ExpireAll(db, e.now);
      ExpireIsLater(db, e.now);
      ExpireKeepsInv(db, e.now);
      Unchanged(db);
      if AnyClaimable(swept.jobs, e.now) {
        var j := NextClaim(swept.jobs, e.now);
        if (j, swept.jobs[j].attempts + 1) !in swept.attempts {
          ClaimRowIsLater(swept, j, e.worker, e.leaseMs, e.now);
          LaterTransitive(db, swept, ClaimRow(swept, j, e.worker, e.leaseMs, e.now).0);
        }
      }
    case Succeed(_, _, _) =>
      Unchanged(db);
      if DoSucceed(db, e).1.Finished? {
        FinishIsLater(db, e.fence, Some(e.run), None, e.now);
      }
    case Fail(_, _, _) =>
      Unchanged(db);
      if DoFail(db, e).1.Finished? {
        FinishIsLater(db, e.fence, None, Some(e.error), e.now);
      }
    case Heartbeat(_, _, _) =>
      Unchanged(db);
      if Owns(db, e.fence) {
        var job := db.jobs[e.fence.job];
        JobUpdateIsLater(db, e.fence.job, job.(lease := Some(e.now + e.leaseMs), heartbeat := Some(e.now)));
      }
    case Retry(_, _) =>
      Unchanged(db);
      if DoRetry(db, e).1.Requeued? {
        JobUpdateIsLater(db, e.job, Requeue(db.jobs[e.job], e.now));
      }
    case Enqueue(_, _, _, _, _, _) => EnqueueIsLater(db, e);
    case Ingest(_, _, _, _, _) => IngestIsLater(db, e);
  }

  lemma {:induction false} Unchanged(db: Db)
    ensures Later(db, db)
  {
  }

  /** Whatever happens next, the present stays in the record. */
  lemma {:induction false} ExecuteIsLater(db: Db, events: seq<Event>)
    requires Inv(db)
    ensures Inv(Execute(db, events)) && Later(db, Execute(db, events))
  {
    hide Inv, Later, Apply;
    Unchanged(db);
    ExecuteKeepsInv(db, events);
    if events != [] {
      var before := Execute(db, events[..|events| - 1]);
      ExecuteIsLater(db, events[..|events| - 1]);
      ApplyIsLater(before, events[|events| - 1]);
      LaterTransitive(db, before, Execute(db, events));
    }
  }

  // ----- Fencing -----

  /** The attempt an event speaks for, if any. */
  function FenceOf(e: Event): Option<Fence> {
    match e
    case Heartbeat(f, _, _) => Some(f)
    case Succeed(f, _, _) => Some(f)
    case Fail(f, _, _) => Some(f)
    case Ingest(_, _, _, g, _) => g
    case _ => None
  }

  lemma {:induction false} ClaimRaisesCount(db: Db, c: Event)
    requires Inv(db) && c.Claim? && Apply(db, c).1.Claimed?
    ensures var (db', r) := Apply(db, c);
            && r.job in db'.jobs && db'.jobs[r.job].attempts == r.attempt
            && db'.jobs[r.job].status == Running && db'.jobs[r.job].worker == Some(c.worker)
            && db'.jobs[r.job].lease == Some(c.now + c.leaseMs)
  {
    hide Inv, ExpireAll;
  }

  lemma {:induction false} NotOwnerIsRefused(db: Db, e: Event)
    requires FenceOf(e).Some? && !Owns(db, FenceOf(e).value)
    ensures Apply(db, e).0 == db && Apply(db, e).1.Refused?
  {
    hide Owns;
  }

  /** Once a later attempt of a job has been claimed, an earlier attempt can no longer renew
      its lease, finish the job or commit an ingest, whatever happens in between and
      whatever the clocks say. */
  lemma {:induction false} SupersededAttemptIsFenced(db: Db, c: Event, events: seq<Event>, e: Event)
    requires Inv(db) && c.Claim? && Apply(db, c).1.Claimed?
    requires FenceOf(e).Some? && FenceOf(e).value.job == Apply(db, c).1.job && FenceOf(e).value.attempt < Apply(db, c).1.attempt
    ensures var db' := Execute(Apply(db, c).0, events);
            Apply(db', e).0 == db' && Apply(db', e).1.Refused?
  {
    var claimed, j := Apply(db, c).0, Apply(db, c).1.job;
    ClaimRaisesCount(db, c);
    ApplyKeepsInv(db, c);
    ExecuteIsLater(claimed, events);
    var db' := Execute(claimed, events);
    assert JobLater(claimed.jobs[j], db'.jobs[j]);
    assert !Owns(db', FenceOf(e).value);
    NotOwnerIsRefused(db', e);
    hide *;
  }

  /** An accepted fenced ingest comes from the job's newest attempt, which is in progress,
      belongs to that worker and holds an unexpired lease on the very replay it indexes. */
  lemma {:induction false} FencedIngestIsCurrent(db: Db, e: Event)
    requires Inv(db) && e.Ingest? && e.guard.Some? && !Apply(db, e).1.Refused?
    ensures var f := e.guard.value;
            && (f.job, f.attempt) in db.attempts && (f.job, f.attempt + 1) !in db.attempts
            && db.attempts[(f.job, f.attempt)].outcome == InProgress
            && db.attempts[(f.job, f.attempt)].worker == f.worker
            && db.jobs[f.job].replay == e.replay && db.jobs[f.job].lease.value > e.now
  {
    assert FenceHolds(db, e.guard.value, e.replay, e.now);
    JobFacts(db, e.guard.value.job);
  }

  /** Renewal does not look at expiry: after a heartbeat the fence holds if and only if the job
      is still leased to this very attempt, even when its lease had lapsed. */
  lemma {:induction false} LapsedLeaseIsRevived(db: Db, f: Fence, leaseMs: int, now: int)
    requires f.job in db.jobs
    ensures FenceHolds(Apply(db, Heartbeat(f, leaseMs, now)).0, f, db.jobs[f.job].replay, now) <==> Owns(db, f) && 0 < leaseMs
    ensures Owns(db, f) ==>
              (!FenceHolds(db, f, db.jobs[f.job].replay, now)
               <==> db.jobs[f.job].lease.None? || db.jobs[f.job].lease.value <= now)
  {
  }

  // ----- Indexing is exactly once -----

  predicate IngestedAs(r: Reply, i: RunId) { r == Indexed(i) || r == NoOp(i) }

  lemma {:induction false} AcceptedIngestHasRow(db: Db, e: Event, i: RunId)
    requires Inv(db) && e.Ingest? && IngestedAs(Apply(db, e).1, i)
    ensures i in Apply(db, e).0.runs && Apply(db, e).0.runs[i].key == e.key
  {
  }

  lemma {:induction false} RowIsFound(db: Db, i: RunId, k: Key)
    requires Inv(db) && i in db.runs && db.runs[i].key == k
    ensures HasKey(db, k) && RunOf(db, k) == i && db.runs[i].indexed
  {
  }

  /** After an ingest of a key was accepted, every later ingest of the key is a no-op that
      answers with the same analysis, unless its own fence is stale. */
  lemma {:induction false} KeyIsIndexedOnce(db: Db, e: Event, events: seq<Event>, again: Event, i: RunId)
    requires Inv(db) && e.Ingest? && IngestedAs(Apply(db, e).1, i)
    requires again.Ingest? && again.key == e.key
    ensures var db' := Execute(Apply(db, e).0, events);
            Apply(db', again).0 == db' && (Apply(db', again).1 == NoOp(i) || Apply(db', again).1 == Refused(Stale))
  {
    var ingested := Apply(db, e).0;
    AcceptedIngestHasRow(db, e, i);
    ApplyKeepsInv(db, e);
    ExecuteIsLater(ingested, events);
    var db' := Execute(ingested, events);
    RowIsFound(db', i, e.key);
    hide Inv, Execute, FenceHolds, HasKey, ExpireAll;
  }

  /** A job that succeeded keeps, for ever, an indexed analysis of its own replay. */
  lemma {:induction false} SuccessIsDurable(db: Db, j: JobId, events: seq<Event>)
    requires Inv(db) && j in db.jobs && db.jobs[j].status == Succeeded
    ensures var db' := Execute(db, events);
            && j in db'.jobs && db'.jobs[j] == db.jobs[j]
            && db.jobs[j].result.Some? && db.jobs[j].result.value in db'.runs
            && db'.runs[db.jobs[j].result.value].indexed
            && db'.runs[db.jobs[j].result.value].replay == db.jobs[j].replay
  {
    ExecuteIsLater(db, events);
    JobFacts(db, j);
    var db' := Execute(db, events);
    assert JobLater(db.jobs[j], db'.jobs[j]);
  }

  // ----- Termination and progress -----

  /** What is left to do for a job: two transitions per remaining attempt, and one to end
      the attempt in progress. */
  function Weight(job: Job): nat {
    var left := if job.attempts <= job.maxAttempts then 2 * (job.maxAttempts - job.attempts) else 0;
    match job.status
    case Queued => left
    case Running => left + 1
    case _ => 0
  }

  ghost function TotalWeight<K>(jobs: map<K, Job>): nat
    decreases |jobs|
  {
    if jobs.Keys == {} then 0 else var j :| j in jobs; Weight(jobs[j]) + TotalWeight(jobs - {j})
  }

  lemma {:induction false} TotalWithout<K>(jobs: map<K, Job>, j: K)
    requires j in jobs
    ensures TotalWeight(jobs) == Weight(jobs[j]) + TotalWeight(jobs - {j})
    decreases |jobs|
  {
    hide Weight;
    var i :| i in jobs && TotalWeight(jobs) == Weight(jobs[i]) + TotalWeight(jobs - {i});
    if i != j {
      TotalWithout(jobs - {i}, j);
      TotalWithout(jobs - {j}, i);
      assert jobs - {i} - {j} == jobs - {j} - {i};
    }
  }

  /** If no job's weight rises, and that of every job in `moved` falls, the total falls by
      at least the number of jobs moved. */
  lemma {:induction false} TotalFalls<K>(jobs: map<K, Job>, jobs': map<K, Job>, moved: set<K>)
    requires jobs'.Keys == jobs.Keys && moved <= jobs.Keys
    requires forall j :: j in jobs ==> Weight(jobs'[j]) + (if j in moved then 1 else 0) <= Weight(jobs[j])
    ensures TotalWeight(jobs') + |moved| <= TotalWeight(jobs)
    decreases |jobs|
  {
    hide Weight;
    if jobs.Keys != {} {
      var j := Pick(jobs.Keys);
      TotalWithout(jobs, j);
      TotalWithout(jobs', j);
      assert (jobs - {j}).Keys == jobs.Keys - {j} == (jobs' - {j}).Keys;
      TotalFalls(jobs - {j}, jobs' - {j}, moved - {j});
    }
  }

  lemma {:induction false} TotalAfterUpdate(jobs: map<JobId, Job>, j: JobId, job: Job)
    requires j in jobs
    ensures TotalWeight(jobs[j := job]) + Weight(jobs[j]) == TotalWeight(jobs) + Weight(job)
  {
    TotalWithout(jobs, j);
    TotalWithout(jobs[j := job], j);
    assert jobs[j := job] - {j} == jobs - {j};
  }

  lemma {:induction false} TotalAfterInsert(jobs: map<JobId, Job>, j: JobId, job: Job)
    requires j !in jobs
    ensures TotalWeight(jobs[j := job]) == TotalWeight(jobs) + Weight(job)
  {
    TotalWithout(jobs[j := job], j);
    assert jobs[j := job] - {j} == jobs;
  }

  predicate HasMoved(job: Job, job': Job) { job'.status != job.status || job'.attempts != job.attempts }

  ghost function MovedJobs(jobs: map<JobId, Job>, jobs': map<JobId, Job>): set<JobId> {
    set j | j in jobs && j in jobs' && HasMoved(jobs[j], jobs'[j])
  }

  /** The jobs that a step claimed, finished or expired. */
  ghost function Moved(db: Db, e: Event): set<JobId> {
    if e.Enqueue? || e.Retry? then {} else MovedJobs(db.jobs, Apply(db, e).0.jobs)
  }

  /** The work that an accepted enqueue or retry adds. */
  ghost function Granted(db: Db, e: Event): nat {
    match Apply(db, e).1
    case JobQueued(_) => 2 * (if e.Enqueue? && e.maxAttempts > 0 then e.maxAttempts else 0)
    case Requeued(j) => if j in Apply(db, e).0.jobs then Weight(Apply(db, e).0.jobs[j]) else 0
    case _ => 0
  }

  lemma {:induction false} ExpiryLowersJob(db: Db, now: int, j: JobId)
    requires Inv(db) && j in db.jobs
    ensures var job := ExpireAll(db, now).jobs[j];
            Weight(job) + (if HasMoved(db.jobs[j], job) then 1 else 0) <= Weight(db.jobs[j])
    ensures Claimable(ExpireAll(db, now).jobs[j], now) ==> ExpireAll(db, now).jobs[j] == db.jobs[j]
  {
    JobFacts(db, j);
    hide Inv;
  }

  lemma {:induction false} ClaimLowersJob(job: Job, worker: Worker, leaseMs: int, now: int)
    requires JobShape(job) && Claimable(job, now)
    ensures Weight(ClaimJob(job, worker, leaseMs, now)) + 1 <= Weight(job)
  {
  }

  /** What a claim does to one job: nothing beyond the sweep, unless it is the one claimed. */
  lemma {:induction false} ClaimedJob(db: Db, e: Event, j: JobId)
    requires e.Claim? && j in db.jobs
    ensures j in DoClaim(db, e).0.jobs && j in ExpireAll(db, e.now).jobs
    ensures var job, swept := DoClaim(db, e).0.jobs[j], ExpireAll(db, e.now).jobs[j];
            job == db.jobs[j] || job == swept || (Claimable(swept, e.now) && job == ClaimJob(swept, e.worker, e.leaseMs, e.now))
  {
    var swept := ExpireAll(db, e.now);
    assert j in swept.jobs;
    hide ExpireAll, ClaimJob, Claimable;
  }

  lemma {:induction false} ClaimLowersJobOf(db: Db, e: Event, j: JobId)
    requires Inv(db) && e.Claim? && j in db.jobs
    ensures j in DoClaim(db, e).0.jobs
    ensures var job := DoClaim(db, e).0.jobs[j];
            Weight(job) + (if HasMoved(db.jobs[j], job) then 1 else 0) <= Weight(db.jobs[j])
  {
    hide *;
    ClaimedJob(db, e, j);
    ExpireKeepsInv(db, e.now);
    ExpiryLowersJob(db, e.now, j);
    var swept := ExpireAll(db, e.now).jobs[j];
    JobFacts(ExpireAll(db, e.now), j);
    NotMoved(db.jobs[j]);
    if Claimable(swept, e.now) {
      ClaimLowersJob(swept, e.worker, e.leaseMs, e.now);
    }
  }

  lemma {:induction false} ClaimKeepsJobs(db: Db, e: Event)
    requires Inv(db) && e.Claim?
    ensures DoClaim(db, e).0.jobs.Keys == db.jobs.Keys
    ensures Moved(db, e) == MovedJobs(db.jobs, DoClaim(db, e).0.jobs)
  {
    hide Inv, Exhausted, Claimable, MovedJobs;
  }

  lemma {:induction false} ClaimLowersWeight(db: Db, e: Event)
    requires Inv(db) && e.Claim?
    ensures TotalWeight(DoClaim(db, e).0.jobs) + |Moved(db, e)| <= TotalWeight(db.jobs)
  {
    var jobs' := DoClaim(db, e).0.jobs;
    ClaimKeepsJobs(db, e);
    hide DoClaim, Moved, Weight, HasMoved, Inv, TotalWeight;
    forall j | j in db.jobs
      ensures Weight(jobs'[j]) + (if j in MovedJobs(db.jobs, jobs') then 1 else 0) <= Weight(db.jobs[j])
    {
      ClaimLowersJobOf(db, e, j);
    }
    hide *;
    TotalFalls(db.jobs, jobs', MovedJobs(db.jobs, jobs'));
  }

  lemma {:induction false} NotMoved(job: Job)
    ensures !HasMoved(job, job)
  {
  }

  /** Rewriting one job: what the total gains and which job moved. */
  lemma {:induction false} OneJobMoves(jobs: map<JobId, Job>, j: JobId, job: Job)
    requires j in jobs
    ensures TotalWeight(jobs[j := job]) + Weight(jobs[j]) == TotalWeight(jobs) + Weight(job)
    ensures MovedJobs(jobs, jobs[j := job]) == if HasMoved(jobs[j], job) then {j} else {}
  {
    TotalAfterUpdate(jobs, j, job);
  }

  lemma {:induction false} OwnedJobWeighs(db: Db, f: Fence)
    requires Inv(db) && Owns(db, f)
    ensures 0 < Weight(db.jobs[f.job])
  {
  }

  lemma {:induction false} NoJobMoves(db: Db)
    ensures MovedJobs(db.jobs, db.jobs) == {}
  {
  }

  lemma {:induction false} FinishLowersWeight(db: Db, f: Fence, run: Option<RunId>, e: Option<JobError>, now: int)
    requires Inv(db) && Owns(db, f)
    ensures var jobs' := FinishRow(db, f, run, e, now).jobs;
            TotalWeight(jobs') + |MovedJobs(db.jobs, jobs')| <= TotalWeight(db.jobs)
  {
    OwnedJobWeighs(db, f);
    hide Inv, Owns, TotalWeight;
    OneJobMoves(db.jobs, f.job, FinishJob(db.jobs[f.job], run, e, now));
  }

  /** Every claimed, finished or expired job lowers the total; only an accepted enqueue or
      retry raises it, by what it grants. */
  lemma {:induction false} StepLowersWeight(db: Db, e: Event)
    requires Inv(db)
    ensures TotalWeight(Apply(db, e).0.jobs) + |Moved(db, e)| <= TotalWeight(db.jobs) + Granted(db, e)
  {
    hide Inv, TotalWeight, ExpireAll, ClaimRow, FinishRow, HasActive, HasKey, HasMoved, MovedJobs;
    NoJobMoves(db);
    match e
    case Claim(_, _, _) => ClaimLowersWeight(db, e);
    case Succeed(_, _, _) =>
      if DoSucceed(db, e).1.Finished? {
        FinishLowersWeight(db, e.fence, Some(e.run), None, e.now);
      }
    case Fail(_, _, _) =>
      if DoFail(db, e).1.Finished? {
        FinishLowersWeight(db, e.fence, None, Some(e.error), e.now);
      }
    case Heartbeat(_, _, _) =>
      if Owns(db, e.fence) {
        var job := db.jobs[e.fence.job].(lease := Some(e.now + e.leaseMs), heartbeat := Some(e.now));
        OneJobMoves(db.jobs, e.fence.job, job);
        NotMovedByLease(db.jobs[e.fence.job], job);
      }
    case Retry(_, _) =>
      if DoRetry(db, e).1.Requeued? {
        OneJobMoves(db.jobs, e.job, Requeue(db.jobs[e.job], e.now));
      }
    case Enqueue(_, _, _, _, _, _) => EnqueueGrants(db, e);
    case Ingest(_, _, _, _, _) =>
  }

  lemma {:induction false} NotMovedByLease(job: Job, job': Job)
    requires job'.status == job.status && job'.attempts == job.attempts && job'.maxAttempts == job.maxAttempts
    ensures !HasMoved(job, job') && Weight(job') == Weight(job)
  {
  }

  lemma {:induction false} EnqueueGrants(db: Db, e: Event)
    requires Inv(db) && e.Enqueue?
    ensures TotalWeight(DoEnqueue(db, e).0.jobs) <= TotalWeight(db.jobs) + Granted(db, e)
  {
    hide Inv, HasActive, TotalWeight;
    NextJobIsNew(db);
    if DoEnqueue(db, e).1.JobQueued? {
      TotalAfterInsert(db.jobs, db.nextJob, DoEnqueue(db, e).0.jobs[db.nextJob]);
    }
  }

  ghost function MovesIn(db: Db, events: seq<Event>): nat {
    if events == [] then 0
    else MovesIn(db, events[..|events| - 1]) + |Moved(Execute(db, events[..|events| - 1]), events[|events| - 1])|
  }

  ghost function GrantsIn(db: Db, events: seq<Event>): nat {
    if events == [] then 0
    else GrantsIn(db, events[..|events| - 1]) + Granted(Execute(db, events[..|events| - 1]), events[|events| - 1])
  }

  /** Over any run, the number of claims, finishes and expiries is bounded by the work there
      was plus the work that enqueues and retries granted: the queue cannot churn for ever. */
  lemma {:induction false} WorkIsBounded(db: Db, events: seq<Event>)
    requires Inv(db)
    ensures TotalWeight(Execute(db, events).jobs) + MovesIn(db, events) <= TotalWeight(db.jobs) + GrantsIn(db, events)
  {
    if events != [] {
      var before := events[..|events| - 1];
      hide Inv, TotalWeight, Apply, Moved, Granted;
      WorkIsBounded(db, before);
      ExecuteKeepsInv(db, before);
      StepLowersWeight(Execute(db, before), events[|events| - 1]);
    }
  }

  /** Accepted retries of job `j` in a run. */
  ghost function RetriesOf(db: Db, events: seq<Event>, j: JobId): nat {
    if events == [] then 0
    else
      RetriesOf(db, events[..|events| - 1], j)
      + if Apply(Execute(db, events[..|events| - 1]), events[|events| - 1]).1 == Requeued(j) then 1 else 0
  }

  lemma {:induction false} ClaimKeepsLimit(db: Db, e: Event, j: JobId)
    requires Inv(db) && e.Claim? && j in db.jobs
    ensures j in DoClaim(db, e).0.jobs && DoClaim(db, e).0.jobs[j].maxAttempts == db.jobs[j].maxAttempts
    ensures !DoClaim(db, e).1.Requeued?
  {
    ClaimedJob(db, e, j);
    ExpireKeepsLimit(db, e.now, j);
    hide Inv, ExpireAll, Claimable, AnyClaimable;
  }

  lemma {:induction false} StepRaisesLimit(db: Db, e: Event, j: JobId)
    requires Inv(db) && j in db.jobs
    ensures j in Apply(db, e).0.jobs
    ensures Apply(db, e).0.jobs[j].maxAttempts <= db.jobs[j].maxAttempts + if Apply(db, e).1 == Requeued(j) then 1 else 0
  {
    hide Inv, HasActive, HasKey, FenceHolds, Owns, DoClaim;
    match e {
      case Claim(_, _, _) => ClaimKeepsLimit(db, e, j);
      case Enqueue(_, _, _, _, _, _) =>
        NextJobIsNew(db);
        hide DoHeartbeat, DoSucceed, DoFail, DoRetry, DoIngest;
      case Ingest(_, _, _, _, _) => hide DoHeartbeat, DoSucceed, DoFail, DoRetry, DoEnqueue;
      case _ =>
        JobFacts(db, j);
        hide DoEnqueue, DoIngest;
    }
  }

  lemma {:induction false} ExpireKeepsLimit(db: Db, now: int, j: JobId)
    requires j in db.jobs
    ensures j in ExpireAll(db, now).jobs && ExpireAll(db, now).jobs[j].maxAttempts == db.jobs[j].maxAttempts
  {
  }

  /** A job is attempted at most as often as its own limit plus its accepted retries allow. */
  lemma {:induction false} AttemptsAreBounded(db: Db, events: seq<Event>, j: JobId)
    requires Inv(db) && j in db.jobs
    ensures var db' := Execute(db, events);
            && j in db'.jobs
            && db'.jobs[j].attempts <= db'.jobs[j].maxAttempts <= db.jobs[j].maxAttempts + RetriesOf(db, events, j)
  {
    hide Inv, Apply;
    ExecuteKeepsInv(db, events);
    if events != [] {
      var before := events[..|events| - 1];
      AttemptsAreBounded(db, before, j);
      ExecuteKeepsInv(db, before);
      StepRaisesLimit(Execute(db, before), events[|events| - 1], j);
    }
    JobFacts(Execute(db, events), j);
  }
}
