/** The transactions of packages/corpus-store/python/jobs.py and the fenced ingest of
    packages/corpus-store/python/store.py in terms of the columns alone: what each one answers
    and writes, without the vocabulary of `JobQueue`.  Over runs: a leased job changes hands
    only once its lease has run out. */
module JobColumns {
  import opened JobHistory
  import opened JobQueue
  import opened Options

  // ----- Enqueue -----

  /** The four answers of `enqueue`, by what the tables hold. */
  lemma {:induction false} EnqueueAnswers(db: Db, e: Event)
    requires e.Enqueue?
    ensures var r := Apply(db, e).1;
            var mismatch := e.replay in db.sizes && db.sizes[e.replay] != e.size;
            var active := exists j :: j in db.jobs && db.jobs[j].replay == e.replay && (db.jobs[j].status == Queued || db.jobs[j].status == Running);
            && (r == Refused(SizeMismatch) <==> mismatch)
            && (r.AlreadyQueued? <==> !mismatch && active)
            && (r.AlreadyQueued? ==> r.job in db.jobs && db.jobs[r.job].replay == e.replay
                                     && (db.jobs[r.job].status == Queued || db.jobs[r.job].status == Running))
            && (r.AlreadyIndexed? <==> !mismatch && !active && e.replay in db.current && !e.force)
            && (r.AlreadyIndexed? ==> r.run == db.current[e.replay])
            && (r == Refused(Constraint) <==>
                  !mismatch && !active && (e.replay in db.current ==> e.force) && e.maxAttempts <= 0)
            && (r == JobQueued(db.nextJob) <==>
                  !mismatch && !active && (e.replay in db.current ==> e.force) && e.maxAttempts > 0)
  {
    SameActive(db, e.replay, e.size);
    hide HasActive;
    HasActiveIs(db, e.replay);
  }

  lemma {:induction false} HasActiveIs(db: Db, r: Replay)
    ensures HasActive(db, r)
       <==> exists j :: j in db.jobs && db.jobs[j].replay == r && (db.jobs[j].status == Queued || db.jobs[j].status == Running)
  {
    if HasActive(db, r) {
      var j :| j in db.jobs && db.jobs[j].replay == r && IsActive(db.jobs[j]);
    }
    if j :| j in db.jobs && db.jobs[j].replay == r && (db.jobs[j].status == Queued || db.jobs[j].status == Running) {
      assert IsActive(db.jobs[j]);
    }
  }

  lemma {:induction false} SameActive(db: Db, r: Replay, size: int)
    ensures HasActive(db.(sizes := db.sizes[r := size]), r) <==> HasActive(db, r)
  {
  }

  /** A new job starts queued with the given priority and limit; nothing else changes. */
  lemma {:induction false} EnqueueWrites(db: Db, e: Event)
    requires e.Enqueue?
    ensures var (db', r) := Apply(db, e);
            && db'.attempts == db.attempts && db'.runs == db.runs && db'.current == db.current
            && (r.JobQueued? ==>
                  && r.job == db.nextJob && db'.nextJob == db.nextJob + 1
                  && db'.jobs == db.jobs[db.nextJob := Job(e.replay, Queued, e.priority, e.now, e.now, None, None, 0, e.maxAttempts,
                                                           None, None, None, None, None)])
            && (!r.JobQueued? ==> db'.jobs == db.jobs && db'.nextJob == db.nextJob)
  {
    hide HasActive;
  }

  // ----- Claim -----

  lemma {:induction false} ClaimableIs(db: Db, i: JobId, now: int)
    requires i in db.jobs
    ensures i in ExpireAll(db, now).jobs
    ensures Claimable(ExpireAll(db, now).jobs[i], now)
       <==> db.jobs[i].attempts < db.jobs[i].maxAttempts
            && ((db.jobs[i].status == Queued && db.jobs[i].available <= now)
                || (db.jobs[i].status == Running && db.jobs[i].lease.Some? && db.jobs[i].lease.value <= now))
    ensures Claimable(ExpireAll(db, now).jobs[i], now) ==> ExpireAll(db, now).jobs[i] == db.jobs[i]
    ensures ExpireAll(db, now).jobs[i].priority == db.jobs[i].priority && ExpireAll(db, now).jobs[i].available == db.jobs[i].available
  {
  }

  lemma {:induction false} ClaimReply(db: Db, e: Event)
    requires Inv(db) && e.Claim?
    ensures var r := Apply(db, e).1; var jobs := ExpireAll(db, e.now).jobs;
            if AnyClaimable(jobs, e.now)
            then && r.Claimed? && IsNextClaim(jobs, e.now, r.job)
                 && r.attempt == jobs[r.job].attempts + 1 && r.recovered == (jobs[r.job].status == Running)
            else r.Idle?
  {
    ExpireKeepsInv(db, e.now);
    var swept := ExpireAll(db, e.now);
    hide ExpireAll, IsNextClaim;
    if AnyClaimable(swept.jobs, e.now) {
      NextAttemptIsNew(swept, NextClaim(swept.jobs, e.now));
    }
    hide Inv, AnyClaimable;
  }

  /** The claim answers with the first job in the order of priority, available time and row id
      that is queued and due, or whose lease has run out; it is idle when there is none. */
  lemma {:induction false} ClaimAnswers(db: Db, e: Event)
    requires Inv(db) && e.Claim?
    ensures Apply(db, e).1.Claimed? || Apply(db, e).1.Idle?
    ensures Apply(db, e).1.Claimed? ==>
              var r := Apply(db, e).1;
              && r.job in db.jobs && db.jobs[r.job].attempts == r.attempt - 1 < db.jobs[r.job].maxAttempts
              && (if r.recovered
                  then db.jobs[r.job].status == Running && db.jobs[r.job].lease.Some? && db.jobs[r.job].lease.value <= e.now
                  else db.jobs[r.job].status == Queued && db.jobs[r.job].available <= e.now)
    ensures Apply(db, e).1.Claimed? ==>
              var job := db.jobs[Apply(db, e).1.job];
              forall i :: i in db.jobs && i != Apply(db, e).1.job && db.jobs[i].attempts < db.jobs[i].maxAttempts
                          && ((db.jobs[i].status == Queued && db.jobs[i].available <= e.now)
                              || (db.jobs[i].status == Running && db.jobs[i].lease.Some? && db.jobs[i].lease.value <= e.now)) ==>
                job.priority > db.jobs[i].priority
                || (job.priority == db.jobs[i].priority
                    && (job.available < db.jobs[i].available
                        || (job.available == db.jobs[i].available && Apply(db, e).1.job < i)))
    ensures Apply(db, e).1.Idle? <==>
              forall i :: i in db.jobs && db.jobs[i].attempts < db.jobs[i].maxAttempts ==>
                !(db.jobs[i].status == Queued && db.jobs[i].available <= e.now)
                && !(db.jobs[i].status == Running && db.jobs[i].lease.Some? && db.jobs[i].lease.value <= e.now)
  {
    var swept := ExpireAll(db, e.now);
    assert swept.jobs.Keys == db.jobs.Keys;
    ClaimReply(db, e);
    AnyClaimableIs(swept.jobs, e.now);
    hide Inv, Apply, ExpireAll, AnyClaimable;
    forall i | i in db.jobs
      ensures Claimable(swept.jobs[i], e.now)
         <==> db.jobs[i].attempts < db.jobs[i].maxAttempts
              && ((db.jobs[i].status == Queued && db.jobs[i].available <= e.now)
                  || (db.jobs[i].status == Running && db.jobs[i].lease.Some? && db.jobs[i].lease.value <= e.now))
      ensures Claimable(swept.jobs[i], e.now) ==> swept.jobs[i] == db.jobs[i]
      ensures swept.jobs[i].priority == db.jobs[i].priority && swept.jobs[i].available == db.jobs[i].available
    {
      ClaimableIs(db, i, e.now);
    }
    hide Claimable;
  }

  lemma {:induction false} AnyClaimableIs(jobs: map<JobId, Job>, now: int)
    ensures AnyClaimable(jobs, now) <==> exists j :: j in jobs && Claimable(jobs[j], now)
  {
    hide Claimable;
  }

  lemma {:induction false} NextAttemptIsNew(db: Db, j: JobId)
    requires Inv(db) && j in db.jobs
    ensures (j, db.jobs[j].attempts + 1) !in db.attempts
  {
    hide AttemptsAgree, JobsShaped, OneActivePerReplay, ResultsIndexed, RunsConsistent;
  }

  /** A claim is the sweep, followed by the row of the claimed job if there is one. */
  lemma {:induction false} ClaimShape(db: Db, e: Event)
    requires Inv(db) && e.Claim?
    ensures var (db', r) := Apply(db, e); var swept := ExpireAll(db, e.now);
            && Inv(swept)
            && (if r.Claimed? then r.job in swept.jobs && (db', r) == ClaimRow(swept, r.job, e.worker, e.leaseMs, e.now)
                else db' == swept)
  {
    var swept := ExpireAll(db, e.now);
    ExpireKeepsInv(db, e.now);
    hide ExpireAll, ClaimRow;
    if AnyClaimable(swept.jobs, e.now) {
      NextAttemptIsNew(swept, NextClaim(swept.jobs, e.now));
    }
    hide Inv, AnyClaimable;
  }

  lemma {:induction false} SweptJob(db: Db, now: int, i: JobId)
    requires i in db.jobs
    ensures ExpireAll(db, now).jobs.Keys == db.jobs.Keys && i in ExpireAll(db, now).jobs
    ensures ExpireAll(db, now).jobs[i] == if Exhausted(db.jobs[i], now) then ExpireJob(db.jobs[i], now) else db.jobs[i]
  {
    hide Exhausted, ExpireJob;
  }

  lemma {:induction false} SweptAttempt(db: Db, now: int, j: JobId, n: nat)
    ensures (j, n) in ExpireAll(db, now).attempts <==> (j, n) in db.attempts
    ensures (j, n) in db.attempts && j in db.jobs ==>
              ExpireAll(db, now).attempts[(j, n)]
              == if Exhausted(db.jobs[j], now) && n == db.jobs[j].attempts
                 then AbandonAttempt(db.attempts[(j, n)], now, LeaseExpiredMaxAttempts) else db.attempts[(j, n)]
  {
    hide Exhausted, AbandonAttempt;
  }

  lemma {:induction false} RowOfClaim(db: Db, j: JobId, worker: Worker, leaseMs: int, now: int, i: JobId)
    requires j in db.jobs && i in db.jobs
    ensures var jobs := ClaimRow(db, j, worker, leaseMs, now).0.jobs;
            && jobs.Keys == db.jobs.Keys && i in jobs
            && jobs[i] == if i == j then ClaimJob(db.jobs[j], worker, leaseMs, now) else db.jobs[i]
  {
    hide ClaimJob;
  }

  lemma {:induction false} AttemptsOfClaim(db: Db, j: JobId, worker: Worker, leaseMs: int, now: int, i: JobId, n: nat)
    requires Inv(db) && j in db.jobs
    ensures var attempts := ClaimRow(db, j, worker, leaseMs, now).0.attempts; var k := db.jobs[j].attempts;
            && (j, k + 1) !in db.attempts
            && ((i, n) in attempts <==> (i, n) in db.attempts || (i == j && n == k + 1))
            && (i == j && n == k + 1 ==>
                  attempts[(i, n)] == Attempt(worker, now, db.jobs[j].status == Running, None, InProgress, None))
            && ((i, n) in db.attempts ==>
                  attempts[(i, n)]
                  == if i == j && n == k && db.jobs[j].status == Running
                     then AbandonAttempt(db.attempts[(i, n)], now, LeaseExpired) else db.attempts[(i, n)])
  {
    NextAttemptIsNew(db, j);
    hide Inv, AbandonAttempt, ClaimJob;
  }

  /** What a claim writes to the jobs: those whose lease ran out on the last attempt fail, the
      claimed one is leased for a new attempt, all others stay as they are. */
  lemma {:induction false} ClaimWritesJobs(db: Db, e: Event, i: JobId)
    requires Inv(db) && e.Claim? && i in db.jobs
    ensures var (db', r) := Apply(db, e); var job := db.jobs[i];
            && db'.jobs.Keys == db.jobs.Keys && i in db'.jobs
            && db'.jobs[i] ==
               if r.Claimed? && r.job == i then
                 job.(status := Running, started := if job.started.Some? then job.started else Some(e.now), finished := None,
                      attempts := job.attempts + 1, worker := Some(e.worker), lease := Some(e.now + e.leaseMs),
                      heartbeat := Some(e.now), error := None)
               else if job.status == Running && job.lease.Some? && job.lease.value <= e.now && job.attempts >= job.maxAttempts then
                 job.(status := Failed, finished := Some(e.now), worker := None, lease := None, heartbeat := None,
                      error := Some(LeaseExpiredMaxAttempts))
               else job
  {
    hide *;
    ClaimedBelowLimit(db, e);
    ClaimShape(db, e);
    SweptJob(db, e.now, i);
    ExpiredColumns(db.jobs[i], e.now);
    var swept, r := ExpireAll(db, e.now), Apply(db, e).1;
    if r.Claimed? {
      RowOfClaim(swept, r.job, e.worker, e.leaseMs, e.now, i);
      ClaimedColumns(db.jobs[i], e.worker, e.leaseMs, e.now);
    }
  }

  lemma {:induction false} ClaimedBelowLimit(db: Db, e: Event)
    requires Inv(db) && e.Claim?
    ensures Apply(db, e).1.Claimed? ==>
              Apply(db, e).1.job in db.jobs && db.jobs[Apply(db, e).1.job].attempts < db.jobs[Apply(db, e).1.job].maxAttempts
  {
    ClaimAnswers(db, e);
    hide *;
  }

  lemma {:induction false} ExpiredColumns(job: Job, now: int)
    ensures Exhausted(job, now)
       <==> job.status == Running && job.lease.Some? && job.lease.value <= now && job.attempts >= job.maxAttempts
    ensures ExpireJob(job, now)
         == job.(status := Failed, finished := Some(now), worker := None, lease := None, heartbeat := None,
                 error := Some(LeaseExpiredMaxAttempts))
  {
  }

  lemma {:induction false} ClaimedColumns(job: Job, worker: Worker, leaseMs: int, now: int)
    ensures ClaimJob(job, worker, leaseMs, now)
         == job.(status := Running, started := if job.started.Some? then job.started else Some(now), finished := None,
                 attempts := job.attempts + 1, worker := Some(worker), lease := Some(now + leaseMs), heartbeat := Some(now),
                 error := None)
  {
  }

  /** What a claim writes to the attempts: one new row, and the running attempts of the jobs
      that failed or were recovered are abandoned. */
  lemma {:induction false} ClaimWritesAttempts(db: Db, e: Event, j: JobId, n: nat)
    requires Inv(db) && e.Claim?
    ensures var (db', r) := Apply(db, e);
            && ((j, n) in db'.attempts <==> (j, n) in db.attempts || (r.Claimed? && r.job == j && r.attempt == n))
            && (r.Claimed? && r.job == j && r.attempt == n ==>
                  (j, n) !in db.attempts && db'.attempts[(j, n)] == Attempt(e.worker, e.now, r.recovered, None, InProgress, None))
            && ((j, n) in db.attempts ==>
                  && j in db.jobs
                  && db'.attempts[(j, n)] ==
                     if db.jobs[j].status == Running && n == db.jobs[j].attempts
                        && db.jobs[j].lease.Some? && db.jobs[j].lease.value <= e.now
                        && (db.jobs[j].attempts >= db.jobs[j].maxAttempts || (r.Claimed? && r.job == j))
                     then db.attempts[(j, n)].(outcome := Abandoned, completedAt := Some(e.now),
                            error := Some(if db.jobs[j].attempts >= db.jobs[j].maxAttempts then LeaseExpiredMaxAttempts else LeaseExpired))
                     else db.attempts[(j, n)])
  {
    ClaimAnswers(db, e);
    ClaimShape(db, e);
    var swept, r := ExpireAll(db, e.now), Apply(db, e).1;
    SweptAttempt(db, e.now, j, n);
    NumberedRow(db, j, n);
    hide Inv, Apply, ExpireAll, ClaimRow;
    if j in db.jobs {
      SweptJob(db, e.now, j);
    }
    if r.Claimed? {
      SweptJob(db, e.now, r.job);
      AttemptsOfClaim(swept, r.job, e.worker, e.leaseMs, e.now, j, n);
    }
  }

  lemma {:induction false} NumberedRow(db: Db, j: JobId, n: nat)
    requires Inv(db)
    ensures (j, n) in db.attempts <==> j in db.jobs && 1 <= n <= db.jobs[j].attempts
    ensures (j, n) in db.attempts && db.jobs[j].status == Running && n == db.jobs[j].attempts ==> db.attempts[(j, n)].outcome == InProgress
  {
    hide JobsShaped, OneActivePerReplay, ResultsIndexed, RunsConsistent;
  }

  // ----- Heartbeat, finish and retry -----

  /** Heartbeat needs the job to be running for this worker and attempt, and sets the lease to
      the present time plus the lease length. */
  lemma {:induction false} HeartbeatOnColumns(db: Db, f: Fence, leaseMs: int, now: int)
    ensures var owned := f.job in db.jobs && db.jobs[f.job].status == Running && db.jobs[f.job].worker == Some(f.worker)
                         && db.jobs[f.job].attempts == f.attempt;
            Apply(db, Heartbeat(f, leaseMs, now))
            == if owned
               then (db.(jobs := db.jobs[f.job := db.jobs[f.job].(lease := Some(now + leaseMs), heartbeat := Some(now))]),
                     Renewed(now + leaseMs))
               else (db, Refused(NotOwner))
  {
  }

  /** A success needs the lease and an indexed analysis of the job's own replay; it clears the
      lease, stores the analysis and completes the attempt. */
  lemma {:induction false} SucceedOnColumns(db: Db, f: Fence, run: RunId, now: int)
    requires Inv(db)
    ensures var owned := f.job in db.jobs && db.jobs[f.job].status == Running && db.jobs[f.job].worker == Some(f.worker)
                         && db.jobs[f.job].attempts == f.attempt;
            var (db', r) := Apply(db, Succeed(f, run, now));
            && (r == Finished(f.job) <==>
                  owned && run in db.runs && db.runs[run].indexed && db.runs[run].replay == db.jobs[f.job].replay)
            && (r == Finished(f.job) ==>
                  && (f.job, f.attempt) in db.attempts
                  && db' == db.(jobs := db.jobs[f.job := db.jobs[f.job].(status := Succeeded, finished := Some(now), worker := None,
                                                                         lease := None, heartbeat := None, result := Some(run),
                                                                         error := None)],
                                attempts := db.attempts[(f.job, f.attempt) :=
                                  db.attempts[(f.job, f.attempt)].(outcome := Completed, completedAt := Some(now))]))
            && (r != Finished(f.job) ==> db' == db && r == Refused(if owned then NotIndexed else NotOwner))
  {
    OwnedRow(db, f);
    hide Inv;
  }

  /** A failure needs the lease only; it clears it, and stores the error with job and attempt. */
  lemma {:induction false} FailOnColumns(db: Db, f: Fence, error: JobError, now: int)
    requires Inv(db)
    ensures var owned := f.job in db.jobs && db.jobs[f.job].status == Running && db.jobs[f.job].worker == Some(f.worker)
                         && db.jobs[f.job].attempts == f.attempt;
            && (owned ==> (f.job, f.attempt) in db.attempts)
            && Apply(db, Fail(f, error, now))
               == if owned
                  then (db.(jobs := db.jobs[f.job := db.jobs[f.job].(status := Failed, finished := Some(now), worker := None,
                                                                     lease := None, heartbeat := None, result := None,
                                                                     error := Some(error))],
                            attempts := db.attempts[(f.job, f.attempt) :=
                              db.attempts[(f.job, f.attempt)].(outcome := Broken, completedAt := Some(now), error := Some(error))]),
                        Finished(f.job))
                  else (db, Refused(NotOwner))
  {
    OwnedRow(db, f);
    hide Inv;
  }

  lemma {:induction false} OwnedRow(db: Db, f: Fence)
    requires Inv(db)
    ensures Owns(db, f) ==> (f.job, f.attempt) in db.attempts
  {
    if Owns(db, f) {
      JobFacts(db, f.job);
    }
    hide Inv;
  }

  /** A retry needs a failed job whose replay has no active one; it queues the job at once, with
      room for one more attempt. */
  lemma {:induction false} RetryOnColumns(db: Db, j: JobId, now: int)
    ensures var failed := j in db.jobs && db.jobs[j].status == Failed;
            var active := failed && exists i :: i in db.jobs && db.jobs[i].replay == db.jobs[j].replay
                                                && (db.jobs[i].status == Queued || db.jobs[i].status == Running);
            Apply(db, Retry(j, now))
            == if !failed then (db, Refused(NotFailed))
               else if active then (db, Refused(Constraint))
               else (db.(jobs := db.jobs[j := db.jobs[j].(status := Queued, available := now, started := None, finished := None,
                                                         worker := None, lease := None, heartbeat := None, result := None, error := None,
                                                         maxAttempts := if db.jobs[j].attempts + 1 > db.jobs[j].maxAttempts
                                                                        then db.jobs[j].attempts + 1 else db.jobs[j].maxAttempts)]),
                     Requeued(j))
  {
    if j in db.jobs {
      HasActiveIs(db, db.jobs[j].replay);
    }
    hide HasActive;
  }

  // ----- Ingest -----

  /** The fence also needs an unexpired lease and the job's own replay; a key that is already
      indexed is not inserted again. */
  lemma {:induction false} IngestOnColumns(db: Db, e: Event)
    requires Inv(db) && e.Ingest?
    ensures var (db', r) := Apply(db, e);
            var fenced := e.guard.None?
                          || (e.guard.value.job in db.jobs
                              && var job := db.jobs[e.guard.value.job];
                                 job.status == Running && job.worker == Some(e.guard.value.worker) && job.attempts == e.guard.value.attempt
                                 && job.lease.Some? && job.lease.value > e.now && job.replay == e.replay);
            var known := exists i :: i in db.runs && db.runs[i].key == e.key;
            && (r == Refused(Stale) <==> !fenced)
            && (r.NoOp? <==> fenced && known)
            && (r.NoOp? ==> r.run in db.runs && db.runs[r.run].key == e.key)
            && (r == Indexed(db.nextRun) <==> fenced && !known)
            && db'.jobs == db.jobs && db'.attempts == db.attempts
            && (r.Indexed? ==> db'.runs == db.runs[db.nextRun := Run(e.key, e.replay, true)]
                               && db'.current == db.current[e.replay := db.nextRun])
            && (!r.Indexed? ==> db' == db)
  {
    HasKeyIs(db, e.key);
    RunsAreIndexed(db);
    hide Inv, HasKey;
  }

  lemma {:induction false} HasKeyIs(db: Db, k: Key)
    ensures HasKey(db, k) <==> exists i :: i in db.runs && db.runs[i].key == k
  {
  }

  lemma {:induction false} RunsAreIndexed(db: Db)
    requires Inv(db)
    ensures forall i :: i in db.runs ==> db.runs[i].indexed
  {
    hide JobsShaped, AttemptsNumbered, AttemptsAgree, OneActivePerReplay, ResultsIndexed;
  }

  // ----- What holds after every run -----

  /** The columns of one job and its attempts, after any sequence of transactions. */
  lemma {:induction false} JobAfterRun(events: seq<Event>, j: JobId, n: nat)
    ensures var db := Execute(EMPTY, events);
            && ((j, n) in db.attempts <==> j in db.jobs && 1 <= n <= db.jobs[j].attempts)
            && (j in db.jobs ==>
                  var job := db.jobs[j];
                  && (job.status == Running <==> job.worker.Some?) && (job.status == Running <==> job.lease.Some?)
                  && (job.result.Some? <==> job.status == Succeeded) && (job.error.Some? <==> job.status == Failed)
                  && job.attempts <= job.maxAttempts && (job.status == Queued ==> job.attempts < job.maxAttempts)
                  && (job.status == Succeeded ==>
                        && job.result.value in db.runs && db.runs[job.result.value].indexed
                        && db.runs[job.result.value].replay == job.replay))
            && ((j, n) in db.attempts ==>
                  var job, a := db.jobs[j], db.attempts[(j, n)];
                  && (a.outcome == InProgress <==> job.status == Running && n == job.attempts)
                  && (a.outcome == InProgress ==> job.worker == Some(a.worker))
                  && (a.outcome == Completed <==> job.status == Succeeded && n == job.attempts)
                  && (a.completedAt.Some? <==> a.outcome != InProgress)
                  && (a.error.Some? <==> a.outcome == Broken || a.outcome == Abandoned))
  {
    EmptyKeepsInv();
    ExecuteKeepsInv(EMPTY, events);
    hide Execute, OneActivePerReplay, RunsConsistent;
  }

  /** No replay has two active jobs, and no key two analyses, after any sequence of transactions. */
  lemma {:induction false} OncePerReplayAndKey(events: seq<Event>)
    ensures var db := Execute(EMPTY, events);
            && (forall i, j ::
                  (&& i in db.jobs && (db.jobs[i].status == Queued || db.jobs[i].status == Running)
                   && j in db.jobs && (db.jobs[j].status == Queued || db.jobs[j].status == Running)
                   && db.jobs[i].replay == db.jobs[j].replay) ==> i == j)
            && (forall i, j :: i in db.runs && j in db.runs && db.runs[i].key == db.runs[j].key ==> i == j)
            && (forall r :: r in db.current ==> db.current[r] in db.runs && db.runs[db.current[r]].replay == r)
  {
    EmptyKeepsInv();
    ExecuteKeepsInv(EMPTY, events);
    hide Execute, JobsShaped, AttemptsNumbered, AttemptsAgree, ResultsIndexed;
  }

  // ----- A lease protects its holder -----

  /** The lease that the job's holder was last granted. */
  ghost function LastLease(db: Db, events: seq<Event>, j: JobId): int {
    if events == [] then (if j in db.jobs && db.jobs[j].lease.Some? then db.jobs[j].lease.value else 0)
    else
      var e, before := events[|events| - 1], events[..|events| - 1];
      match Apply(Execute(db, before), e).1
      case Renewed(expires) => if e.Heartbeat? && e.fence.job == j then expires else LastLease(db, before, j)
      case Claimed(i, _, _) => if e.Claim? && i == j then e.now + e.leaseMs else LastLease(db, before, j)
      case _ => LastLease(db, before, j)
  }

  /** Some retry of the job was accepted on the way. */
  ghost predicate WasRetried(db: Db, events: seq<Event>, j: JobId) {
    events != []
    && (Apply(Execute(db, events[..|events| - 1]), events[|events| - 1]).1 == Requeued(j)
        || WasRetried(db, events[..|events| - 1], j))
  }

  /** Leased until `until`, or over. */
  ghost predicate LeasedOrOver(db: Db, j: JobId, until: int) {
    && j in db.jobs && db.jobs[j].status != Queued
    && (db.jobs[j].status == Running ==> db.jobs[j].lease == Some(until))
  }

  /** In one step the lease of a job changes only by a renewal or a claim, which say so. */
  lemma {:induction false} StepKeepsLease(db: Db, e: Event, j: JobId, until: int)
    requires Inv(db) && LeasedOrOver(db, j, until) && Apply(db, e).1 != Requeued(j)
    ensures LeasedOrOver(Apply(db, e).0, j,
              match Apply(db, e).1
              case Renewed(expires) => if e.Heartbeat? && e.fence.job == j then expires else until
              case Claimed(i, _, _) => if e.Claim? && i == j then e.now + e.leaseMs else until
              case _ => until)
  {
    hide Inv, Apply;
    match e
    case Claim(_, _, _) =>
      ClaimAnswers(db, e);
      ClaimWritesJobs(db, e, j);
    case Heartbeat(f, leaseMs, now) => HeartbeatOnColumns(db, f, leaseMs, now);
    case Succeed(f, run, now) => SucceedOnColumns(db, f, run, now);
    case Fail(f, error, now) => FailOnColumns(db, f, error, now);
    case Retry(i, now) => RetryOnColumns(db, i, now);
    case Ingest(_, _, _, _, _) => IngestOnColumns(db, e);
    case Enqueue(_, _, _, _, _, _) =>
      EnqueueWrites(db, e);
      EnqueueReplies(db, e);
      NextJobIsNew(db);
  }

  lemma {:induction false} EnqueueReplies(db: Db, e: Event)
    requires e.Enqueue?
    ensures !Apply(db, e).1.Renewed? && !Apply(db, e).1.Claimed?
  {
    hide HasActive;
  }

  lemma {:induction false} RunKeepsLease(db: Db, events: seq<Event>, j: JobId)
    requires Inv(db) && j in db.jobs && db.jobs[j].status == Running && db.jobs[j].lease.Some?
    requires !WasRetried(db, events, j)
    ensures LeasedOrOver(Execute(db, events), j, LastLease(db, events, j))
  {
    hide Inv, Apply, LeasedOrOver;
    if events == [] {
      StartsLeased(db, j);
    } else {
      var before, e := events[..|events| - 1], events[|events| - 1];
      RunKeepsLease(db, before, j);
      ExecuteKeepsInv(db, before);
      StepKeepsLease(Execute(db, before), e, j, LastLease(db, before, j));
    }
  }

  lemma {:induction false} StartsLeased(db: Db, j: JobId)
    requires j in db.jobs && db.jobs[j].status == Running && db.jobs[j].lease.Some?
    ensures LeasedOrOver(db, j, LastLease(db, [], j))
  {
  }

  /** Whatever happens in between: a leased job is claimed again only when the clock has reached
      the last lease that its holder was granted, unless it was finished and retried. */
  lemma {:induction false} LeaseIsRespected(db: Db, events: seq<Event>, c: Event, j: JobId)
    requires Inv(db) && j in db.jobs && db.jobs[j].status == Running
    requires c.Claim? && Apply(Execute(db, events), c).1.Claimed? && Apply(Execute(db, events), c).1.job == j
    ensures LastLease(db, events, j) <= c.now || WasRetried(db, events, j)
  {
    hide Apply, LastLease, WasRetried;
    JobFacts(db, j);
    ExecuteKeepsInv(db, events);
    ClaimAnswers(Execute(db, events), c);
    hide Inv;
    if !WasRetried(db, events, j) {
      RunKeepsLease(db, events, j);
    }
  }

  // ----- Fencing, indexing and work, event by event -----

  /** After a later attempt was claimed, the earlier one's heartbeat, success, failure and fenced
      ingest are each refused and change nothing, whatever happens in between. */
  lemma {:induction false} EarlierAttemptIsShutOut(db: Db, c: Event, events: seq<Event>, f: Fence, leaseMs: int, run: RunId, error: JobError,
                                                   key: Key, replay: Replay, size: int, now: int)
    requires Inv(db) && c.Claim? && Apply(db, c).1.Claimed? && f.job == Apply(db, c).1.job && f.attempt < Apply(db, c).1.attempt
    ensures var later := Execute(Apply(db, c).0, events);
            && Apply(later, Heartbeat(f, leaseMs, now)).0 == later && Apply(later, Heartbeat(f, leaseMs, now)).1.Refused?
            && Apply(later, Succeed(f, run, now)).0 == later && Apply(later, Succeed(f, run, now)).1.Refused?
            && Apply(later, Fail(f, error, now)).0 == later && Apply(later, Fail(f, error, now)).1.Refused?
            && Apply(later, Ingest(key, replay, size, Some(f), now)).0 == later
            && Apply(later, Ingest(key, replay, size, Some(f), now)).1.Refused?
  {
    hide Inv, Apply, Execute;
    SupersededAttemptIsFenced(db, c, events, Heartbeat(f, leaseMs, now));
    SupersededAttemptIsFenced(db, c, events, Succeed(f, run, now));
    SupersededAttemptIsFenced(db, c, events, Fail(f, error, now));
    SupersededAttemptIsFenced(db, c, events, Ingest(key, replay, size, Some(f), now));
  }

  /** An analysis that an ingest inserted or found is found again by every later ingest of its key
      that is not fenced off; nothing is inserted twice. */
  lemma {:induction false} SameAnalysisAgain(db: Db, e: Event, events: seq<Event>, again: Event)
    requires Inv(db) && e.Ingest? && again.Ingest? && again.key == e.key
    requires Apply(db, e).1.Indexed? || Apply(db, e).1.NoOp?
    ensures var later := Execute(Apply(db, e).0, events);
            && Apply(later, again).0 == later
            && (Apply(later, again).1 == NoOp(Apply(db, e).1.run) || Apply(later, again).1 == Refused(Stale))
            && (again.guard.None? ==> Apply(later, again).1 == NoOp(Apply(db, e).1.run))
  {
    var later := Execute(Apply(db, e).0, events);
    KeyIsIndexedOnce(db, e, events, again, Apply(db, e).1.run);
    ApplyKeepsInv(db, e);
    ExecuteKeepsInv(Apply(db, e).0, events);
    IngestOnColumns(later, again);
    hide Inv, Apply, Execute;
  }

  /** What the bound on moves counts: a move is a job whose status or attempt count a step other
      than queueing changes, and an accepted enqueue or retry grants two moves for every attempt
      that it leaves. */
  lemma {:induction false} MovesAndGrants(db: Db, e: Event, j: JobId)
    requires Inv(db)
    ensures j in Moved(db, e)
       <==> && !e.Enqueue? && !e.Retry? && j in db.jobs && j in Apply(db, e).0.jobs
            && (Apply(db, e).0.jobs[j].status != db.jobs[j].status || Apply(db, e).0.jobs[j].attempts != db.jobs[j].attempts)
    ensures var (db', r) := Apply(db, e);
            Granted(db, e)
            == if r.JobQueued? && e.Enqueue? then 2 * e.maxAttempts
               else if r.Requeued? then
                 (if r.job in db'.jobs && db'.jobs[r.job].attempts <= db'.jobs[r.job].maxAttempts
                  then 2 * (db'.jobs[r.job].maxAttempts - db'.jobs[r.job].attempts) else 0)
               else 0
  {
    if e.Enqueue? {
      EnqueueAnswers(db, e);
      EnqueueWrites(db, e);
    } else if e.Retry? {
      RetryOnColumns(db, e.job, e.now);
    }
    OnlyTheyGrant(db, e);
    hide Inv, Apply;
  }

  lemma {:induction false} OnlyTheyGrant(db: Db, e: Event)
    ensures Apply(db, e).1.JobQueued? ==> e.Enqueue?
    ensures Apply(db, e).1.Requeued? ==> e.Retry?
  {
    hide HasActive, HasKey, FenceHolds, Owns, AnyClaimable;
  }
}
