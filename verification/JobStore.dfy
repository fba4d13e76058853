/** The queue's tables as one mutable object.  Each method is one transaction: it commits
    exactly the transition of module `JobQueue`, or refuses and leaves every table as it was. */
module JobStore {
  import opened JobQueue
  import opened Options
  import opened Sorting

  /** `db` after expiring only the exhausted jobs in `done`. */
  ghost function ExpireSome(db: Db, now: int, done: set<JobId>): Db {
    db.(jobs := map j | j in db.jobs :: if j in done && Exhausted(db.jobs[j], now) then ExpireJob(db.jobs[j], now) else db.jobs[j],
        attempts := map a: AttemptId | a in db.attempts ::
          if a.0 in done && a.0 in db.jobs && Exhausted(db.jobs[a.0], now) && a.1 == db.jobs[a.0].attempts
          then AbandonAttempt(db.attempts[a], now, LeaseExpiredMaxAttempts) else db.attempts[a])
  }

  lemma {:induction false} ExpireNone(db: Db, now: int)
    ensures ExpireSome(db, now, {}) == db
  {
  }

  lemma {:induction false} ExpireEvery(db: Db, now: int, done: set<JobId>)
    requires forall j :: j in db.jobs && Exhausted(db.jobs[j], now) ==> j in done
    ensures ExpireSome(db, now, done) == ExpireAll(db, now)
  {
  }

  lemma {:induction false} ExpireOneMore(db: Db, now: int, done: set<JobId>, j: JobId)
    requires j in db.jobs && Exhausted(db.jobs[j], now) && j !in done
    ensures var was, next, last := ExpireSome(db, now, done), ExpireSome(db, now, done + {j}), (j, db.jobs[j].attempts);
            && j in was.jobs && was.jobs[j] == db.jobs[j]
            && next.jobs == was.jobs[j := ExpireJob(db.jobs[j], now)]
            && next.attempts == if last in was.attempts
                                then was.attempts[last := AbandonAttempt(was.attempts[last], now, LeaseExpiredMaxAttempts)]
                                else was.attempts
  {
  }

  /** The rows that `expire_exhausted` selects. */
  function ExhaustedRows(jobs: map<JobId, Job>, now: int): (rows: seq<JobId>)
    ensures Ascending(rows)
    ensures forall j: JobId :: j in rows <==> j in jobs && Exhausted(jobs[j], now)
  {
    SortedKeys(set j: JobId | j in jobs && Exhausted(jobs[j], now))
  }

  lemma {:induction false} RowAt(rows: seq<JobId>, i: nat)
    requires Ascending(rows) && i < |rows|
    ensures rows[i] in rows && rows[i] !in rows[..i]
    ensures forall j :: j in rows[..i + 1] <==> j in rows[..i] || j == rows[i]
  {
    assert rows[..i + 1] == rows[..i] + [rows[i]];
  }

  class JobStore {
    var jobs: map<JobId, Job>
    var attempts: map<AttemptId, Attempt>
    var runs: map<RunId, Run>
    var current: map<Replay, RunId>
    var sizes: map<Replay, int>
    var nextJob: JobId
    var nextRun: RunId

    function View(): Db
      reads this
    {
      Db(jobs, attempts, runs, current, sizes, nextJob, nextRun)
    }

    ghost predicate Valid()
      reads this
    {
      Inv(View())
    }

    constructor ()
      ensures Valid() && View() == EMPTY
    {
      jobs, attempts, runs, current, sizes, nextJob, nextRun := map[], map[], map[], map[], map[], 1, 1;
      new;
      EmptyKeepsInv();
    }

    /** The replay's queued or running job, of which there is at most one. */
    method FindActive(r: Replay) returns (found: Option<JobId>)
      requires Valid()
      ensures found.Some? <==> HasActive(View(), r)
      ensures found.Some? ==> found.value == ActiveJob(View(), r)
    {
      var keys := SortedKeys(jobs.Keys);
      for i := 0 to |keys|
        invariant forall k :: 0 <= k < i ==> keys[k] in jobs && !(jobs[keys[k]].replay == r && IsActive(jobs[keys[k]]))
      {
        assert keys[i] in keys;
        if jobs[keys[i]].replay == r && IsActive(jobs[keys[i]]) {
          assert HasActive(View(), r);
          assert OneActivePerReplay(View());
          return Some(keys[i]);
        }
      }
      found := None;
    }

    /** The analysis row with this key, of which there is at most one. */
    method FindRun(k: Key) returns (found: Option<RunId>)
      requires Valid()
      ensures found.Some? <==> HasKey(View(), k)
      ensures found.Some? ==> found.value == RunOf(View(), k)
    {
      var keys := SortedKeys(runs.Keys);
      for i := 0 to |keys|
        invariant forall n :: 0 <= n < i ==> keys[n] in runs && runs[keys[n]].key != k
      {
        assert keys[i] in keys;
        if runs[keys[i]].key == k {
          assert HasKey(View(), k);
          assert RunsConsistent(View());
          return Some(keys[i]);
        }
      }
      found := None;
    }

    method Enqueue(replay: Replay, size: int, priority: int, maxAttempts: int, force: bool, now: int) returns (reply: Reply)
      requires Valid()
      modifies this
      ensures Valid()
      ensures (View(), reply) == DoEnqueue(old(View()), Event.Enqueue(replay, size, priority, maxAttempts, force, now))
    {
      hide Inv, HasActive;
      ghost var before, e := View(), Event.Enqueue(replay, size, priority, maxAttempts, force, now);
      var oldSizes := sizes;
      if replay !in sizes {
        sizes := sizes[replay := size];
      }
      SizesOnly(before, sizes, replay);
      EnqueueKeepsInv(before, e);
      assert View() == before.(sizes := sizes);
      if sizes[replay] != size {
        sizes := oldSizes;
        return Refused(SizeMismatch);
      }
      var active := FindActive(replay);
      if active.Some? {
        return AlreadyQueued(active.value);
      }
      if replay in current && !force {
        return AlreadyIndexed(current[replay]);
      }
      if maxAttempts <= 0 {
        sizes := oldSizes;
        return Refused(Constraint);
      }
      var id := nextJob;
      jobs := jobs[id := Job(replay, Queued, priority, now, now, None, None, 0, maxAttempts, None, None, None, None, None)];
      nextJob := nextJob + 1;
      reply := JobQueued(id);
    }

    /** One row of `expire_exhausted`: the running attempt is abandoned and the job fails. */
    method ExpireRow(j: JobId, now: int, ghost before: Db, ghost done: set<JobId>)
      requires View() == ExpireSome(before, now, done)
      requires j in before.jobs && Exhausted(before.jobs[j], now) && j !in done
      modifies this
      ensures View() == ExpireSome(before, now, done + {j})
    {
      ExpireOneMore(before, now, done, j);
      hide *;
      var last := (j, jobs[j].attempts);
      if last in attempts {
        attempts := attempts[last := AbandonAttempt(attempts[last], now, LeaseExpiredMaxAttempts)];
      }
      jobs := jobs[j := ExpireJob(jobs[j], now)];
      ExpiredViews(View(), ExpireSome(before, now, done), ExpireSome(before, now, done + {j}));
    }

    /** The rows that `expire_exhausted` selects, updated one by one. */
    method ExpireExhausted(now: int)
      requires Valid()
      modifies this
      ensures Valid()
      ensures View() == ExpireAll(old(View()), now)
    {
      hide Inv, ExpireSome, ExpireAll, Exhausted, SortedKeys;
      ghost var before := View();
      ExpireKeepsInv(before, now);
      ExpireNone(before, now);
      var rows := ExhaustedRows(jobs, now);
      hide ExhaustedRows;
      ghost var done: set<JobId> := {};
      for i := 0 to |rows|
        invariant forall j :: j in done <==> j in rows[..i]
        invariant View() == ExpireSome(before, now, done)
      {
        RowAt(rows, i);
        ExpireRow(rows[i], now, before, done);
        done := done + {rows[i]};
      }
      assert rows[..|rows|] == rows;
      ExpireEvery(before, now, done);
    }

    /** The least claimable row in claim order. */
    method FindNextClaim(now: int) returns (found: Option<JobId>)
      ensures found.Some? <==> AnyClaimable(jobs, now)
      ensures found.Some? ==> found.value == NextClaim(jobs, now)
    {
      var keys := SortedKeys(jobs.Keys);
      found := None;
      for i := 0 to |keys|
        invariant found.None? ==> forall k :: 0 <= k < i ==> keys[k] in jobs && !Claimable(jobs[keys[k]], now)
        invariant found.Some? ==> found.value in jobs && Claimable(jobs[found.value], now)
        invariant found.Some? ==> forall k :: 0 <= k < i ==>
                    keys[k] in jobs && (Claimable(jobs[keys[k]], now) ==> ClaimsBefore(jobs, found.value, keys[k]))
      {
        assert keys[i] in keys;
        if Claimable(jobs[keys[i]], now) && (found.None? || !ClaimsBefore(jobs, found.value, keys[i])) {
          found := Some(keys[i]);
        }
      }
      if found.Some? {
        assert IsNextClaim(jobs, now, found.value);
        NextClaimIsUnique(jobs, now, found.value, NextClaim(jobs, now));
      }
    }

    /** `claim`: expire exhausted rows, then lease the next row for a new attempt. */
    method Claim(worker: Worker, leaseMs: int, now: int) returns (reply: Reply)
      requires Valid()
      modifies this
      ensures Valid()
      ensures (View(), reply) == DoClaim(old(View()), Event.Claim(worker, leaseMs, now))
    {
      hide Inv, ExpireAll, AnyClaimable;
      ghost var before, e := View(), Event.Claim(worker, leaseMs, now);
      ClaimKeepsInv(before, e);
      ExpireExhausted(now);
      ghost var swept := View();
      var next := FindNextClaim(now);
      if next.None? {
        return Idle;
      }
      var j := next.value;
      JobFactsForClaim(swept, j);
      var job := jobs[j];
      var recovered := job.status == Running;
      if recovered && (j, job.attempts) in attempts {
        attempts := attempts[(j, job.attempts) := AbandonAttempt(attempts[(j, job.attempts)], now, LeaseExpired)];
      }
      var attempt := job.attempts + 1;
      jobs := jobs[j := ClaimJob(job, worker, leaseMs, now)];
      attempts := attempts[(j, attempt) := Attempt(worker, now, recovered, None, InProgress, None)];
      reply := Claimed(j, attempt, recovered);
    }

    method Heartbeat(f: Fence, leaseMs: int, now: int) returns (reply: Reply)
      requires Valid()
      modifies this
      ensures Valid()
      ensures (View(), reply) == DoHeartbeat(old(View()), Event.Heartbeat(f, leaseMs, now))
    {
      hide Inv;
      HeartbeatKeepsInv(View(), Event.Heartbeat(f, leaseMs, now));
      if !Owns(View(), f) {
        return Refused(NotOwner);
      }
      jobs := jobs[f.job := jobs[f.job].(lease := Some(now + leaseMs), heartbeat := Some(now))];
      reply := Renewed(now + leaseMs);
    }

    /** `finish` with a result: only an indexed analysis of the job's own replay is accepted. */
    method Succeed(f: Fence, run: RunId, now: int) returns (reply: Reply)
      requires Valid()
      modifies this
      ensures Valid()
      ensures (View(), reply) == DoSucceed(old(View()), Event.Succeed(f, run, now))
    {
      hide Inv, DoEnqueue, DoClaim, DoRetry, DoIngest;
      ApplyKeepsInv(View(), Event.Succeed(f, run, now));
      if !Owns(View(), f) {
        return Refused(NotOwner);
      }
      if !(run in runs && runs[run].replay == jobs[f.job].replay && runs[run].indexed) {
        return Refused(NotIndexed);
      }
      jobs := jobs[f.job := FinishJob(jobs[f.job], Some(run), None, now)];
      if (f.job, f.attempt) in attempts {
        attempts := attempts[(f.job, f.attempt) := FinishAttempt(attempts[(f.job, f.attempt)], None, now)];
      }
      reply := Finished(f.job);
    }

    method Fail(f: Fence, error: JobError, now: int) returns (reply: Reply)
      requires Valid()
      modifies this
      ensures Valid()
      ensures (View(), reply) == DoFail(old(View()), Event.Fail(f, error, now))
    {
      hide Inv, DoEnqueue, DoClaim, DoRetry, DoIngest;
      ApplyKeepsInv(View(), Event.Fail(f, error, now));
      if !Owns(View(), f) {
        return Refused(NotOwner);
      }
      jobs := jobs[f.job := FinishJob(jobs[f.job], None, Some(error), now)];
      if (f.job, f.attempt) in attempts {
        attempts := attempts[(f.job, f.attempt) := FinishAttempt(attempts[(f.job, f.attempt)], Some(error), now)];
      }
      reply := Finished(f.job);
    }

    method Retry(j: JobId, now: int) returns (reply: Reply)
      requires Valid()
      modifies this
      ensures Valid()
      ensures (View(), reply) == DoRetry(old(View()), Event.Retry(j, now))
    {
      hide Inv, HasActive;
      RetryKeepsInv(View(), Event.Retry(j, now));
      if !(j in jobs && jobs[j].status == Failed) {
        return Refused(NotFailed);
      }
      var other := FindActive(jobs[j].replay);
      if other.Some? {
        return Refused(Constraint);
      }
      jobs := jobs[j := Requeue(jobs[j], now)];
      reply := Requeued(j);
    }

    /** `ingest_replay_analysis`, with the attempt fence when a job drives it. */
    method Ingest(key: Key, replay: Replay, size: int, guard: Option<Fence>, now: int) returns (reply: Reply)
      requires Valid()
      modifies this
      ensures Valid()
      ensures (View(), reply) == DoIngest(old(View()), Event.Ingest(key, replay, size, guard, now))
    {
      hide Inv, HasKey, FenceHolds;
      IngestKeepsInv(View(), Event.Ingest(key, replay, size, guard, now));
      if guard.Some? && !FenceHolds(View(), guard.value, replay, now) {
        return Refused(Stale);
      }
      var existing := FindRun(key);
      if existing.Some? {
        if !runs[existing.value].indexed {
          return Refused(NotIndexed);
        }
        return NoOp(existing.value);
      }
      if replay !in sizes {
        sizes := sizes[replay := size];
      }
      var id := nextRun;
      runs := runs[id := Run(key, replay, true)];
      current := current[replay := id];
      nextRun := nextRun + 1;
      reply := Indexed(id);
    }
  }

  lemma {:induction false} ExpiredViews(now: Db, was: Db, next: Db)
    requires now.jobs == next.jobs && now.attempts == next.attempts
    requires now.runs == was.runs == next.runs && now.current == was.current == next.current
    requires now.sizes == next.sizes && now.nextJob == next.nextJob && now.nextRun == next.nextRun
    ensures now == next
  {
  }

  lemma {:induction false} JobFactsForClaim(db: Db, j: JobId)
    requires Inv(db) && j in db.jobs
    ensures (j, db.jobs[j].attempts + 1) !in db.attempts
  {
  }
}
