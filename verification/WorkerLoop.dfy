/** The worker of packages/corpus-store/src/jobs.ts (`createAnalysisWorker().once`) running the
    publisher of packages/corpus-store/src/publication.ts: which outcomes it reports as
    success, which as failure, and when it leaves its lease to expire.  Any number of workers
    interleave with everybody else's transactions; a worker may crash at any point. */
module WorkerLoop {
  import opened JobColumns
  import opened JobHistory
  import opened JobQueue
  import opened Options

  /** Cleaning: the ingest is over (with its answer, if one was heard) and the publisher's
      `finally` block is due.  Threw: the analysis ended in an error; `published` is whether the
      worker knows that the publication is durable. */
  datatype Stage =
    | Working
    | Cleaning(answer: Option<RunId>)
    | Returned(run: RunId)
    | Threw(error: JobError, published: bool)

  /** `lost` is `heartbeatFailure`. */
  datatype Proc = Proc(stage: Stage, lost: bool)

  /** `committed`: attempts whose ingest the database accepted.  `unclean`: attempts whose
      publisher failed while removing its staging directory. */
  datatype Sys = Sys(db: Db, procs: map<Fence, Proc>, committed: set<Fence>, unclean: set<Fence>)

  datatype Action =
    | Outside(event: Event)
    | Take(worker: Worker, leaseMs: int, now: int)
    | Beat(fence: Fence, leaseMs: int, now: int)
    | BeatLost(fence: Fence)
    | GiveUp(fence: Fence, error: JobError)
    | Deliver(fence: Fence, key: Key, size: int, now: int, heard: bool)
    | CleanUp(fence: Fence, failure: Option<JobError>)
    | Settle(fence: Fence, now: int)
    | Crash(fence: Fence)

  /** What an error during the ingest is reported as. */
  const INGEST_FAILED: JobError := Reported(0)

  /** The bookkeeping that ends `once`: nothing means that the lease is left to expire. */
  function Bookkeeping(f: Fence, p: Proc, now: int): Option<Event> {
    match p.stage
    case Returned(run) => if p.lost then None else Some(Succeed(f, run, now))
    case Threw(error, published) => if p.lost || published then None else Some(Fail(f, error, now))
    case _ => None
  }

  predicate IsOver(p: Proc) { p.stage.Returned? || p.stage.Threw? }

  function AnswerOf(r: Reply): Option<RunId> {
    match r
    case Indexed(run) => Some(run)
    case NoOp(run) => Some(run)
    case _ => None
  }

  ghost function Act(s: Sys, a: Action): Sys {
    match a
    case Outside(e) => if FenceOf(e).None? && !e.Claim? then s.(db := Apply(s.db, e).0) else s
    case Take(worker, leaseMs, now) =>
      var (db', reply) := Apply(s.db, Claim(worker, leaseMs, now));
      s.(db := db',
         procs := if reply.Claimed? then s.procs[Fence(reply.job, worker, reply.attempt) := Proc(Working, false)] else s.procs)
    case Beat(f, leaseMs, now) =>
      if f !in s.procs then s
      else
        var (db', reply) := Apply(s.db, Heartbeat(f, leaseMs, now));
        s.(db := db', procs := if reply.Refused? then s.procs[f := s.procs[f].(lost := true)] else s.procs)
    case BeatLost(f) => if f in s.procs then s.(procs := s.procs[f := s.procs[f].(lost := true)]) else s
    case GiveUp(f, error) =>
      if f in s.procs && s.procs[f].stage.Working? then s.(procs := s.procs[f := s.procs[f].(stage := Threw(error, false))]) else s
    case Deliver(f, key, size, now, heard) =>
      if !(f in s.procs && s.procs[f].stage.Working? && f.job in s.db.jobs) then s
      else
        var (db', reply) := Apply(s.db, Ingest(key, s.db.jobs[f.job].replay, size, Some(f), now));
        s.(db := db', committed := if AnswerOf(reply).Some? then s.committed + {f} else s.committed,
           procs := s.procs[f := s.procs[f].(stage := Cleaning(if heard then AnswerOf(reply) else None))])
    case CleanUp(f, failure) =>
      if !(f in s.procs && s.procs[f].stage.Cleaning?) then s
      else if failure.Some? then
        s.(unclean := s.unclean + {f}, procs := s.procs[f := s.procs[f].(stage := Threw(failure.value, false))])
      else
        var answer := s.procs[f].stage.answer;
        s.(procs := s.procs[f := s.procs[f].(stage := if answer.Some? then Returned(answer.value) else Threw(INGEST_FAILED, true))])
    case Settle(f, now) =>
      if !(f in s.procs && IsOver(s.procs[f])) then s
      else
        var e := Bookkeeping(f, s.procs[f], now);
        s.(db := if e.Some? then Apply(s.db, e.value).0 else s.db, procs := s.procs - {f})
    case Crash(f) => s.(procs := s.procs - {f})
  }

  ghost function Run(s: Sys, actions: seq<Action>): Sys {
    if actions == [] then s else Act(Run(s, actions[..|actions| - 1]), actions[|actions| - 1])
  }

  const START: Sys := Sys(EMPTY, map[], {}, {})

  // ----- Who breaks an attempt -----

  lemma {:induction false} ExpiryBreaksNothing(db: Db, now: int, a: AttemptId)
    requires a in db.attempts
    ensures a in ExpireAll(db, now).attempts
    ensures ExpireAll(db, now).attempts[a].outcome == Broken ==> db.attempts[a].outcome == Broken
  {
  }

  lemma {:induction false} ClaimBreaksNothing(db: Db, e: Event, a: AttemptId)
    requires Inv(db) && e.Claim? && a in DoClaim(db, e).0.attempts && DoClaim(db, e).0.attempts[a].outcome == Broken
    ensures a in db.attempts && db.attempts[a].outcome == Broken
  {
    hide Inv, NextClaim, AnyClaimable;
    if a in db.attempts {
      ExpiryBreaksNothing(db, e.now, a);
    }
  }

  /** Only the attempt's own failure report makes it broken. */
  lemma {:induction false} BrokenByOwnReport(db: Db, e: Event, a: AttemptId)
    requires Inv(db) && a in Apply(db, e).0.attempts && Apply(db, e).0.attempts[a].outcome == Broken
    ensures (a in db.attempts && db.attempts[a].outcome == Broken)
            || (e.Fail? && Owns(db, e.fence) && a == (e.fence.job, e.fence.attempt))
  {
    hide Inv, DoClaim, HasActive, HasKey, FenceHolds;
    if e.Claim? {
      ClaimBreaksNothing(db, e, a);
    }
  }

  // ----- The invariant -----

  predicate KnownAttempt(db: Db, f: Fence) {
    (f.job, f.attempt) in db.attempts && db.attempts[(f.job, f.attempt)].worker == f.worker
  }

  predicate IsBroken(db: Db, f: Fence)
    requires KnownAttempt(db, f)
  {
    db.attempts[(f.job, f.attempt)].outcome == Broken
  }

  ghost predicate FencesKnown(s: Sys) { forall f :: f in s.procs || f in s.committed ==> KnownAttempt(s.db, f) }

  /** A worker that may still report a failure has not committed, or could not clean up. */
  predicate MayReport(s: Sys, f: Fence)
    requires f in s.procs
  {
    && (s.procs[f].stage.Working? ==> f !in s.committed)
    && (s.procs[f].stage.Threw? && !s.procs[f].stage.published && f in s.committed ==> f in s.unclean)
  }

  ghost predicate CommittedUnbroken(s: Sys)
    requires FencesKnown(s)
  {
    forall f :: f in s.committed && f !in s.unclean ==> !IsBroken(s.db, f)
  }

  ghost predicate WorkersInv(s: Sys) {
    FencesKnown(s) && (forall f :: f in s.procs ==> MayReport(s, f)) && CommittedUnbroken(s)
  }

  ghost predicate SysInv(s: Sys) { Inv(s.db) && WorkersInv(s) }

  lemma {:induction false} KnownStaysKnown(db: Db, e: Event, f: Fence)
    requires Inv(db) && KnownAttempt(db, f)
    ensures KnownAttempt(Apply(db, e).0, f)
  {
    ApplyIsLater(db, e);
    assert AttemptLater(db.attempts[(f.job, f.attempt)], Apply(db, e).0.attempts[(f.job, f.attempt)]);
    hide Inv, Apply, JobsLater, RunsLater;
  }

  /** Two fences on a running attempt are the same fence. */
  lemma {:induction false} OwnerIsKnown(db: Db, f: Fence, g: Fence)
    requires Inv(db) && Owns(db, g) && KnownAttempt(db, f) && f.job == g.job && f.attempt == g.attempt
    ensures f == g
  {
    JobFacts(db, g.job);
    hide Inv;
  }

  lemma {:induction false} StaysUnbroken(db: Db, e: Event, f: Fence)
    requires Inv(db) && KnownAttempt(db, f) && !IsBroken(db, f) && !(e.Fail? && e.fence == f)
    ensures KnownAttempt(Apply(db, e).0, f) && !IsBroken(Apply(db, e).0, f)
  {
    KnownStaysKnown(db, e, f);
    hide Inv, Apply, Owns;
    if IsBroken(Apply(db, e).0, f) {
      BrokenByOwnReport(db, e, (f.job, f.attempt));
      OwnerIsKnown(db, f, e.fence);
    }
  }

  lemma {:induction false} TransactionKeepsWorkers(s: Sys, e: Event, db': Db)
    requires Inv(s.db) && WorkersInv(s) && db' == Apply(s.db, e).0
    requires e.Fail? && e.fence in s.committed ==> e.fence in s.unclean
    ensures WorkersInv(s.(db := db'))
  {
    hide Inv, Apply, KnownAttempt, IsBroken;
    forall f | f in s.procs || f in s.committed
      ensures KnownAttempt(db', f)
    {
      KnownStaysKnown(s.db, e, f);
    }
    forall f | f in s.committed && f !in s.unclean
      ensures !IsBroken(db', f)
    {
      StaysUnbroken(s.db, e, f);
    }
    var s' := s.(db := db');
    forall f | f in s.procs
      ensures MayReport(s', f)
    {
      assert MayReport(s, f);
    }
  }

  /** A transaction keeps the invariant unless it reports the failure of a clean, committed attempt. */
  lemma {:induction false} TransactionKeepsInv(s: Sys, e: Event)
    requires SysInv(s) && (e.Fail? && e.fence in s.committed ==> e.fence in s.unclean)
    ensures SysInv(s.(db := Apply(s.db, e).0))
  {
    hide Inv, Apply, WorkersInv;
    ApplyKeepsInv(s.db, e);
    TransactionKeepsWorkers(s, e, Apply(s.db, e).0);
  }

  lemma {:induction false} TakenIsNew(db: Db, e: Event)
    requires Inv(db) && e.Claim? && Apply(db, e).1.Claimed?
    ensures var r := Apply(db, e).1;
            (r.job, r.attempt) !in db.attempts && KnownAttempt(Apply(db, e).0, Fence(r.job, e.worker, r.attempt))
  {
    hide Inv, NextClaim, AnyClaimable;
  }

  lemma {:induction false} TakeKeepsInv(s: Sys, worker: Worker, leaseMs: int, now: int)
    requires SysInv(s)
    ensures SysInv(Act(s, Take(worker, leaseMs, now)))
  {
    var e := Claim(worker, leaseMs, now);
    TransactionKeepsInv(s, e);
    hide Inv, Apply;
    var reply := Apply(s.db, e).1;
    if reply.Claimed? {
      TakenIsNew(s.db, e);
      NewProcKeepsInv(s, s.(db := Apply(s.db, e).0), Fence(reply.job, worker, reply.attempt));
    }
    hide *;
  }

  lemma {:induction false} NewProcKeepsInv(before: Sys, s: Sys, f: Fence)
    requires SysInv(before) && SysInv(s) && before.committed == s.committed
    requires !KnownAttempt(before.db, f) && KnownAttempt(s.db, f)
    ensures SysInv(s.(procs := s.procs[f := Proc(Working, false)]))
  {
    hide Inv, KnownAttempt, IsBroken;
    var s' := s.(procs := s.procs[f := Proc(Working, false)]);
    forall g | g in s'.procs
      ensures MayReport(s', g)
    {
      assert g != f ==> MayReport(s, g);
    }
  }

  /** Changing a proc's stage or heartbeat flag. */
  lemma {:induction false} ProcKeepsInv(s: Sys, f: Fence, p: Proc)
    requires SysInv(s) && f in s.procs
    requires p.stage.Working? ==> f !in s.committed
    requires p.stage.Threw? && !p.stage.published && f in s.committed ==> f in s.unclean
    ensures SysInv(s.(procs := s.procs[f := p]))
  {
    hide Inv, KnownAttempt, IsBroken;
    var s' := s.(procs := s.procs[f := p]);
    forall g | g in s'.procs
      ensures MayReport(s', g)
    {
      assert g != f ==> MayReport(s, g);
    }
  }

  lemma {:induction false} BeatKeepsInv(s: Sys, f: Fence, leaseMs: int, now: int)
    requires SysInv(s)
    ensures SysInv(Act(s, Beat(f, leaseMs, now)))
  {
    hide SysInv, Apply;
    if f in s.procs {
      var e := Heartbeat(f, leaseMs, now);
      TransactionKeepsInv(s, e);
      ProcMayReport(s, f);
      ProcKeepsInv(s.(db := Apply(s.db, e).0), f, s.procs[f].(lost := true));
    }
  }

  lemma {:induction false} ProcMayReport(s: Sys, f: Fence)
    requires SysInv(s) && f in s.procs
    ensures MayReport(s, f)
  {
    hide Inv, MayReport, FencesKnown;
  }

  lemma {:induction false} IngestKeepsAttempts(db: Db, e: Event)
    requires e.Ingest?
    ensures Apply(db, e).0.attempts == db.attempts
  {
    hide HasKey, FenceHolds;
  }

  /** An accepted ingest comes from an attempt in progress. */
  lemma {:induction false} DeliverKeepsInv(s: Sys, f: Fence, key: Key, size: int, now: int, heard: bool)
    requires SysInv(s)
    ensures SysInv(Act(s, Deliver(f, key, size, now, heard)))
  {
    hide SysInv, Inv, Apply, AnswerOf, KnownAttempt, IsBroken;
    if f in s.procs && s.procs[f].stage.Working? && f.job in s.db.jobs {
      var e := Ingest(key, s.db.jobs[f.job].replay, size, Some(f), now);
      var reply := Apply(s.db, e).1;
      ProcIsKnown(s, f);
      TransactionKeepsInv(s, e);
      if AnswerOf(reply).Some? {
        AcceptedIsCurrent(s.db, e, f);
      }
      CommitKeepsInv(s.(db := Apply(s.db, e).0), f, Cleaning(if heard then AnswerOf(reply) else None),
                     if AnswerOf(reply).Some? then s.committed + {f} else s.committed);
    }
  }

  lemma {:induction false} AcceptedIsCurrent(db: Db, e: Event, f: Fence)
    requires Inv(db) && e.Ingest? && e.guard == Some(f) && AnswerOf(Apply(db, e).1).Some?
    ensures KnownAttempt(Apply(db, e).0, f) && !IsBroken(Apply(db, e).0, f)
  {
    FencedIngestIsCurrent(db, e);
    IngestKeepsAttempts(db, e);
    hide Inv, Apply;
  }

  lemma {:induction false} CommitKeepsInv(s: Sys, f: Fence, stage: Stage, committed: set<Fence>)
    requires SysInv(s) && f in s.procs && stage.Cleaning?
    requires committed == s.committed || (committed == s.committed + {f} && KnownAttempt(s.db, f) && !IsBroken(s.db, f))
    ensures SysInv(s.(committed := committed, procs := s.procs[f := s.procs[f].(stage := stage)]))
  {
    hide Inv;
    var s' := s.(committed := committed, procs := s.procs[f := s.procs[f].(stage := stage)]);
    forall g | g in s'.procs
      ensures MayReport(s', g)
    {
      assert g != f ==> MayReport(s, g);
    }
  }

  lemma {:induction false} CleanUpKeepsInv(s: Sys, f: Fence, failure: Option<JobError>)
    requires SysInv(s)
    ensures SysInv(Act(s, CleanUp(f, failure)))
  {
    hide Inv, KnownAttempt;
    if f in s.procs && s.procs[f].stage.Cleaning? {
      if failure.Some? {
        var s1 := s.(unclean := s.unclean + {f});
        forall g | g in s.procs
          ensures MayReport(s1, g)
        {
          assert MayReport(s, g);
        }
        assert SysInv(s1);
        hide SysInv;
        ProcKeepsInv(s1, f, s.procs[f].(stage := Threw(failure.value, false)));
      } else {
        var answer := s.procs[f].stage.answer;
        ProcKeepsInv(s, f, s.procs[f].(stage := if answer.Some? then Returned(answer.value) else Threw(INGEST_FAILED, true)));
      }
    }
  }

  lemma {:induction false} EndKeepsInv(s: Sys, f: Fence)
    requires SysInv(s)
    ensures SysInv(s.(procs := s.procs - {f}))
  {
    hide Inv, KnownAttempt, IsBroken;
    var s' := s.(procs := s.procs - {f});
    forall g | g in s'.procs
      ensures MayReport(s', g)
    {
      assert MayReport(s, g);
    }
  }

  lemma {:induction false} SettleKeepsInv(s: Sys, f: Fence, now: int)
    requires SysInv(s)
    ensures SysInv(Act(s, Settle(f, now)))
  {
    hide SysInv, Apply, Bookkeeping;
    if f in s.procs && IsOver(s.procs[f]) {
      var e := Bookkeeping(f, s.procs[f], now);
      MayFail(s, f, now);
      if e.Some? {
        TransactionKeepsInv(s, e.value);
        EndKeepsInv(s.(db := Apply(s.db, e.value).0), f);
      } else {
        EndKeepsInv(s, f);
      }
    }
  }

  /** A failure report never comes from a clean, committed attempt. */
  lemma {:induction false} MayFail(s: Sys, f: Fence, now: int)
    requires SysInv(s) && f in s.procs
    ensures var e := Bookkeeping(f, s.procs[f], now);
            e.Some? && e.value.Fail? && e.value.fence in s.committed ==> e.value.fence in s.unclean
  {
    assert MayReport(s, f);
    hide Inv, FencesKnown, CommittedUnbroken;
  }

  lemma {:induction false} ActKeepsInv(s: Sys, a: Action)
    requires SysInv(s)
    ensures SysInv(Act(s, a))
  {
    match a
    case Outside(e) =>
      if FenceOf(e).None? && !e.Claim? {
        TransactionKeepsInv(s, e);
      }
    case Take(worker, leaseMs, now) => TakeKeepsInv(s, worker, leaseMs, now);
    case Beat(f, leaseMs, now) => BeatKeepsInv(s, f, leaseMs, now);
    case BeatLost(f) =>
      if f in s.procs {
        assert MayReport(s, f);
        hide SysInv;
        ProcKeepsInv(s, f, s.procs[f].(lost := true));
      }
    case GiveUp(f, error) =>
      if f in s.procs && s.procs[f].stage.Working? {
        assert MayReport(s, f);
        hide SysInv;
        ProcKeepsInv(s, f, s.procs[f].(stage := Threw(error, false)));
      }
    case Deliver(f, key, size, now, heard) => DeliverKeepsInv(s, f, key, size, now, heard);
    case CleanUp(f, failure) => CleanUpKeepsInv(s, f, failure);
    case Settle(f, now) => SettleKeepsInv(s, f, now);
    case Crash(f) => EndKeepsInv(s, f);
  }

  /** In every run, whatever crashes and however workers interleave: an attempt whose ingest was
      accepted is never recorded as failed by its worker, unless the publisher could not remove
      its staging directory. */
  lemma {:induction false} RunKeepsInv(actions: seq<Action>)
    ensures SysInv(Run(START, actions))
  {
    if actions == [] {
      EmptyKeepsInv();
    } else {
      RunKeepsInv(actions[..|actions| - 1]);
      ActKeepsInv(Run(START, actions[..|actions| - 1]), actions[|actions| - 1]);
    }
  }

  /** The exception is real: an error while cleaning up hides the publication from the worker,
      which then reports a failure although its ingest is in the database. */
  lemma {:induction false} UncleanIsReported(s: Sys, f: Fence, error: JobError, now: int)
    requires SysInv(s) && f in s.procs && s.procs[f].stage.Cleaning? && !s.procs[f].lost && Owns(s.db, f)
    ensures var s' := Act(Act(s, CleanUp(f, Some(error))), Settle(f, now));
            && KnownAttempt(s'.db, f) && IsBroken(s'.db, f)
            && (f in s'.committed <==> f in s.committed) && s'.db.runs == s.db.runs
            && f.job in s'.db.jobs && s'.db.jobs[f.job].status == Failed
  {
    hide SysInv, Inv, Act, KnownAttempt, IsBroken, Owns, Apply;
    ProcIsKnown(s, f);
    EndOfAttempt(s, f, Some(error), now);
    ReportBreaks(s.db, Fail(f, error, now), f);
    FailedJob(s.db, f, error, now);
  }

  lemma {:induction false} FailedJob(db: Db, f: Fence, error: JobError, now: int)
    requires Owns(db, f)
    ensures var db' := Apply(db, Fail(f, error, now)).0; f.job in db'.jobs && db'.jobs[f.job].status == Failed
  {
  }

  /** The exact condition.  Ending an attempt records it as failed if and only if cleaning up
      failed while the worker still held its lease and had missed no heartbeat; the ingest is
      in the database, or not, as before. */
  lemma {:induction false} ReportedIffUnclean(s: Sys, f: Fence, failure: Option<JobError>, now: int)
    requires SysInv(s) && f in s.procs && s.procs[f].stage.Cleaning?
    ensures var s' := Act(Act(s, CleanUp(f, failure)), Settle(f, now));
            && KnownAttempt(s.db, f) && KnownAttempt(s'.db, f)
            && (IsBroken(s'.db, f) <==> IsBroken(s.db, f) || (failure.Some? && !s.procs[f].lost && Owns(s.db, f)))
            && (Owns(s.db, f) ==> !IsBroken(s.db, f))
            && (f in s'.committed <==> f in s.committed) && s'.db.runs == s.db.runs
  {
    hide SysInv, Apply, KnownAttempt, IsBroken, Owns, Act, Bookkeeping;
    ProcIsKnown(s, f);
    OwnedIsUnbroken(s.db, f);
    EndOfAttempt(s, f, failure, now);
    var e := LastReport(s.procs[f], f, failure, now);
    LastReportIs(s.procs[f], f, failure, now);
    if e.Some? {
      ReportBreaks(s.db, e.value, f);
    }
  }

  /** The report that ends an attempt whose publisher is cleaning up. */
  function LastReport(p: Proc, f: Fence, failure: Option<JobError>, now: int): Option<Event>
    requires p.stage.Cleaning?
  {
    if p.lost then None
    else if failure.Some? then Some(Fail(f, failure.value, now))
    else if p.stage.answer.Some? then Some(Succeed(f, p.stage.answer.value, now))
    else None
  }

  lemma {:induction false} LastReportIs(p: Proc, f: Fence, failure: Option<JobError>, now: int)
    requires p.stage.Cleaning?
    ensures var e := LastReport(p, f, failure, now);
            && (e.Some? ==> (e.value.Succeed? || e.value.Fail?) && e.value.fence == f)
            && (e.Some? && e.value.Fail? <==> failure.Some? && !p.lost)
  {
  }

  lemma {:induction false} EndOfAttempt(s: Sys, f: Fence, failure: Option<JobError>, now: int)
    requires f in s.procs && s.procs[f].stage.Cleaning?
    ensures var e, s' := LastReport(s.procs[f], f, failure, now), Act(Act(s, CleanUp(f, failure)), Settle(f, now));
            s'.db == (if e.Some? then Apply(s.db, e.value).0 else s.db) && s'.committed == s.committed
  {
    hide Apply;
  }

  lemma {:induction false} ProcIsKnown(s: Sys, f: Fence)
    requires SysInv(s) && f in s.procs
    ensures Inv(s.db) && KnownAttempt(s.db, f)
  {
    hide Inv;
  }

  lemma {:induction false} OwnedIsUnbroken(db: Db, f: Fence)
    requires Inv(db) && KnownAttempt(db, f)
    ensures Owns(db, f) ==> !IsBroken(db, f)
  {
    if Owns(db, f) {
      JobFacts(db, f.job);
    }
    hide Inv;
  }

  /** What a worker's last report does to its attempt and to the analyses. */
  lemma {:induction false} ReportBreaks(db: Db, e: Event, f: Fence)
    requires Inv(db) && KnownAttempt(db, f) && (e.Succeed? || e.Fail?) && e.fence == f
    ensures KnownAttempt(Apply(db, e).0, f) && Apply(db, e).0.runs == db.runs
    ensures IsBroken(Apply(db, e).0, f) <==> IsBroken(db, f) || (e.Fail? && Owns(db, f))
  {
    OwnedIsUnbroken(db, f);
    hide Inv;
  }

  // ----- What a run of the worker leaves in the database -----

  /** An analysis that ends in an error before anything is published is reported: if the lease is
      still the worker's own and no heartbeat was missed, the job is failed with that error;
      otherwise the database stays as it is. */
  lemma {:induction false} GiveUpIsReported(s: Sys, f: Fence, error: JobError, now: int)
    requires SysInv(s) && f in s.procs && s.procs[f].stage.Working?
    ensures var s' := Act(Act(s, GiveUp(f, error)), Settle(f, now));
            var db := s.db;
            var owned := f.job in db.jobs && db.jobs[f.job].status == Running && db.jobs[f.job].worker == Some(f.worker)
                         && db.jobs[f.job].attempts == f.attempt;
            && f !in s'.procs && s'.committed == s.committed
            && (owned ==> (f.job, f.attempt) in db.attempts)
            && s'.db
               == if owned && !s.procs[f].lost
                  then db.(jobs := db.jobs[f.job := db.jobs[f.job].(status := Failed, finished := Some(now), worker := None,
                                                                     lease := None, heartbeat := None, result := None,
                                                                     error := Some(error))],
                           attempts := db.attempts[(f.job, f.attempt) :=
                             db.attempts[(f.job, f.attempt)].(outcome := Broken, completedAt := Some(now), error := Some(error))])
                  else db
  {
    hide SysInv, Inv, Apply, Act, KnownAttempt;
    ProcIsKnown(s, f);
    FailOnColumns(s.db, f, error, now);
    GiveUpEnds(s, f, error, now);
  }

  lemma {:induction false} GiveUpEnds(s: Sys, f: Fence, error: JobError, now: int)
    requires f in s.procs && s.procs[f].stage.Working?
    ensures var s' := Act(Act(s, GiveUp(f, error)), Settle(f, now));
            && f !in s'.procs && s'.committed == s.committed
            && s'.db == if s.procs[f].lost then s.db else Apply(s.db, Fail(f, error, now)).0
  {
    hide Apply;
  }

  /** The end of an attempt whose ingest is over, in full: an error while cleaning up is reported
      as a failure and a heard answer as a success; a lost heartbeat or answer reports nothing. */
  lemma {:induction false} EndIsReported(s: Sys, f: Fence, failure: Option<JobError>, now: int)
    requires f in s.procs && s.procs[f].stage.Cleaning?
    ensures var s' := Act(Act(s, CleanUp(f, failure)), Settle(f, now)); var answer := s.procs[f].stage.answer;
            && f !in s'.procs && s'.committed == s.committed
            && s'.db
               == if s.procs[f].lost then s.db
                  else if failure.Some? then Apply(s.db, Fail(f, failure.value, now)).0
                  else if answer.Some? then Apply(s.db, Succeed(f, answer.value, now)).0
                  else s.db
  {
    hide Apply;
  }

  /** The ingest speaks for the worker's own attempt and its job's replay; the worker counts as
      having committed exactly when the database accepted it, and knows the answer if it heard it. */
  lemma {:induction false} DeliveryOnColumns(s: Sys, f: Fence, key: Key, size: int, now: int, heard: bool)
    requires f in s.procs && s.procs[f].stage.Working? && f.job in s.db.jobs
    ensures var s' := Act(s, Deliver(f, key, size, now, heard));
            var (db', r) := Apply(s.db, Ingest(key, s.db.jobs[f.job].replay, size, Some(f), now));
            && s'.db == db' && s'.unclean == s.unclean
            && s'.committed == (if r.Indexed? || r.NoOp? then s.committed + {f} else s.committed)
            && f in s'.procs && s'.procs[f].lost == s.procs[f].lost && s'.procs[f].stage.Cleaning?
            && (s'.procs[f].stage.answer.Some? <==> heard && (r.Indexed? || r.NoOp?))
            && (heard && (r.Indexed? || r.NoOp?) ==> s'.procs[f].stage.answer == Some(r.run))
  {
    hide Apply;
  }

  /** A refused heartbeat marks the worker, and a marked worker reports nothing: whatever else
      happens, it stays marked until its attempt is over, and its end leaves the database alone. */
  lemma {:induction false} RefusedBeatSilences(s: Sys, f: Fence, leaseMs: int, now: int)
    requires f in s.procs && Apply(s.db, Heartbeat(f, leaseMs, now)).1.Refused?
    ensures f in Act(s, Beat(f, leaseMs, now)).procs && Act(s, Beat(f, leaseMs, now)).procs[f].lost
  {
    hide Apply;
  }

  lemma {:induction false} TakenIsOther(db: Db, e: Event, f: Fence)
    requires Inv(db) && e.Claim? && Apply(db, e).1.Claimed? && KnownAttempt(db, f)
    ensures f != Fence(Apply(db, e).1.job, e.worker, Apply(db, e).1.attempt)
  {
    TakenIsNew(db, e);
    hide Inv, Apply;
  }

  lemma {:induction false} LostStaysSilent(s: Sys, a: Action, f: Fence)
    requires SysInv(s) && f in s.procs && s.procs[f].lost
    ensures f in Act(s, a).procs ==> Act(s, a).procs[f].lost
    ensures a.Settle? && a.fence == f ==> Act(s, a).db == s.db
  {
    hide SysInv, Inv, Apply, KnownAttempt;
    ProcIsKnown(s, f);
    if a.Take? && Apply(s.db, Claim(a.worker, a.leaseMs, a.now)).1.Claimed? {
      TakenIsOther(s.db, Claim(a.worker, a.leaseMs, a.now), f);
    }
  }

  // The database of the run below, step by step.

  const FIRST: Fence := Fence(1, 7, 1)

  const NEW_JOB: Job := Job(1, Queued, 0, 0, 0, None, None, 0, 3, None, None, None, None, None)

  const QUEUED: Db := EMPTY.(jobs := map[1 := NEW_JOB], sizes := map[1 := 1], nextJob := 2)

  const CLAIMED: Db := QUEUED.(jobs := map[1 := ClaimJob(NEW_JOB, 7, 100, 0)],
                               attempts := map[(1, 1) := Attempt(7, 0, false, None, InProgress, None)])

  const INDEXED: Db := CLAIMED.(runs := map[1 := JobQueue.Run(5, 1, true)], current := map[1 := 1], nextRun := 2)

  lemma {:induction false} FirstEnqueue()
    ensures Apply(EMPTY, Enqueue(1, 1, 0, 3, false, 0)).0 == QUEUED
  {
    assert !HasActive(EMPTY.(sizes := map[1 := 1]), 1);
  }

  lemma {:induction false} FirstClaim()
    ensures Apply(QUEUED, Claim(7, 100, 0)) == (CLAIMED, Claimed(1, 1, false))
  {
    NothingExpires();
    FirstRow();
    assert 1 in QUEUED.jobs && Claimable(QUEUED.jobs[1], 0);
    hide ExpireAll, ClaimRow;
  }

  lemma {:induction false} NothingExpires()
    ensures ExpireAll(QUEUED, 0) == QUEUED
  {
    assert ExpireAll(QUEUED, 0).jobs == QUEUED.jobs && ExpireAll(QUEUED, 0).attempts == QUEUED.attempts;
  }

  lemma {:induction false} FirstRow()
    ensures ClaimRow(QUEUED, 1, 7, 100, 0) == (CLAIMED, Claimed(1, 1, false))
  {
    var row := ClaimRow(QUEUED, 1, 7, 100, 0);
    assert row.0.jobs == CLAIMED.jobs && row.0.attempts == CLAIMED.attempts;
  }

  lemma {:induction false} FirstIngest()
    ensures Apply(CLAIMED, Ingest(5, 1, 1, Some(FIRST), 10)) == (INDEXED, Indexed(1))
  {
    assert !HasKey(CLAIMED, 5);
  }

  const TAKEN: Sys := Sys(CLAIMED, map[FIRST := Proc(Working, false)], {}, {})

  const DELIVERED: Sys := Sys(INDEXED, map[FIRST := Proc(Cleaning(Some(1)), false)], {FIRST}, {})

  lemma {:induction false} FirstTake()
    ensures Act(Act(START, Outside(Enqueue(1, 1, 0, 3, false, 0))), Take(7, 100, 0)) == TAKEN
  {
    FirstEnqueue();
    FirstClaim();
    hide Apply, ClaimJob;
  }

  /** A run that leaves a lapsed lease, which the next heartbeat revives. */
  lemma {:induction false} LapsedRun()
    ensures var s := Run(START, [Outside(Enqueue(1, 1, 0, 3, false, 0)), Take(7, 100, 0)]);
            && Owns(s.db, FIRST) && !FenceHolds(s.db, FIRST, 1, 150)
            && FenceHolds(Act(s, Beat(FIRST, 100, 150)).db, FIRST, 1, 150)
  {
    hide Run, Act, Apply;
    RunOfTwo(START, Outside(Enqueue(1, 1, 0, 3, false, 0)), Take(7, 100, 0));
    FirstTake();
    BeatRevives();
  }

  lemma {:induction false} BeatRevives()
    ensures Owns(CLAIMED, FIRST) && !FenceHolds(CLAIMED, FIRST, 1, 150)
    ensures FenceHolds(Act(TAKEN, Beat(FIRST, 100, 150)).db, FIRST, 1, 150)
  {
    assert 1 in CLAIMED.jobs && CLAIMED.jobs[1].replay == 1;
    LapsedLeaseIsRevived(CLAIMED, FIRST, 100, 150);
    hide Apply;
  }

  lemma {:induction false} RunOfTwo(s: Sys, a: Action, b: Action)
    ensures Run(s, [a, b]) == Act(Act(s, a), b)
  {
    hide Act;
    RunUnfolds(s, [], a);
    RunUnfolds(s, [a], b);
    assert [] + [a] == [a] && [a] + [b] == [a, b];
  }

  lemma {:induction false} FirstDelivery()
    ensures Act(TAKEN, Deliver(FIRST, 5, 1, 10, true)) == DELIVERED
  {
    FirstIngest();
    assert 1 in CLAIMED.jobs && CLAIMED.jobs[1].replay == 1;
    hide Apply, ClaimJob;
  }

  lemma {:induction false} LastSteps()
    ensures var s := Act(Act(DELIVERED, CleanUp(FIRST, Some(INGEST_FAILED))), Settle(FIRST, 20));
            && FIRST in s.committed && KnownAttempt(s.db, FIRST) && IsBroken(s.db, FIRST)
            && 1 in s.db.jobs && s.db.jobs[1].status == Failed && HasKey(s.db, 5)
  {
    var unclean := Act(DELIVERED, CleanUp(FIRST, Some(INGEST_FAILED)));
    assert unclean == Sys(INDEXED, map[FIRST := Proc(Threw(INGEST_FAILED, false), false)], {FIRST}, {FIRST});
    assert Owns(INDEXED, FIRST);
    assert INDEXED.runs[1].key == 5;
  }

  /** A run in which it happens: one worker claims the only job, its ingest is accepted, the
      staging directory cannot be removed, and the attempt is recorded as failed. */
  lemma {:induction false} UncleanRun()
    ensures var s := Run(START, [Outside(Enqueue(1, 1, 0, 3, false, 0)), Take(7, 100, 0), Deliver(FIRST, 5, 1, 10, true),
                                 CleanUp(FIRST, Some(INGEST_FAILED)), Settle(FIRST, 20)]);
            && FIRST in s.committed && KnownAttempt(s.db, FIRST) && IsBroken(s.db, FIRST)
            && 1 in s.db.jobs && s.db.jobs[1].status == Failed && HasKey(s.db, 5)
  {
    var a := Outside(Enqueue(1, 1, 0, 3, false, 0));
    var b, c := Take(7, 100, 0), Deliver(FIRST, 5, 1, 10, true);
    var d, e := CleanUp(FIRST, Some(INGEST_FAILED)), Settle(FIRST, 20);
    RunOfFive(START, a, b, c, d, e);
    FirstTake();
    FirstDelivery();
    LastSteps();
    hide *;
  }

  lemma {:induction false} RunOfFive(s: Sys, a: Action, b: Action, c: Action, d: Action, e: Action)
    ensures Run(s, [a, b, c, d, e]) == Act(Act(Act(Act(Act(s, a), b), c), d), e)
  {
    hide Act;
    RunUnfolds(s, [], a);
    RunUnfolds(s, [a], b);
    RunUnfolds(s, [a, b], c);
    RunUnfolds(s, [a, b, c], d);
    RunUnfolds(s, [a, b, c, d], e);
    assert [] + [a] == [a] && [a] + [b] == [a, b] && [a, b] + [c] == [a, b, c];
    assert [a, b, c] + [d] == [a, b, c, d] && [a, b, c, d] + [e] == [a, b, c, d, e];
  }

  lemma {:induction false} RunUnfolds(s: Sys, before: seq<Action>, a: Action)
    ensures Run(s, before + [a]) == Act(Run(s, before), a)
  {
    hide Act;
    assert (before + [a])[..|before|] == before;
  }

  /** Without such an error the worker reports success, or leaves its lease alone. */
  lemma {:induction false} CleanIsNotReported(s: Sys, f: Fence, now: int)
    requires f in s.procs && s.procs[f].stage.Cleaning?
    ensures var s' := Act(s, CleanUp(f, None)); var e := Bookkeeping(f, s'.procs[f], now);
            if e.Some? then e.value.Succeed? && !s.procs[f].lost && s.procs[f].stage.answer == Some(e.value.run)
            else s.procs[f].lost || s.procs[f].stage.answer.None?
  {
  }
}
