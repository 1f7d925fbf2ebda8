/** The durable report queue: the job table with its atomic updates, and one worker turn. */
module ReportJobs {
  import opened Common

  type JobId = nat
  type WorkerId = nat

  datatype Status = Pending | Processing | Completed | Failed

  /** The columns of the unique index. A report without a window has None bounds. */
  datatype Window = Window(site: string, reportType: string, reason: string, start: Option<int>, end: Option<int>)

  datatype Job = Job(window: Window, status: Status, attempts: nat, nextAttemptAt: int, createdAt: int,
                     claimedAt: Option<int>, worker: Option<WorkerId>)

  type Jobs = map<JobId, Job>

  const MAX_ATTEMPTS: nat := 3
  const RETRY_AFTER: int := 60
  const LEASE: int := 300

  /** A lease is never shorter than half a minute. */
  function LeaseTime(lease: int): int { Max(30, lease) }

  predicate IsTerminal(job: Job) { job.status == Completed || job.status == Failed }

  // ---------- The row updates ----------

  /** SQL treats NULL bounds as distinct, so only full windows conflict. */
  predicate Conflicts(a: Window, b: Window) { a == b && a.start.Some? && a.end.Some? }

  function NewJob(window: Window, now: int): Job { Job(window, Pending, 0, now, now, None, None) }

  predicate Claimable(job: Job, now: int, lease: int) {
    || (job.status == Pending && job.nextAttemptAt <= now)
    || (job.status == Processing && job.claimedAt.Some? && job.claimedAt.value < now - LeaseTime(lease))
  }

  function Claimed(job: Job, worker: WorkerId, now: int): Job {
    job.(status := Processing, claimedAt := Some(now), worker := Some(worker))
  }

  function AfterFailure(job: Job, now: int): Job {
    job.(status := if job.attempts + 1 >= MAX_ATTEMPTS then Failed else Pending,
         attempts := job.attempts + 1, nextAttemptAt := now + RETRY_AFTER)
  }

  /** UPDATE ... WHERE job_id = id. */
  function Put(jobs: Jobs, id: JobId, job: Job): Jobs { if id in jobs then jobs[id := job] else jobs }

  function CompleteJob(jobs: Jobs, id: JobId): Jobs {
    if id in jobs then Put(jobs, id, jobs[id].(status := Completed)) else jobs
  }

  function FailJob(jobs: Jobs, id: JobId, now: int): Jobs {
    if id in jobs then Put(jobs, id, AfterFailure(jobs[id], now)) else jobs
  }

  /** A claim takes an oldest claimable job that no other claim has locked. */
  ghost predicate IsClaim(jobs: Jobs, now: int, lease: int, locked: set<JobId>, picked: Option<JobId>) {
    match picked
    case None => forall id | id in jobs && id !in locked :: !Claimable(jobs[id], now, lease)
    case Some(id) =>
      && id in jobs && id !in locked && Claimable(jobs[id], now, lease)
      && forall other | other in jobs && other !in locked && Claimable(jobs[other], now, lease) ::
           jobs[id].createdAt <= jobs[other].createdAt
  }

  // ---------- Delivery of the generated report ----------

  /** What became of the worker's own message when the flush returned. */
  datatype Fate = Acked | Errored | Queued

  /** One attempt at a report: it may end before a message is produced, by an exception (`raised`) or
      without content; `othersQueued` counts other workers' messages on the shared producer; a producer
      double without `flush` only polls. */
  datatype Attempt = NoMessage(raised: bool) | Produced(fate: Fate, othersQueued: nat, flushes: bool)

  function Remaining(a: Attempt): nat
    requires a.Produced?
  {
    if !a.flushes then 0 else a.othersQueued + if a.fate == Queued then 1 else 0
  }

  /** A result is returned only without a delivery error and with an empty queue. */
  predicate ReturnsResult(a: Attempt) { a.Produced? && a.fate != Errored && Remaining(a) == 0 }

  /** Without a result the attempt ends in an exception unless there was simply no content. */
  predicate Raises(a: Attempt) { if a.NoMessage? then a.raised else !ReturnsResult(a) }

  /** On a producer that flushes, a returned result means the message was acknowledged; without
      flush it means so exactly when the acknowledgement happened to arrive in time. */
  lemma ResultMeansAcked(a: Attempt)
    requires ReturnsResult(a)
    ensures a.flushes ==> a.fate == Acked
    ensures a.fate == Acked <==> (a.flushes || a.fate != Queued)
  {
  }

  /** How a settling UPDATE ended: done, not done, or done with the reply lost. */
  datatype Commit = Committed | NotCommitted | ReplyLost

  class JobTable {
    var jobs: Jobs

    constructor ()
      ensures jobs == map[]
    {
      jobs := map[];
    }

    /** Inserts a pending job unless one with the same full window exists; `id` is a new id. */
    method Create(id: JobId, window: Window, now: int) returns (stored: JobId)
      requires id !in jobs
      modifies this
      ensures (exists other :: other in old(jobs) && Conflicts(old(jobs)[other].window, window)) ==>
                jobs == old(jobs) && stored in jobs && Conflicts(jobs[stored].window, window)
      ensures !(exists other :: other in old(jobs) && Conflicts(old(jobs)[other].window, window)) ==>
                stored == id && jobs == old(jobs)[id := NewJob(window, now)]
    {
      if existing :| existing in jobs && Conflicts(jobs[existing].window, window) {
        return existing;
      }
      jobs := jobs[id := NewJob(window, now)];
      stored := id;
    }

    method ClaimNext(worker: WorkerId, now: int, lease: int, locked: set<JobId>) returns (picked: Option<JobId>)
      modifies this
      ensures IsClaim(old(jobs), now, lease, locked, picked)
      ensures jobs == if picked.None? then old(jobs)
                      else old(jobs)[picked.value := Claimed(old(jobs)[picked.value], worker, now)]
    {
      picked := None;
      var rows := jobs.Keys;
      while rows != {}
        invariant rows <= jobs.Keys && jobs == old(jobs)
        invariant IsClaim(map id | id in jobs.Keys - rows :: jobs[id], now, lease, locked, picked)
        decreases |rows|
      {
        var id :| id in rows;
        rows := rows - {id};
        if id !in locked && Claimable(jobs[id], now, lease) &&
           (picked.None? || jobs[id].createdAt < jobs[picked.value].createdAt) {
          picked := Some(id);
        }
      }
      if picked.Some? {
        jobs := jobs[picked.value := Claimed(jobs[picked.value], worker, now)];
      }
    }

    method Complete(id: JobId)
      modifies this
      ensures jobs == CompleteJob(old(jobs), id)
    {
      if id in jobs { jobs := jobs[id := jobs[id].(status := Completed)]; }
    }

    method Fail(id: JobId, now: int)
      modifies this
      ensures jobs == FailJob(old(jobs), id, now)
    {
      if id in jobs {
        var job := jobs[id];
        jobs := jobs[id := job.(status := if job.attempts + 1 >= MAX_ATTEMPTS then Failed else Pending,
                                attempts := job.attempts + 1, nextAttemptAt := now + RETRY_AFTER)];
      }
    }

    /** One undisturbed turn of the durable worker: claim, generate, settle. Any error on the way,
        also one from the completing update, ends in the failing update, here a successful one. */
    method WorkerTurn(worker: WorkerId, now: int, later: int, attempt: Attempt, commit: Commit) returns (picked: Option<JobId>)
      modifies this
      ensures IsClaim(old(jobs), now, LEASE, {}, picked)
      ensures picked.None? ==> jobs == old(jobs)
      ensures picked.Some? ==>
                var id := picked.value;
                var claimed := old(jobs)[id := Claimed(old(jobs)[id], worker, now)];
                if ReturnsResult(attempt) && commit == Committed then
                  jobs == claimed[id := claimed[id].(status := Completed)]
                else
                  jobs.Keys == old(jobs).Keys && jobs[id].attempts == old(jobs)[id].attempts + 1 &&
                  jobs[id].status == (if old(jobs)[id].attempts + 1 >= 3 then Failed else Pending) &&
                  jobs[id].nextAttemptAt == later + 60
      ensures forall other | other in old(jobs) && picked != Some(other) :: other in jobs && jobs[other] == old(jobs)[other]
    {
      picked := ClaimNext(worker, now, LEASE, {});
      if picked.None? { return; }
      var id := picked.value;
      var settled := false;
      if ReturnsResult(attempt) {
        if commit != NotCommitted { Complete(id); }
        settled := commit == Committed;
      }
      if !settled { Fail(id, later); }
    }
  }
}
