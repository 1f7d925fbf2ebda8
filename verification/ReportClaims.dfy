/** Which jobs a claim can take, and when: said about runs of the system, on the columns of the rows. */
module ReportClaims {
  import opened Common
  import opened ReportJobs
  import opened ReportProtocol

  // ---------- What a claim takes ----------

  /** Pending and due, or in progress since longer than the lease. */
  predicate Due(job: Job, now: int, seconds: int) {
    match job.status
    case Pending => now >= job.nextAttemptAt
    case Processing => job.claimedAt.Some? && now - job.claimedAt.value > seconds
    case _ => false
  }

  /** The picked job is due, free and of no later creation than any other that is; no pick, none is. */
  ghost predicate TakesOldest(jobs: Jobs, now: int, seconds: int, locked: set<JobId>, picked: Option<JobId>) {
    if picked.None? then forall id | id in jobs && Due(jobs[id], now, seconds) :: id in locked
    else
      && picked.value in jobs && picked.value !in locked && Due(jobs[picked.value], now, seconds)
      && forall id | id in jobs && Due(jobs[id], now, seconds) && jobs[id].createdAt < jobs[picked.value].createdAt :: id in locked
  }

  /** A lease under half a minute counts as half a minute. */
  lemma ClaimIff(jobs: Jobs, now: int, lease: int, locked: set<JobId>, picked: Option<JobId>)
    ensures IsClaim(jobs, now, lease, locked, picked) <==>
            TakesOldest(jobs, now, if lease < 30 then 30 else lease, locked, picked)
  {
  }

  /** What an idle worker can be given, and nothing else: an oldest job that is due, after 300 seconds when
      it is in progress, and nothing only when no unlocked job is due. */
  lemma ClaimTakesOldest(s: System, w: WorkerId, locked: set<JobId>, picked: Option<JobId>)
    requires w in s.workers && s.workers[w] == Idle
    ensures Enabled(s, Claim(w, locked, picked)) <==> TakesOldest(s.jobs, s.now, 300, locked, picked)
  {
    ClaimIff(s.jobs, s.now, LEASE, locked, picked);
  }

  /** A job in progress has the time of its claim. */
  ghost predicate ClaimsAreDated(s: System) {
    forall id | id in s.jobs && s.jobs[id].status == Processing :: s.jobs[id].claimedAt.Some? && s.jobs[id].worker.Some?
  }

  /** In every run, so a job in progress is due again as soon as 300 seconds have passed. */
  lemma {:induction false} JobsInProgressAreDated(s: System, steps: seq<Step>)
    requires ClaimsAreDated(s) && IsRun(s, steps)
    ensures ClaimsAreDated(After(s, steps))
    decreases |steps|
  {
    if steps != [] { JobsInProgressAreDated(Apply(s, steps[0]), steps[1..]); }
  }

  // ---------- How long a failed job rests ----------

  /** The clock does not step back. */
  ghost predicate Forward(s: System, steps: seq<Step>)
    requires IsRun(s, steps)
    decreases |steps|
  {
    steps != [] ==> (steps[0].Tick? ==> steps[0].now >= s.now) && Forward(Apply(s, steps[0]), steps[1..])
  }

  /** The clock has passed `t`; the job, when waiting, is not due before `until`, and is in progress only after it. */
  ghost predicate Rests(s: System, id: JobId, t: int, until: int) {
    && s.now >= t && id in s.jobs
    && (s.jobs[id].status == Pending ==> s.jobs[id].nextAttemptAt >= until)
    && (s.jobs[id].status == Processing ==> s.now >= until)
  }

  lemma RestsOn(s: System, step: Step, id: JobId, t: int)
    requires Rests(s, id, t, t + 60) && Enabled(s, step) && (step.Tick? ==> step.now >= s.now)
    ensures Rests(Apply(s, step), id, t, t + 60)
  {
    if step.Claim? { ClaimTakesOldest(s, step.worker, step.locked, step.picked); }
  }

  lemma {:induction false} RestsThrough(s: System, steps: seq<Step>, id: JobId, t: int)
    requires Rests(s, id, t, t + 60) && IsRun(s, steps) && Forward(s, steps)
    ensures Rests(After(s, steps), id, t, t + 60)
    decreases |steps|
  {
    if steps != [] {
      RestsOn(s, steps[0], id, t);
      RestsThrough(Apply(s, steps[0]), steps[1..], id, t);
    }
  }

  /** A failed attempt is not repeated within a minute: after a failing update of a job at time t, whatever
      the workers do while the clock does not step back, no claim takes the job before t + 60. */
  lemma {:induction false} FailedJobRests(s: System, w: WorkerId, commit: Commit, id: JobId, steps: seq<Step>, v: WorkerId, locked: set<JobId>)
    requires Enabled(s, Step.Fail(w, commit)) && s.workers[w].job == id && id in s.jobs && commit != NotCommitted
    requires var t := Apply(s, Step.Fail(w, commit));
             IsRun(t, steps) && Forward(t, steps) && Enabled(After(t, steps), Claim(v, locked, Some(id)))
    ensures After(Apply(s, Step.Fail(w, commit)), steps).now >= s.now + 60
  {
    var t := Apply(s, Step.Fail(w, commit));
    RestsThrough(t, steps, id, s.now);
    ClaimTakesOldest(After(t, steps), v, locked, Some(id));
  }

  // ---------- New jobs ----------

  /** The same site, type, reason and both bounds. */
  predicate SameWindow(a: Window, b: Window) {
    && a.site == b.site && a.reportType == b.reportType && a.reason == b.reason
    && a.start.Some? && b.start.Some? && a.start == b.start && a.end.Some? && b.end.Some? && a.end == b.end
  }

  /** Creating a job adds it, waiting and due at once, unless a job of the same full window exists; then
      nothing changes. */
  lemma CreateAddsOrKeeps(s: System, id: JobId, window: Window)
    requires id !in s.jobs
    ensures var t := Apply(s, Step.Create(id, window));
            if exists other :: other in s.jobs && SameWindow(s.jobs[other].window, window) then t == s
            else
              && t.jobs.Keys == s.jobs.Keys + {id} && (forall other | other in s.jobs :: t.jobs[other] == s.jobs[other])
              && t.jobs[id].window == window && t.jobs[id].status == Pending && t.jobs[id].attempts == 0
              && t.jobs[id].nextAttemptAt == s.now == t.jobs[id].createdAt && t.jobs[id].claimedAt == None
  {
    assert forall other | other in s.jobs :: Conflicts(s.jobs[other].window, window) <==> SameWindow(s.jobs[other].window, window);
  }

  /** No two jobs have the same full window. */
  ghost predicate WindowsAreUnique(s: System) {
    forall a, b | a in s.jobs && b in s.jobs && SameWindow(s.jobs[a].window, s.jobs[b].window) :: a == b
  }

  lemma CreateKeepsWindows(s: System, id: JobId, window: Window)
    requires WindowsAreUnique(s) && id !in s.jobs
    ensures WindowsAreUnique(Apply(s, Step.Create(id, window)))
  {
    CreateAddsOrKeeps(s, id, window);
  }

  /** The table after a step that creates nothing has the same jobs with the same windows. */
  lemma OthersKeepWindows(s: System, step: Step)
    requires Enabled(s, step) && !step.Create?
    ensures Apply(s, step).jobs.Keys == s.jobs.Keys
    ensures forall id | id in s.jobs :: Apply(s, step).jobs[id].window == s.jobs[id].window && Apply(s, step).jobs[id].createdAt == s.jobs[id].createdAt
  {
  }

  /** In every run each full window has at most one job. */
  lemma {:induction false} OneJobPerWindow(s: System, steps: seq<Step>)
    requires WindowsAreUnique(s) && IsRun(s, steps)
    ensures WindowsAreUnique(After(s, steps))
    decreases |steps|
  {
    if steps != [] {
      if steps[0].Create? { CreateKeepsWindows(s, steps[0].id, steps[0].window); } else { OthersKeepWindows(s, steps[0]); }
      OneJobPerWindow(Apply(s, steps[0]), steps[1..]);
    }
  }

  // ---------- When an attempt counts ----------

  /** With a flush a result is returned exactly when the message was acknowledged and nothing of the others
      is left in the queue; without, exactly when no error was reported in time. */
  lemma ResultIff(a: Attempt)
    ensures ReturnsResult(a) <==>
            a.Produced? && if a.flushes then a.fate == Acked && a.othersQueued == 0 else a.fate == Acked || a.fate == Queued
    ensures Raises(a) <==> !ReturnsResult(a) && a != NoMessage(false)
  {
  }

  /** The worker is idle again and one more attempt is counted, the third of which ends the job; every other
      job is as it was. */
  ghost predicate CountedFailure(s: System, t: System, w: WorkerId, id: JobId) {
    && id in s.jobs && id in t.jobs && w in t.workers && t.workers[w] == Idle
    && t.jobs[id].attempts == s.jobs[id].attempts + 1 && t.jobs[id].nextAttemptAt == s.now + 60
    && t.jobs[id].status == (if s.jobs[id].attempts >= 2 then Failed else Pending)
    && forall other | other in s.jobs && other != id :: other in t.jobs && t.jobs[other] == s.jobs[other]
  }

  /** Every turn whose last update is done leaves the worker idle, and the job completed exactly when there
      was a result and the completing update is known to be done; otherwise the attempt counts as failed. */
  lemma TurnSettles(s: System, w: WorkerId, id: JobId, locked: set<JobId>, attempt: Attempt, commit: Commit)
    requires Enabled(s, Claim(w, locked, Some(id)))
    ensures var claimed := Apply(s, Claim(w, locked, Some(id)));
            Enabled(claimed, Generate(w, attempt)) &&
            var ready := Apply(claimed, Generate(w, attempt));
            if ReturnsResult(attempt) then
              Enabled(ready, Step.Complete(w, commit)) &&
              var done := Apply(ready, Step.Complete(w, commit));
              if commit == Committed then done.workers[w] == Idle && done.jobs[id].status == Completed
              else Enabled(done, Step.Fail(w, Committed)) && CountedFailure(s, Apply(done, Step.Fail(w, Committed)), w, id)
            else
              && Enabled(ready, Step.Fail(w, Committed)) && CountedFailure(s, Apply(ready, Step.Fail(w, Committed)), w, id)
              && (commit != Committed ==>
                    var again := Apply(ready, Step.Fail(w, commit));
                    again.workers[w] == if attempt == NoMessage(false) then Handling(id, s.now) else Stopped)
  {
  }
}
