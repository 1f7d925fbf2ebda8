/** Concurrent workers on the report queue: every interleaving of atomic table updates, message
    deliveries, clock ticks and crashes. */
module ReportProtocol {
  import opened Common
  import opened ReportJobs

  /** Where a worker is in its turn. It remembers which job it claimed and when. */
  datatype Phase =
    | Idle
    | Generating(job: JobId, since: int)   // claimed, no report yet
    | Delivered(job: JobId, since: int)    // enrich returned a result
    | Failing(job: JobId, since: int)      // no result: about to mark the job failed
    | Handling(job: JobId, since: int)     // an exception: about to mark it failed in the handler
    | Stopped                              // crashed, cancelled, or ended by an error in the handler

  /** `acked` holds the jobs for which the broker acknowledged an output event keyed by the job id. */
  datatype System = System(now: int, jobs: Jobs, workers: map<WorkerId, Phase>, acked: set<JobId>)

  datatype Step =
    | Tick(now: int)
    | Create(id: JobId, window: Window)
    | Claim(worker: WorkerId, locked: set<JobId>, picked: Option<JobId>)
    | Generate(worker: WorkerId, attempt: Attempt)
    | Complete(worker: WorkerId, commit: Commit)
    | Fail(worker: WorkerId, commit: Commit)
    | Crash(worker: WorkerId)
    | LateAck(id: JobId)

  predicate Holding(phase: Phase) { phase.Generating? || phase.Delivered? || phase.Failing? || phase.Handling? }

  predicate Holds(s: System, w: WorkerId, id: JobId) {
    w in s.workers && Holding(s.workers[w]) && s.workers[w].job == id
  }

  ghost predicate Enabled(s: System, step: Step) {
    match step
    case Tick(_) => true
    case Create(id, _) => id !in s.jobs
    case Claim(w, locked, picked) => w in s.workers && s.workers[w] == Idle && IsClaim(s.jobs, s.now, LEASE, locked, picked)
    case Generate(w, _) => w in s.workers && s.workers[w].Generating?
    case Complete(w, _) => w in s.workers && s.workers[w].Delivered?
    case Fail(w, _) => w in s.workers && (s.workers[w].Failing? || s.workers[w].Handling?)
    case Crash(w) => w in s.workers
    case LateAck(_) => true
  }

  ghost function Apply(s: System, step: Step): System
    requires Enabled(s, step)
  {
    match step
    case Tick(now) => s.(now := now)
    case Create(id, window) =>
      if exists other :: other in s.jobs && Conflicts(s.jobs[other].window, window) then s
      else s.(jobs := s.jobs[id := NewJob(window, s.now)])
    case Claim(w, _, picked) =>
      if picked.None? then s
      else s.(jobs := s.jobs[picked.value := Claimed(s.jobs[picked.value], w, s.now)],
              workers := s.workers[w := Generating(picked.value, s.now)])
    case Generate(w, attempt) =>
      var Generating(id, since) := s.workers[w];
      s.(workers := s.workers[w := if ReturnsResult(attempt) then Delivered(id, since)
                                  else if Raises(attempt) then Handling(id, since) else Failing(id, since)],
         acked := if attempt.Produced? && attempt.fate == Acked then s.acked + {id} else s.acked)
    case Complete(w, commit) =>
      var Delivered(id, since) := s.workers[w];
      s.(jobs := if commit == NotCommitted then s.jobs else CompleteJob(s.jobs, id),
         workers := s.workers[w := if commit == Committed then Idle else Handling(id, since)])
    case Fail(w, commit) =>
      var phase := s.workers[w];
      s.(jobs := if commit == NotCommitted then s.jobs else FailJob(s.jobs, phase.job, s.now),
         workers := s.workers[w := if commit == Committed then Idle
                                   else if phase.Failing? then Handling(phase.job, phase.since) else Stopped])
    case Crash(w) => s.(workers := s.workers[w := Stopped])
    case LateAck(id) => s.(acked := s.acked + {id})
  }

  /** A run: every step is enabled where it is taken. */
  ghost predicate IsRun(s: System, steps: seq<Step>)
    decreases |steps|
  {
    steps == [] || (Enabled(s, steps[0]) && IsRun(Apply(s, steps[0]), steps[1..]))
  }

  ghost function After(s: System, steps: seq<Step>): System
    requires IsRun(s, steps)
    decreases |steps|
  {
    if steps == [] then s else After(Apply(s, steps[0]), steps[1..])
  }

  ghost predicate Initial(s: System) {
    s.jobs == map[] && s.acked == {} && forall w | w in s.workers :: s.workers[w] == Idle
  }

  // ---------- The assumption on workers ----------

  /** Every live worker is still within the lease of the job it holds. */
  ghost predicate WithinLease(s: System) {
    forall w | w in s.workers && Holding(s.workers[w]) :: s.now - s.workers[w].since <= LeaseTime(LEASE)
  }

  /** The worker's handler will settle again a job whose update it does not know to be done. */
  predicate LosesReply(s: System, step: Step) {
    || (step.Complete? && step.commit == ReplyLost)
    || (step.Fail? && step.commit == ReplyLost && step.worker in s.workers && s.workers[step.worker].Failing?)
  }

  /** Workers settle within the lease, and an update that was done is known to be done. */
  ghost predicate Disciplined(s: System, steps: seq<Step>)
    requires IsRun(s, steps)
    decreases |steps|
  {
    && WithinLease(s)
    && (steps != [] ==> !LosesReply(s, steps[0]) && Disciplined(Apply(s, steps[0]), steps[1..]))
  }

  // ---------- What every step keeps ----------

  /** The job a live worker holds is in progress, under its name and since its claim. */
  ghost predicate HoldsAreCurrent(s: System) {
    forall w | w in s.workers && Holding(s.workers[w]) ::
      var phase := s.workers[w];
      phase.job in s.jobs &&
      var job := s.jobs[phase.job];
      job.status == Processing && job.worker == Some(w) && job.claimedAt == Some(phase.since)
  }

  ghost predicate AttemptsAreBounded(s: System) {
    forall id | id in s.jobs :: s.jobs[id].attempts <= 3 && (s.jobs[id].status == Failed <==> s.jobs[id].attempts == 3)
  }

  ghost predicate Safe(s: System) { HoldsAreCurrent(s) && AttemptsAreBounded(s) }

  /** Completed and failed jobs of s are as they were in t. */
  ghost predicate KeepsSettled(s: System, t: System) {
    forall id | id in s.jobs :: id in t.jobs && (IsTerminal(s.jobs[id]) ==> t.jobs[id] == s.jobs[id])
  }

  lemma ClaimIsSafe(s: System, w: WorkerId, locked: set<JobId>, picked: Option<JobId>)
    requires Safe(s) && WithinLease(s) && Enabled(s, Claim(w, locked, picked))
    ensures Safe(Apply(s, Claim(w, locked, picked))) && KeepsSettled(s, Apply(s, Claim(w, locked, picked)))
  {
    if picked.Some? {
      assert Claimable(s.jobs[picked.value], s.now, LEASE);
      assert forall v | v in s.workers && Holding(s.workers[v]) :: s.workers[v].job != picked.value;
    }
  }

  lemma SettleIsSafe(s: System, step: Step)
    requires Safe(s) && Enabled(s, step)
    requires (step.Fail? || step.Complete?) && !LosesReply(s, step)
    ensures Safe(Apply(s, step)) && KeepsSettled(s, Apply(s, step))
  {
    assert forall v | v in s.workers && Holding(s.workers[v]) && v != step.worker ::
        s.workers[v].job != s.workers[step.worker].job;
  }

  lemma StepIsSafe(s: System, step: Step)
    requires Safe(s) && WithinLease(s) && Enabled(s, step)
    requires !LosesReply(s, step)
    ensures Safe(Apply(s, step)) && KeepsSettled(s, Apply(s, step))
  {
    match step
    case Claim(w, locked, picked) => ClaimIsSafe(s, w, locked, picked);
    case Complete(_, _) => SettleIsSafe(s, step);
    case Fail(_, _) => SettleIsSafe(s, step);
    case _ =>
  }

  lemma {:induction false} RunIsSafe(s: System, steps: seq<Step>)
    requires Safe(s) && IsRun(s, steps) && Disciplined(s, steps)
    ensures Safe(After(s, steps)) && KeepsSettled(s, After(s, steps))
    decreases |steps|
  {
    if steps != [] {
      var t := Apply(s, steps[0]);
      StepIsSafe(s, steps[0]);
      RunIsSafe(t, steps[1..]);
    }
  }

  // ---------- The protocol's promises, in every disciplined run ----------

  /** At most one live worker holds a job. */
  lemma {:induction false} ExclusiveHolder(s: System, steps: seq<Step>, id: JobId, v: WorkerId, w: WorkerId)
    requires Initial(s) && IsRun(s, steps) && Disciplined(s, steps)
    requires Holds(After(s, steps), v, id) && Holds(After(s, steps), w, id)
    ensures v == w
  {
    RunIsSafe(s, steps);
  }

  /** Attempts never exceed three, and a job is failed exactly when it has used all three. */
  lemma {:induction false} FailedMeansThreeAttempts(s: System, steps: seq<Step>, id: JobId)
    requires Initial(s) && IsRun(s, steps) && Disciplined(s, steps) && id in After(s, steps).jobs
    ensures After(s, steps).jobs[id].attempts <= 3
    ensures After(s, steps).jobs[id].status == Failed <==> After(s, steps).jobs[id].attempts == 3
  {
    RunIsSafe(s, steps);
  }

  /** Completed and failed are absorbing, and no job is ever lost. */
  lemma {:induction false} SettledJobsStay(s: System, before: seq<Step>, more: seq<Step>)
    requires Initial(s) && IsRun(s, before) && Disciplined(s, before)
    requires IsRun(After(s, before), more) && Disciplined(After(s, before), more)
    ensures KeepsSettled(After(s, before), After(After(s, before), more))
  {
    RunIsSafe(s, before);
    RunIsSafe(After(s, before), more);
  }

  // ---------- At least once, in every run whatsoever ----------

  ghost predicate Flushes(steps: seq<Step>) {
    forall i | 0 <= i < |steps| :: steps[i].Generate? && steps[i].attempt.Produced? ==> steps[i].attempt.flushes
  }

  /** Whoever has a result, and whatever is completed, has an acknowledged output event. */
  ghost predicate Acknowledged(s: System) {
    && (forall w | w in s.workers && s.workers[w].Delivered? :: s.workers[w].job in s.acked)
    && (forall id | id in s.jobs && s.jobs[id].status == Completed :: id in s.acked)
  }

  lemma {:induction false} CompletedMeansDelivered(s: System, steps: seq<Step>)
    requires Acknowledged(s) && IsRun(s, steps) && Flushes(steps)
    ensures Acknowledged(After(s, steps))
    decreases |steps|
  {
    if steps != [] {
      var t := Apply(s, steps[0]);
      assert Acknowledged(t) by {
        if steps[0].Generate? && ReturnsResult(steps[0].attempt) { ResultMeansAcked(steps[0].attempt); }
      }
      assert Flushes(steps[1..]) by {
        assert forall i | 0 <= i < |steps| - 1 :: steps[1..][i] == steps[i + 1];
      }
      CompletedMeansDelivered(t, steps[1..]);
    }
  }

  /** From the empty queue, with or without lease overruns, crashes and lost replies: a completed
      job has at least one acknowledged output event keyed by its id. */
  lemma {:induction false} AtLeastOnce(s: System, steps: seq<Step>, id: JobId)
    requires Initial(s) && IsRun(s, steps) && Flushes(steps)
    requires id in After(s, steps).jobs && After(s, steps).jobs[id].status == Completed
    ensures id in After(s, steps).acked
  {
    CompletedMeansDelivered(s, steps);
  }

  // ---------- Why the assumptions are needed ----------

  /** One settling update, in any state: a completed job stays completed exactly when the update is
      not a late failure aimed at it that is done; the updates match on the job id alone. */
  lemma CompletedSurvives(s: System, step: Step, id: JobId)
    requires Enabled(s, step) && id in s.jobs && s.jobs[id].status == Completed
    requires step.Fail? || step.Complete?
    ensures Apply(s, step).jobs[id].status == Completed <==>
            !(step.Fail? && s.workers[step.worker].job == id && step.commit != NotCommitted)
  {
  }

  /** A held job can be claimed by somebody else exactly when its holder overran the lease. */
  lemma HeldJobIsClaimableIffOverrun(s: System, w: WorkerId, id: JobId)
    requires Safe(s) && Holds(s, w, id)
    ensures Claimable(s.jobs[id], s.now, LEASE) <==> s.now - s.workers[w].since > LeaseTime(LEASE)
  {
  }

  const GOOD := Produced(Acked, 0, true)

  /** After an overrun a second worker can take the job and complete it, and the late worker's
      failure then reopens the completed job. */
  lemma OverrunReopensCompleted(s: System, late: WorkerId, other: WorkerId, id: JobId)
    requires Safe(s) && Holds(s, late, id) && (s.workers[late].Failing? || s.workers[late].Handling?)
    requires s.now - s.workers[late].since > LeaseTime(LEASE)
    requires other in s.workers && s.workers[other] == Idle
    ensures var claim := Claim(other, s.jobs.Keys - {id}, Some(id));
            Enabled(s, claim) && Holds(Apply(s, claim), late, id) && Holds(Apply(s, claim), other, id) &&
            var done := Apply(Apply(Apply(s, claim), Generate(other, GOOD)), Complete(other, Committed));
            var fail := Fail(late, Committed);
            id in done.jobs && done.jobs[id].status == Completed && Enabled(done, fail) &&
            id in Apply(done, fail).jobs && Apply(done, fail).jobs[id].status != Completed
  {
    HeldJobIsClaimableIffOverrun(s, late, id);
  }

  /** A lost reply to the completing update does the same without any overrun: the worker's error
      handler reopens the job it has just completed. */
  lemma LostReplyReopensCompleted(s: System, w: WorkerId, id: JobId)
    requires Safe(s) && w in s.workers && s.workers[w].Delivered? && s.workers[w].job == id
    ensures var t := Apply(s, Complete(w, ReplyLost));
            && id in t.jobs && t.jobs[id].status == Completed && Enabled(t, Fail(w, Committed))
            && id in Apply(t, Fail(w, Committed)).jobs && Apply(t, Fail(w, Committed)).jobs[id].status != Completed
  {
  }

  /** A lost reply to the failing update counts the attempt twice, because the handler marks the job
      failed once more; with two attempts used before, that makes four. */
  lemma LostReplyCountsTwice(s: System, w: WorkerId, id: JobId)
    requires Safe(s) && w in s.workers && s.workers[w].Failing? && s.workers[w].job == id
    ensures var t := Apply(s, Fail(w, ReplyLost));
            && Enabled(t, Fail(w, Committed)) && id in Apply(t, Fail(w, Committed)).jobs
            && Apply(t, Fail(w, Committed)).jobs[id].attempts == s.jobs[id].attempts + 2
            && (Apply(t, Fail(w, Committed)).jobs[id].attempts > 3 <==> s.jobs[id].attempts == 2)
  {
  }
}
