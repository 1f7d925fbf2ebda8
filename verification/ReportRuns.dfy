/** Runs from the empty queue in which the assumptions of the protocol fail, and what they lead to. */
module ReportRuns {
  import opened Common
  import opened ReportJobs
  import opened ReportProtocol

  ghost predicate Reaches(s: System, t: System) {
    exists steps :: IsRun(s, steps) && After(s, steps) == t
  }

  lemma {:induction false} RunExtends(s: System, steps: seq<Step>, step: Step)
    requires IsRun(s, steps) && Enabled(After(s, steps), step)
    ensures IsRun(s, steps + [step]) && After(s, steps + [step]) == Apply(After(s, steps), step)
    decreases |steps|
  {
    if steps == [] {
      assert [] + [step] == [step] && [step][1..] == [];
    } else {
      RunExtends(Apply(s, steps[0]), steps[1..], step);
      assert (steps + [step])[1..] == steps[1..] + [step];
    }
  }

  lemma Take(s: System, t: System, step: Step) returns (next: System)
    requires Reaches(s, t) && Enabled(t, step)
    ensures next == Apply(t, step) && Reaches(s, next)
  {
    var steps :| IsRun(s, steps) && After(s, steps) == t;
    RunExtends(s, steps, step);
    next := Apply(t, step);
  }

  const FIRST: JobId := 0

  /** One pending job, due, and an idle worker. */
  ghost predicate Waiting(t: System, w: WorkerId, attempts: nat) {
    && t.jobs.Keys == {FIRST} && w in t.workers && t.workers[w] == Idle
    && t.jobs[FIRST].status == Pending && t.jobs[FIRST].attempts == attempts && t.jobs[FIRST].nextAttemptAt <= t.now
  }

  lemma Start(s: System, window: Window, w: WorkerId) returns (t: System)
    requires Initial(s) && w in s.workers
    ensures Reaches(s, t) && Waiting(t, w, 0) && t.workers == s.workers
  {
    assert IsRun(s, []) && After(s, []) == s;
    t := Take(s, s, Step.Create(FIRST, window));
  }

  /** The worker claims the job and its attempt ends as given. */
  lemma ClaimAndGenerate(s: System, t: System, w: WorkerId, attempts: nat, attempt: Attempt) returns (next: System)
    requires Reaches(s, t) && Waiting(t, w, attempts)
    ensures Reaches(s, next) && next.now == t.now && next.jobs == map[FIRST := Claimed(t.jobs[FIRST], w, t.now)]
    ensures next.workers == t.workers[w := if ReturnsResult(attempt) then Delivered(FIRST, t.now)
                                           else if Raises(attempt) then Handling(FIRST, t.now) else Failing(FIRST, t.now)]
  {
    var claimed := Take(s, t, Claim(w, {}, Some(FIRST)));
    next := Take(s, claimed, Generate(w, attempt));
  }

  lemma AttemptFails(s: System, t: System, w: WorkerId, attempts: nat) returns (next: System)
    requires Reaches(s, t) && Waiting(t, w, attempts) && attempts < 2
    ensures Reaches(s, next) && Waiting(next, w, attempts + 1)
  {
    var failing := ClaimAndGenerate(s, t, w, attempts, NoMessage(false));
    var failed := Take(s, failing, Step.Fail(w, Committed));
    next := Take(s, failed, Tick(failed.now + RETRY_AFTER));
  }

  /** A job of this state is completed, and the next step of this worker reopens it. */
  ghost predicate ReopenedBy(t: System, w: WorkerId, id: JobId) {
    && id in t.jobs && t.jobs[id].status == Completed && Enabled(t, Step.Fail(w, Committed))
    && id in Apply(t, Step.Fail(w, Committed)).jobs && Apply(t, Step.Fail(w, Committed)).jobs[id].status != Completed
  }

  /** From the empty queue: a worker's attempt raises, it stalls past the lease, another worker completes
      the job, and the late handler reopens it. Every update is confirmed. */
  lemma OverrunHappens(s: System, window: Window, late: WorkerId, other: WorkerId) returns (done: System)
    requires Initial(s) && late in s.workers && other in s.workers && late != other
    ensures Reaches(s, done) && ReopenedBy(done, late, FIRST)
  {
    var t := Start(s, window, late);
    t := ClaimAndGenerate(s, t, late, 0, NoMessage(true));
    t := Take(s, t, Tick(t.now + LEASE + 1));
    OverrunReopensCompleted(t, late, other, FIRST);
    done := Take(s, t, Claim(other, t.jobs.Keys - {FIRST}, Some(FIRST)));
    done := Take(s, done, Generate(other, GOOD));
    done := Take(s, done, Step.Complete(other, Committed));
  }

  /** From the empty queue, with no overrun: the reply to a completing update is lost. */
  lemma LostCompletionHappens(s: System, window: Window, w: WorkerId) returns (done: System)
    requires Initial(s) && w in s.workers
    ensures Reaches(s, done) && ReopenedBy(done, w, FIRST)
  {
    var t := Start(s, window, w);
    t := ClaimAndGenerate(s, t, w, 0, GOOD);
    LostReplyReopensCompleted(t, w, FIRST);
    done := Take(s, t, Step.Complete(w, ReplyLost));
  }

  /** From the empty queue: after two failed attempts the reply to the third failing update is lost, and
      the handler counts a fourth. */
  lemma FourAttemptsHappen(s: System, window: Window, w: WorkerId) returns (done: System)
    requires Initial(s) && w in s.workers
    ensures Reaches(s, done) && FIRST in done.jobs && done.jobs[FIRST].attempts == 4
  {
    var t := Start(s, window, w);
    t := AttemptFails(s, t, w, 0);
    t := AttemptFails(s, t, w, 1);
    t := ClaimAndGenerate(s, t, w, 2, NoMessage(false));
    done := Take(s, t, Step.Fail(w, ReplyLost));
    done := Take(s, done, Step.Fail(w, Committed));
  }
}
