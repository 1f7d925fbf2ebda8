/** What the anomaly tracker promises, said about the whole history of a stream, and the proof
    that the tracker's step-by-step state computes exactly that. */
module Incidents {
  import opened Common
  import opened AnomalyTracker

  /** An event and the clock reading it was processed at. */
  datatype Arrival = Arrival(event: Event, now: real)

  // ---------- The specification: predicates on a stream's history ----------

  ghost predicate AllQualify(policy: Policy, s: seq<Arrival>) {
    forall i | 0 <= i < |s| :: Qualifies(policy, s[i].event)
  }

  /** The last event of s is an anomaly: every event since the last reset qualifies, they are
      numerous enough and span the required time, and none of them was reported. */
  ghost predicate Fires(policy: Policy, s: seq<Arrival>)
    requires s != []
    decreases |s|, 0
  {
    var before, last := s[..|s| - 1], s[|s| - 1];
    var b := Begin(policy, before);
    && AllQualify(policy, s[b..])
    && |s| - b >= policy.minSamples
    && last.now - s[b].now >= policy.duration
    && !Reported(policy, before)
  }

  /** An anomaly was reported since the last reset. */
  ghost predicate Reported(policy: Policy, s: seq<Arrival>)
    decreases |s|, 3
  {
    exists j | Begin(policy, s) <= j < |s| :: FiresAt(policy, s, j)
  }

  ghost predicate FiresAt(policy: Policy, s: seq<Arrival>, j: nat)
    requires j < |s|
    decreases |s|, 2
  {
    Fires(policy, s[..j + 1])
  }

  /** The position after the last reset, where the current streak begins. */
  ghost function Begin(policy: Policy, s: seq<Arrival>): (b: nat)
    ensures b <= |s|
    decreases |s|, 1
  {
    if s == [] then 0
    else if Resets(policy, s) then |s|
    else Begin(policy, s[..|s| - 1])
  }

  /** The position of the last qualifying event, |s| when there is none. */
  ghost function LastQualifying(policy: Policy, s: seq<Arrival>): (i: nat)
    ensures i <= |s|
    ensures i < |s| ==> Qualifies(policy, s[i].event) && forall j | i < j < |s| :: !Qualifies(policy, s[j].event)
    ensures i == |s| ==> forall j | 0 <= j < |s| :: !Qualifies(policy, s[j].event)
  {
    if s == [] then 0
    else if Qualifies(policy, s[|s| - 1].event) then |s| - 1
    else
      var i := LastQualifying(policy, s[..|s| - 1]);
      if i == |s| - 1 then |s| else i
  }

  /** The last event of s is a reset: it does not qualify and, if an anomaly is open, it is normal
      and comes at least the re-arm time after the last qualifying event. */
  ghost predicate Resets(policy: Policy, s: seq<Arrival>)
    requires s != []
    decreases |s|, 0
  {
    var before, last := s[..|s| - 1], s[|s| - 1];
    var q := LastQualifying(policy, before);
    && !Qualifies(policy, last.event)
    && (Reported(policy, before) ==>
          last.event.severity == Normal && q < |before| && last.now - before[q].now >= policy.rearm)
  }

  ghost function QualifyingEvents(policy: Policy, s: seq<Arrival>): seq<Event> {
    if s == [] then []
    else
      QualifyingEvents(policy, s[..|s| - 1]) +
      (if Qualifies(policy, s[|s| - 1].event) then [s[|s| - 1].event] else [])
  }

  /** What the last event of a stream's history must produce. */
  ghost function Expected(policy: Policy, key: string, s: seq<Arrival>): Option<Output>
    requires s != []
  {
    var before, last := s[..|s| - 1], s[|s| - 1];
    var b := Begin(policy, before);
    if Fires(policy, s) then
      Some(Anomaly(key, LastOf(QualifyingEvents(policy, s[b..]), policy.maxEvidence)))
    else if Resets(policy, s) && Reported(policy, before) && policy.recoveryEnabled then
      var elapsed := last.now - s[b].now;
      Some(Recovery(key, LastOf(QualifyingEvents(policy, before[b..]) + [last.event], policy.maxEvidence),
                    if elapsed < 0.0 then 0.0 else elapsed))
    else None
  }

  // ---------- One stream, step by step ----------

  function StreamRun(policy: Policy, key: string, s: seq<Arrival>): (Option<StreamState>, Option<Output>) {
    if s == [] then (None, None)
    else
      var last := s[|s| - 1];
      StreamStep(StreamRun(policy, key, s[..|s| - 1]).0, key, last.event, policy, last.now)
  }

  /** The stored state, read off the history. */
  ghost predicate Represents(policy: Policy, s: seq<Arrival>, state: Option<StreamState>) {
    var b := Begin(policy, s);
    match state
    case None => b == |s|
    case Some(st) =>
      && b < |s| && Qualifies(policy, s[b].event)
      && st.started == s[b].now
      && st.reported == Reported(policy, s)
      && (!st.reported ==> AllQualify(policy, s[b..]) && st.count == |s| - b && st.lastReport == 0.0)
      && LastQualifying(policy, s) < |s| && st.lastSeen == s[LastQualifying(policy, s)].now
      && st.evidence == LastOf(QualifyingEvents(policy, s[b..]), policy.maxEvidence)
  }

  lemma LastOfAppend<T>(xs: seq<T>, x: T, n: int)
    requires n >= 1
    ensures LastOf(LastOf(xs, n) + [x], n) == LastOf(xs + [x], n)
  {
  }

  /** Appending an event that is no reset extends the reports since the last reset by it alone. */
  lemma {:induction false} ReportedAppend(policy: Policy, s: seq<Arrival>)
    requires s != [] && !Resets(policy, s)
    ensures Begin(policy, s) == Begin(policy, s[..|s| - 1])
    ensures Reported(policy, s) <==> Reported(policy, s[..|s| - 1]) || Fires(policy, s)
  {
    var n := |s| - 1;
    var before := s[..n];
    assert FiresAt(policy, s, n) <==> Fires(policy, s) by { assert s[..n + 1] == s; }
    forall j | 0 <= j < n ensures FiresAt(policy, before, j) <==> FiresAt(policy, s, j) {
      assert before[..j + 1] == s[..j + 1];
    }
  }

  lemma {:induction false} NothingReportedAfterReset(policy: Policy, s: seq<Arrival>)
    ensures Begin(policy, s) == |s| ==> !Reported(policy, s)
  {
  }

  lemma {:induction false} QualifyingAppend(policy: Policy, s: seq<Arrival>, b: nat)
    requires s != [] && b < |s|
    ensures QualifyingEvents(policy, s[b..]) ==
            QualifyingEvents(policy, s[..|s| - 1][b..]) +
            (if Qualifies(policy, s[|s| - 1].event) then [s[|s| - 1].event] else [])
  {
    assert s[b..][..|s[b..]| - 1] == s[..|s| - 1][b..];
  }

  lemma AllQualifyAppend(policy: Policy, s: seq<Arrival>, b: nat)
    requires s != [] && b < |s|
    ensures AllQualify(policy, s[b..]) <==>
            AllQualify(policy, s[..|s| - 1][b..]) && Qualifies(policy, s[|s| - 1].event)
  {
    var n := |s| - 1;
    var shorter := s[..n][b..];
    assert s[b..] == shorter + [s[n]];
    if AllQualify(policy, s[b..]) {
      assert Qualifies(policy, s[b..][n - b].event);
      forall i | 0 <= i < |shorter| ensures Qualifies(policy, shorter[i].event) { assert Qualifies(policy, s[b..][i].event); }
    }
  }

  /** A qualifying event keeps the stored state faithful and produces what the history demands. */
  lemma QualifyingStep(policy: Policy, key: string, s: seq<Arrival>, state: Option<StreamState>)
    requires s != [] && policy.maxEvidence >= 1
    requires Represents(policy, s[..|s| - 1], state) && Qualifies(policy, s[|s| - 1].event)
    ensures var (next, out) := StreamStep(state, key, s[|s| - 1].event, policy, s[|s| - 1].now);
            Represents(policy, s, next) && out == Expected(policy, key, s)
  {
    var n := |s| - 1;
    var before, last := s[..n], s[n];
    var b := Begin(policy, before);
    ReportedAppend(policy, s);
    AllQualifyAppend(policy, s, b);
    QualifyingAppend(policy, s, b);
    if state.None? {
      NothingReportedAfterReset(policy, before);
      assert before[b..] == [];
    } else {
      assert s[b] == before[b];
    }
    LastOfAppend(QualifyingEvents(policy, before[b..]), last.event, policy.maxEvidence);
  }

  lemma {:induction false} OtherNeverFires(policy: Policy, s: seq<Arrival>)
    requires s != [] && !Qualifies(policy, s[|s| - 1].event)
    ensures !Fires(policy, s)
  {
    AllQualifyAppend(policy, s, Begin(policy, s[..|s| - 1]));
  }

  /** An event that does not qualify either resets the stream ... */
  lemma {:induction false} ResetStep(policy: Policy, key: string, s: seq<Arrival>, state: Option<StreamState>)
    requires s != [] && policy.maxEvidence >= 1 && Resets(policy, s)
    requires Represents(policy, s[..|s| - 1], state) && !Qualifies(policy, s[|s| - 1].event)
    ensures var (next, out) := StreamStep(state, key, s[|s| - 1].event, policy, s[|s| - 1].now);
            Represents(policy, s, next) && out == Expected(policy, key, s)
  {
    var n := |s| - 1;
    var before, last := s[..n], s[n];
    var b := Begin(policy, before);
    OtherNeverFires(policy, s);
    if state.None? { NothingReportedAfterReset(policy, before); } else { assert s[b] == before[b]; }
    LastOfAppend(QualifyingEvents(policy, before[b..]), last.event, policy.maxEvidence);
    NothingReportedAfterReset(policy, s);
  }

  lemma {:induction false} QuietHistory(policy: Policy, s: seq<Arrival>, state: Option<StreamState>)
    requires s != [] && !Resets(policy, s)
    requires Represents(policy, s[..|s| - 1], state) && !Qualifies(policy, s[|s| - 1].event)
    ensures state.Some? && state.value.reported && Represents(policy, s, state)
  {
    var before := s[..|s| - 1];
    var b := Begin(policy, before);
    OtherNeverFires(policy, s);
    NothingReportedAfterReset(policy, before);
    if b < |before| { assert s[b] == before[b]; }
    ReportedAppend(policy, s);
    QualifyingAppend(policy, s, b);
  }

  /** ... or leaves its state alone. */
  lemma {:induction false} QuietStep(policy: Policy, key: string, s: seq<Arrival>, state: Option<StreamState>)
    requires s != [] && !Resets(policy, s)
    requires Represents(policy, s[..|s| - 1], state) && !Qualifies(policy, s[|s| - 1].event)
    ensures StreamStep(state, key, s[|s| - 1].event, policy, s[|s| - 1].now) == (state, None)
    ensures Represents(policy, s, state) && Expected(policy, key, s) == None
  {
    QuietHistory(policy, s, state);
    OtherNeverFires(policy, s);
  }

  /** For every history of a stream, the state stored for it is the one its history determines,
      and its last event produces exactly what the specification demands. No assumption is made
      about the clock. */
  lemma {:induction false} StreamMeetsSpecification(policy: Policy, key: string, s: seq<Arrival>)
    requires policy.maxEvidence >= 1
    ensures Represents(policy, s, StreamRun(policy, key, s).0)
    ensures s != [] ==> StreamRun(policy, key, s).1 == Expected(policy, key, s)
  {
    if s != [] {
      var before := s[..|s| - 1];
      StreamMeetsSpecification(policy, key, before);
      if Qualifies(policy, s[|s| - 1].event) {
        QualifyingStep(policy, key, s, StreamRun(policy, key, before).0);
      } else {
        var state := StreamRun(policy, key, before).0;
        if Resets(policy, s) { ResetStep(policy, key, s, state); } else { QuietStep(policy, key, s, state); }
      }
    }
  }
}
