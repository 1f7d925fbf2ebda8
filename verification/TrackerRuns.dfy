/** Whole runs of the tracker's table, evictions included: what each stream's entry and every output
    owe to the stream's own history. */
module TrackerRuns {
  import opened Common
  import opened AnomalyTracker
  import opened Incidents

  function TableRun(policy: Policy, maxStreams: nat, h: seq<Arrival>): (Table, Option<Output>) {
    if h == [] then (EMPTY, None)
    else
      var last := h[|h| - 1];
      Update(TableRun(policy, maxStreams, h[..|h| - 1]).0, last.event, policy, last.now, maxStreams)
  }

  predicate Concerns(policy: Policy, e: Event, key: string) { !Ignored(policy, e) && StreamKey(e) == key }

  /** The part of the history that concerns one stream. */
  function Relevant(policy: Policy, h: seq<Arrival>, key: string): seq<Arrival> {
    if h == [] then []
    else
      var last := h[|h| - 1];
      Relevant(policy, h[..|h| - 1], key) + (if Concerns(policy, last.event, key) then [last] else [])
  }

  /** A qualifying event of an unknown stream pushes the oldest stream out of a full table. */
  function Victim(t: Table, policy: Policy, e: Event, maxStreams: nat): Option<string> {
    if !Ignored(policy, e) && Qualifies(policy, e) && StreamKey(e) !in t.states && |t.states| >= maxStreams && t.order != []
    then Some(t.order[0]) else None
  }

  /** Whether the last event of a history pushes this stream out. */
  predicate Evicts(policy: Policy, maxStreams: nat, h: seq<Arrival>, key: string)
    requires h != []
  {
    Victim(TableRun(policy, maxStreams, h[..|h| - 1]).0, policy, h[|h| - 1].event, maxStreams) == Some(key)
  }

  predicate EverEvicted(policy: Policy, maxStreams: nat, h: seq<Arrival>, key: string) {
    h != [] && (Evicts(policy, maxStreams, h, key) || EverEvicted(policy, maxStreams, h[..|h| - 1], key))
  }

  /** The part of the history that concerns one stream and follows its last eviction. */
  function Current(policy: Policy, maxStreams: nat, h: seq<Arrival>, key: string): seq<Arrival> {
    if h == [] then []
    else
      var last, before := h[|h| - 1], Current(policy, maxStreams, h[..|h| - 1], key);
      if Concerns(policy, last.event, key) then before + [last]
      else if Evicts(policy, maxStreams, h, key) then []
      else before
  }

  lemma {:induction false} TableRunIsTable(policy: Policy, maxStreams: nat, h: seq<Arrival>)
    requires maxStreams > 0
    ensures ValidTable(TableRun(policy, maxStreams, h).0)
    ensures |TableRun(policy, maxStreams, h).0.states| <= maxStreams
  {
    if h != [] {
      var n := |h| - 1;
      TableRunIsTable(policy, maxStreams, h[..n]);
      UpdateKeepsTable(TableRun(policy, maxStreams, h[..n]).0, h[n].event, policy, h[n].now, maxStreams);
    }
  }

  /** One update steps the stream of its event, drops the victim if there is one, and touches no other. */
  lemma UpdateTouches(t: Table, e: Event, policy: Policy, now: real, maxStreams: nat, key: string)
    requires ValidTable(t)
    ensures Lookup(Update(t, e, policy, now, maxStreams).0, key) ==
            if Concerns(policy, e, key) then StreamStep(Lookup(t, key), key, e, policy, now).0
            else if Victim(t, policy, e, maxStreams) == Some(key) then None
            else Lookup(t, key)
  {
    if t.order != [] { assert t.order[0] in t.order; }
  }

  /** In every run, whatever is evicted, a stream's entry is the one its own history since its last
      eviction produces, as if the stream were alone. */
  lemma {:induction false} StreamsAreIndependent(policy: Policy, maxStreams: nat, h: seq<Arrival>, key: string)
    requires maxStreams > 0
    ensures Lookup(TableRun(policy, maxStreams, h).0, key) == StreamRun(policy, key, Current(policy, maxStreams, h, key)).0
  {
    if h != [] {
      var n := |h| - 1;
      StreamsAreIndependent(policy, maxStreams, h[..n], key);
      TableRunIsTable(policy, maxStreams, h[..n]);
      UpdateTouches(TableRun(policy, maxStreams, h[..n]).0, h[n].event, policy, h[n].now, maxStreams, key);
      RunAppend(policy, key, Current(policy, maxStreams, h[..n], key), h[n]);
    }
  }

  lemma {:induction false} RunAppend(policy: Policy, key: string, s: seq<Arrival>, last: Arrival)
    ensures StreamRun(policy, key, s + [last]) == StreamStep(StreamRun(policy, key, s).0, key, last.event, policy, last.now)
  {
    assert (s + [last])[..|s|] == s;
  }

  /** The tracker equals its specification on every history: an event yields what its own stream's
      history since its last eviction demands, and nothing when it is ignored. */
  lemma {:induction false} TrackerMeetsSpecification(policy: Policy, maxStreams: nat, h: seq<Arrival>)
    requires h != [] && policy.maxEvidence >= 1 && maxStreams > 0
    ensures var last := h[|h| - 1].event;
            var s := Current(policy, maxStreams, h, StreamKey(last));
            if Ignored(policy, last) then TableRun(policy, maxStreams, h).1 == None
            else s != [] && s[|s| - 1] == h[|h| - 1] && TableRun(policy, maxStreams, h).1 == Expected(policy, StreamKey(last), s)
  {
    var n := |h| - 1;
    var last := h[n];
    if !Ignored(policy, last.event) {
      var key := StreamKey(last.event);
      var before := Current(policy, maxStreams, h[..n], key);
      StreamsAreIndependent(policy, maxStreams, h[..n], key);
      RunAppend(policy, key, before, last);
      StreamMeetsSpecification(policy, key, before + [last]);
    }
  }

  // ---------- When nothing is lost ----------

  /** The history since the last eviction is the whole history of the stream exactly when the stream
      was never evicted; each eviction loses at least one event. */
  lemma {:induction false} NothingLostIffNeverEvicted(policy: Policy, maxStreams: nat, h: seq<Arrival>, key: string)
    requires maxStreams > 0
    ensures |Current(policy, maxStreams, h, key)| <= |Relevant(policy, h, key)|
    ensures Current(policy, maxStreams, h, key) == Relevant(policy, h, key) <==> !EverEvicted(policy, maxStreams, h, key)
    ensures EverEvicted(policy, maxStreams, h, key) ==> |Current(policy, maxStreams, h, key)| < |Relevant(policy, h, key)|
  {
    if h != [] {
      var n := |h| - 1;
      NothingLostIffNeverEvicted(policy, maxStreams, h[..n], key);
      if Evicts(policy, maxStreams, h, key) {
        VictimHasHistory(policy, maxStreams, h, key);
      }
    }
  }

  lemma {:induction false} VictimHasHistory(policy: Policy, maxStreams: nat, h: seq<Arrival>, key: string)
    requires maxStreams > 0 && h != [] && Evicts(policy, maxStreams, h, key)
    ensures Current(policy, maxStreams, h[..|h| - 1], key) != [] && !Concerns(policy, h[|h| - 1].event, key)
  {
    var t := TableRun(policy, maxStreams, h[..|h| - 1]).0;
    TableRunIsTable(policy, maxStreams, h[..|h| - 1]);
    assert t.order[0] in t.order;
    StreamsAreIndependent(policy, maxStreams, h[..|h| - 1], key);
  }

  function Streams(policy: Policy, h: seq<Arrival>): set<string> {
    set a | a in h && !Ignored(policy, a.event) && Qualifies(policy, a.event) :: StreamKey(a.event)
  }

  lemma StreamsGrow(policy: Policy, h: seq<Arrival>)
    requires h != []
    ensures var last := h[|h| - 1].event;
            Streams(policy, h) == Streams(policy, h[..|h| - 1])
              + (if !Ignored(policy, last) && Qualifies(policy, last) then {StreamKey(last)} else {})
  {
    assert h == h[..|h| - 1] + [h[|h| - 1]];
  }

  lemma {:induction false} OnlyQualifyingStreams(policy: Policy, maxStreams: nat, h: seq<Arrival>)
    requires maxStreams > 0
    ensures TableRun(policy, maxStreams, h).0.states.Keys <= Streams(policy, h)
  {
    if h != [] {
      OnlyQualifyingStreams(policy, maxStreams, h[..|h| - 1]);
      StreamsGrow(policy, h);
    }
  }

  lemma RoomForNewStream(t: Table, all: set<string>, key: string, maxStreams: nat)
    requires t.states.Keys <= all && key in all && key !in t.states && |all| <= maxStreams
    ensures |t.states| < maxStreams
  {
    SubsetSize(t.states.Keys, all - {key});
    assert |t.states.Keys| == |t.states|;
  }

  /** While at most `maxStreams` streams ever send a qualifying event, none is evicted. */
  lemma {:induction false} FewStreamsAreKept(policy: Policy, maxStreams: nat, h: seq<Arrival>, key: string)
    requires maxStreams > 0 && |Streams(policy, h)| <= maxStreams
    ensures !EverEvicted(policy, maxStreams, h, key)
  {
    if h != [] {
      var n := |h| - 1;
      var t, e := TableRun(policy, maxStreams, h[..n]).0, h[n].event;
      StreamsGrow(policy, h);
      SubsetSize(Streams(policy, h[..n]), Streams(policy, h));
      FewStreamsAreKept(policy, maxStreams, h[..n], key);
      OnlyQualifyingStreams(policy, maxStreams, h[..n]);
      if !Ignored(policy, e) && Qualifies(policy, e) && StreamKey(e) !in t.states {
        RoomForNewStream(t, Streams(policy, h), StreamKey(e), maxStreams);
      }
    }
  }

  // ---------- What the run puts out ----------

  /** What the run has put out for a stream since its last eviction, in order. */
  function Outputs(policy: Policy, maxStreams: nat, h: seq<Arrival>, key: string): seq<Output> {
    if h == [] then []
    else
      var last, before := h[|h| - 1], Outputs(policy, maxStreams, h[..|h| - 1], key);
      if Concerns(policy, last.event, key) then
        match TableRun(policy, maxStreams, h).1
        case None => before
        case Some(out) => before + [out]
      else if Evicts(policy, maxStreams, h, key) then []
      else before
  }

  predicate Open(t: Table, key: string) { key in t.states && t.states[key].reported }

  /** Anomalies and recoveries of one stream take turns, and an incident is open after an odd number. */
  ghost predicate Alternate(outs: seq<Output>, key: string, open: bool) {
    && (forall i | 0 <= i < |outs| :: outs[i].incident == key && (outs[i].Anomaly? <==> i % 2 == 0))
    && (open <==> |outs| % 2 == 1)
  }

  /** What one event puts out is an anomaly of its own stream that opens an incident, or a recovery that
      closes one. */
  lemma OutputOpensOrCloses(t: Table, e: Event, policy: Policy, now: real, maxStreams: nat)
    requires ValidTable(t) && policy.recoveryEnabled && !Ignored(policy, e)
    ensures var (next, out) := Update(t, e, policy, now, maxStreams);
            var key := StreamKey(e);
            && (out.None? ==> Open(next, key) == Open(t, key))
            && (out.Some? ==> out.value.incident == key && out.value.Anomaly? == Open(next, key) == !Open(t, key))
  {
    UpdateTouches(t, e, policy, now, maxStreams, StreamKey(e));
  }

  lemma OthersStayOpen(t: Table, e: Event, policy: Policy, now: real, maxStreams: nat, key: string)
    requires ValidTable(t) && !Concerns(policy, e, key)
    ensures Open(Update(t, e, policy, now, maxStreams).0, key)
            <==> Open(t, key) && Victim(t, policy, e, maxStreams) != Some(key)
  {
    UpdateTouches(t, e, policy, now, maxStreams, key);
  }

  lemma AlternateAppend(outs: seq<Output>, key: string, open: bool, out: Output)
    requires Alternate(outs, key, open) && out.incident == key && out.Anomaly? == !open
    ensures Alternate(outs + [out], key, !open)
  {
  }

  /** With recovery on, what a run puts out for a stream since its last eviction strictly alternates,
      beginning with an anomaly; the stream's incident is open exactly after an odd number. */
  lemma {:induction false} OutputsAlternate(policy: Policy, maxStreams: nat, h: seq<Arrival>, key: string)
    requires policy.recoveryEnabled && maxStreams > 0
    ensures Alternate(Outputs(policy, maxStreams, h, key), key, Open(TableRun(policy, maxStreams, h).0, key))
  {
    if h != [] {
      OutputsAlternate(policy, maxStreams, h[..|h| - 1], key);
      var last := h[|h| - 1];
      TableRunIsTable(policy, maxStreams, h[..|h| - 1]);
      OutputsStep(policy, maxStreams, h, key);
      AlternateStep(TableRun(policy, maxStreams, h[..|h| - 1]).0, last.event, policy, last.now, maxStreams, key,
                    Outputs(policy, maxStreams, h[..|h| - 1], key), Outputs(policy, maxStreams, h, key));
    }
  }

  lemma {:induction false} OutputsStep(policy: Policy, maxStreams: nat, h: seq<Arrival>, key: string)
    requires h != []
    ensures var t, last := TableRun(policy, maxStreams, h[..|h| - 1]).0, h[|h| - 1];
            var before, out := Outputs(policy, maxStreams, h[..|h| - 1], key), Update(t, last.event, policy, last.now, maxStreams).1;
            Outputs(policy, maxStreams, h, key)
            == if Concerns(policy, last.event, key) then before + (if out.Some? then [out.value] else [])
               else if Victim(t, policy, last.event, maxStreams) == Some(key) then [] else before
  {
    assert Outputs(policy, maxStreams, h[..|h| - 1], key) + [] == Outputs(policy, maxStreams, h[..|h| - 1], key);
  }

  lemma AlternateStep(t: Table, e: Event, policy: Policy, now: real, maxStreams: nat, key: string, before: seq<Output>, after: seq<Output>)
    requires policy.recoveryEnabled && ValidTable(t) && Alternate(before, key, Open(t, key))
    requires var out := Update(t, e, policy, now, maxStreams).1;
             after == if Concerns(policy, e, key) then before + (if out.Some? then [out.value] else [])
                      else if Victim(t, policy, e, maxStreams) == Some(key) then [] else before
    ensures Alternate(after, key, Open(Update(t, e, policy, now, maxStreams).0, key))
  {
    var out := Update(t, e, policy, now, maxStreams).1;
    if Concerns(policy, e, key) {
      OutputOpensOrCloses(t, e, policy, now, maxStreams);
      if out.Some? { AlternateAppend(before, key, Open(t, key), out.value); } else { assert after == before; }
    } else {
      OthersStayOpen(t, e, policy, now, maxStreams, key);
    }
  }

  /** The run puts out a recovery exactly when recovery is on, an incident of the stream is open, and a
      normal, not qualifying event comes at least the re-arm time after the last qualifying one. */
  lemma {:induction false} RecoveryWaitsForRearm(policy: Policy, maxStreams: nat, h: seq<Arrival>)
    requires h != [] && policy.maxEvidence >= 1 && maxStreams > 0 && !Ignored(policy, h[|h| - 1].event)
    ensures var last, out := h[|h| - 1], TableRun(policy, maxStreams, h).1;
            var before := Current(policy, maxStreams, h[..|h| - 1], StreamKey(last.event));
            var q := LastQualifying(policy, before);
            (out.Some? && out.value.Recovery?) <==>
              && policy.recoveryEnabled
              && Reported(policy, before)
              && last.event.severity == Normal && !Qualifies(policy, last.event)
              && q < |before| && last.now - before[q].now >= policy.rearm
  {
    var last := h[|h| - 1];
    var before := Current(policy, maxStreams, h[..|h| - 1], StreamKey(last.event));
    var s := before + [last];
    TrackerMeetsSpecification(policy, maxStreams, h);
    assert s[..|before|] == before;
    if !Qualifies(policy, last.event) { OtherNeverFires(policy, s); }
  }

  /** Policy `any` qualifies normal events too, so since its last eviction a stream has put out at most
      one anomaly and never a recovery. */
  lemma {:induction false} AnyNeverRecovers(policy: Policy, maxStreams: nat, h: seq<Arrival>, key: string)
    requires policy.severity == Any && maxStreams > 0
    ensures var outs := Outputs(policy, maxStreams, h, key);
            |outs| == (if Open(TableRun(policy, maxStreams, h).0, key) then 1 else 0) && forall out | out in outs :: out.Anomaly?
  {
    if h != [] {
      var n := |h| - 1;
      AnyNeverRecovers(policy, maxStreams, h[..n], key);
      TableRunIsTable(policy, maxStreams, h[..n]);
      UpdateTouches(TableRun(policy, maxStreams, h[..n]).0, h[n].event, policy, h[n].now, maxStreams, key);
    }
  }

  ghost predicate NeverReportedBefore(t: Table) {
    forall key | key in t.states && !t.states[key].reported :: t.states[key].lastReport == 0.0
  }

  lemma CooldownStep(t: Table, e: Event, policy: Policy, cooldown: real, now: real, maxStreams: nat)
    requires NeverReportedBefore(t)
    ensures Update(t, e, policy.(cooldown := cooldown), now, maxStreams) == Update(t, e, policy, now, maxStreams)
    ensures NeverReportedBefore(Update(t, e, policy, now, maxStreams).0)
  {
    var key := StreamKey(e);
    var s := Lookup(t, key);
    assert StreamStep(s, key, e, policy.(cooldown := cooldown), now) == StreamStep(s, key, e, policy, now);
    assert Qualifies(policy.(cooldown := cooldown), e) == Qualifies(policy, e);
  }

  /** The cooldown never matters: whatever its length, and even with evictions, the table and
      every output are the same. */
  lemma {:induction false} CooldownIsIrrelevant(policy: Policy, cooldown: real, maxStreams: nat, h: seq<Arrival>)
    ensures TableRun(policy.(cooldown := cooldown), maxStreams, h) == TableRun(policy, maxStreams, h)
    ensures NeverReportedBefore(TableRun(policy, maxStreams, h).0)
  {
    if h != [] {
      var n := |h| - 1;
      CooldownIsIrrelevant(policy, cooldown, maxStreams, h[..n]);
      CooldownStep(TableRun(policy, maxStreams, h[..n]).0, h[n].event, policy, cooldown, h[n].now, maxStreams);
    }
  }
}
