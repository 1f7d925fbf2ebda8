/** The sustained-anomaly tracker: one bounded table of per-stream states, updated in place. */
module AnomalyTracker {
  import opened Common

  /** `Other` is any severity text that is not one of the three the policy names. */
  datatype Severity = Normal | Warning | Critical | Other

  datatype SeverityPolicy = CriticalOnly | WarningAndAbove | Any

  datatype Policy = Policy(anomalyEnabled: bool, recoveryEnabled: bool, excludeReplay: bool,
                           severity: SeverityPolicy, duration: real, minSamples: int, rearm: real,
                           cooldown: real, maxEvidence: int)

  datatype Event = Event(site: string, asset: string, tag: string, severity: Severity, replay: bool, id: int)

  datatype StreamState = StreamState(started: real, lastSeen: real, count: int, reported: bool,
                                     evidence: seq<Event>, lastReport: real)

  datatype Output =
    | Anomaly(incident: string, evidence: seq<Event>)
    | Recovery(incident: string, evidence: seq<Event>, duration: real)

  /** A dictionary: `order` lists the keys by insertion, oldest first. */
  datatype Table = Table(states: map<string, StreamState>, order: seq<string>)

  const EMPTY := Table(map[], [])

  function Known(field: string): string { if field == "" then "unknown" else field }

  function StreamKey(e: Event): string { Known(e.site) + ":" + Known(e.asset) + ":" + Known(e.tag) }

  predicate Qualifies(policy: Policy, e: Event) {
    || policy.severity == Any
    || (policy.severity == CriticalOnly && e.severity == Critical)
    || (policy.severity == WarningAndAbove && (e.severity == Warning || e.severity == Critical))
  }

  predicate Ignored(policy: Policy, e: Event) { !policy.anomalyEnabled || (policy.excludeReplay && e.replay) }

  /** `items[-n:]`: with n = 0 Python keeps everything. */
  function LastOf<T>(items: seq<T>, n: int): seq<T> {
    if 0 < n < |items| then items[|items| - n..] else items
  }

  function Remove(order: seq<string>, key: string): seq<string> {
    if order == [] then [] else if order[0] == key then order[1..] else [order[0]] + Remove(order[1..], key)
  }

  function Pop(t: Table, key: string): Table {
    if key in t.states then Table(t.states - {key}, Remove(t.order, key)) else t
  }

  /** A full table loses its oldest stream. */
  function Evicted(t: Table, maxStreams: nat): Table {
    if |t.states| >= maxStreams && t.order != [] then Pop(t, t.order[0]) else t
  }

  function Insert(t: Table, key: string, state: StreamState, maxStreams: nat): Table {
    var room := Evicted(t, maxStreams);
    Table(room.states[key := state], room.order + [key])
  }

  ghost predicate ValidTable(t: Table) {
    && (forall key :: key in t.order <==> key in t.states)
    && |t.order| == |t.states|
    && forall i, j | 0 <= i < j < |t.order| :: t.order[i] != t.order[j]
  }

  class SustainedAnomalyTracker {
    var states: map<string, StreamState>
    var order: seq<string>
    const maxStreams: nat

    ghost predicate Valid() reads this { ValidTable(Contents()) && maxStreams > 0 }

    function Contents(): Table reads this { Table(states, order) }

    constructor (maxStreams: nat)
      requires maxStreams > 0
      ensures Valid() && Contents() == EMPTY && this.maxStreams == maxStreams
    {
      states, order, this.maxStreams := map[], [], maxStreams;
    }

    method PopKey(key: string)
      modifies this
      ensures Contents() == Pop(old(Contents()), key)
    {
      if key in states {
        states := states - {key};
        order := Remove(order, key);
      }
    }

    method UpdateTransition(e: Event, policy: Policy, now: real) returns (out: Option<Output>)
      requires Valid()
      modifies this
      ensures Valid()
      ensures (Contents(), out) == Update(old(Contents()), e, policy, now, maxStreams)
      ensures old(|states|) <= maxStreams ==> |states| <= maxStreams
    {
      UpdateKeepsTable(Contents(), e, policy, now, maxStreams);
      if Ignored(policy, e) { return None; }
      var key := StreamKey(e);
      if Qualifies(policy, e) {
        out := Extend(key, e, policy, now);
      } else {
        out := Settle(key, e, policy, now);
      }
    }

    /** An event that does not qualify ends an unreported streak, or a reported incident that has
        been quiet for long enough. */
    method Settle(key: string, e: Event, policy: Policy, now: real) returns (out: Option<Output>)
      requires Valid() && !Ignored(policy, e) && !Qualifies(policy, e) && key == StreamKey(e)
      modifies this
      ensures (Contents(), out) == Update(old(Contents()), e, policy, now, maxStreams)
    {
      out := None;
      if key in states && states[key].reported && e.severity == Normal && now - states[key].lastSeen >= policy.rearm {
        var state := states[key];
        PopKey(key);
        if policy.recoveryEnabled {
          var elapsed := now - state.started;
          out := Some(Recovery(key, LastOf(state.evidence + [e], policy.maxEvidence), if elapsed < 0.0 then 0.0 else elapsed));
        }
      } else if key in states && !states[key].reported {
        PopKey(key);
      } else if key in states {
        assert states[key := states[key]] == states;
      }
    }

    /** What a qualifying event does to the state of its stream. */
    static method Observe(before: StreamState, key: string, e: Event, policy: Policy, now: real)
      returns (state: StreamState, out: Option<Output>)
      requires Qualifies(policy, e)
      ensures (Some(state), out) == StreamStep(Some(before), key, e, policy, now)
    {
      state := before;
      state := state.(lastSeen := now);
      state := state.(count := state.count + 1);
      state := state.(evidence := LastOf(state.evidence + [e], policy.maxEvidence));
      out := None;
      if !(state.reported || state.count < policy.minSamples || now - state.started < policy.duration) &&
         !(state.lastReport != 0.0 && now - state.lastReport < policy.cooldown) {
        state := state.(reported := true);
        state := state.(lastReport := now);
        out := Some(Anomaly(key, state.evidence));
      }
    }

    /** A new stream in a full table evicts the oldest one. */
    method MakeRoom()
      modifies this
      ensures Contents() == Evicted(old(Contents()), maxStreams)
    {
      if |states| >= maxStreams && order != [] { PopKey(order[0]); }
    }

    /** A qualifying event opens or extends a streak, and reports it once when it is long enough. */
    method Extend(key: string, e: Event, policy: Policy, now: real) returns (out: Option<Output>)
      requires Valid() && !Ignored(policy, e) && Qualifies(policy, e) && key == StreamKey(e)
      modifies this
      ensures (Contents(), out) == Update(old(Contents()), e, policy, now, maxStreams)
    {
      var state := NewStream(now);
      ghost var before := Contents();
      NewStreamStep(key, e, policy, now);
      if key in states {
        state := states[key];
      } else {
        MakeRoom();
        order := order + [key];
      }
      state, out := Observe(state, key, e, policy, now);
      assert (Some(state), out) == StreamStep(Lookup(before, key), key, e, policy, now);
      states := states[key := state];
    }
  }

  // ---------- One stream ----------

  /** What one relevant event does to its stream's state (None: not in the table). */
  function StreamStep(s: Option<StreamState>, key: string, e: Event, policy: Policy, now: real): (Option<StreamState>, Option<Output>) {
    if !Qualifies(policy, e) then
      if s.Some? && s.value.reported && e.severity == Normal && now - s.value.lastSeen >= policy.rearm then
        var elapsed := now - s.value.started;
        (None, if policy.recoveryEnabled
               then Some(Recovery(key, LastOf(s.value.evidence + [e], policy.maxEvidence), if elapsed < 0.0 then 0.0 else elapsed))
               else None)
      else if s.Some? && !s.value.reported then (None, None)
      else (s, None)
    else
      var before := if s.Some? then s.value else NewStream(now);
      var seen := before.(lastSeen := now, count := before.count + 1,
                          evidence := LastOf(before.evidence + [e], policy.maxEvidence));
      if seen.reported || seen.count < policy.minSamples || now - seen.started < policy.duration then (Some(seen), None)
      else if seen.lastReport != 0.0 && now - seen.lastReport < policy.cooldown then (Some(seen), None)
      else (Some(seen.(reported := true, lastReport := now)), Some(Anomaly(key, seen.evidence)))
  }

  function NewStream(now: real): StreamState { StreamState(now, now, 0, false, [], 0.0) }

  /** A stream that is not in the table steps like one just created. */
  lemma NewStreamStep(key: string, e: Event, policy: Policy, now: real)
    requires Qualifies(policy, e)
    ensures StreamStep(None, key, e, policy, now) == StreamStep(Some(NewStream(now)), key, e, policy, now)
  {
  }

  function Lookup(t: Table, key: string): Option<StreamState> {
    if key in t.states then Some(t.states[key]) else None
  }

  /** The table after one event: one stream steps, and a new stream may evict the oldest one. */
  function Update(t: Table, e: Event, policy: Policy, now: real, maxStreams: nat): (Table, Option<Output>) {
    if Ignored(policy, e) then (t, None)
    else
      var key := StreamKey(e);
      var (s, out) := StreamStep(Lookup(t, key), key, e, policy, now);
      if s.None? then (Pop(t, key), out)
      else if key in t.states then (Table(t.states[key := s.value], t.order), out)
      else (Insert(t, key, s.value, maxStreams), out)
  }

  lemma {:induction false} RemoveElements(order: seq<string>, key: string)
    requires forall i, j | 0 <= i < j < |order| :: order[i] != order[j]
    ensures forall k :: k in Remove(order, key) <==> k in order && k != key
    ensures |Remove(order, key)| == if key in order then |order| - 1 else |order|
    ensures forall i, j | 0 <= i < j < |Remove(order, key)| :: Remove(order, key)[i] != Remove(order, key)[j]
  {
    if order != [] && order[0] != key {
      RemoveElements(order[1..], key);
      assert order == [order[0]] + order[1..];
      var rest := Remove(order[1..], key);
      assert order[0] !in order[1..];
    } else if order != [] {
      assert order == [order[0]] + order[1..];
    }
  }

  lemma PopKeepsTable(t: Table, key: string)
    requires ValidTable(t)
    ensures ValidTable(Pop(t, key))
    ensures |Pop(t, key).states| == if key in t.states then |t.states| - 1 else |t.states|
  {
    RemoveElements(t.order, key);
    if key in t.states {
      assert (t.states - {key}).Keys == t.states.Keys - {key};
      assert |t.states.Keys| == |t.states|;
      assert |(t.states - {key}).Keys| == |t.states - {key}|;
    }
  }

  /** The table stays a dictionary and never grows beyond its bound, whatever policy each event
      comes with. */
  lemma UpdateKeepsTable(t: Table, e: Event, policy: Policy, now: real, maxStreams: nat)
    requires ValidTable(t) && maxStreams > 0
    ensures ValidTable(Update(t, e, policy, now, maxStreams).0)
    ensures |t.states| <= maxStreams ==> |Update(t, e, policy, now, maxStreams).0.states| <= maxStreams
  {
    var key := StreamKey(e);
    PopKeepsTable(t, key);
    var s := StreamStep(Lookup(t, key), key, e, policy, now).0;
    if s.Some? {
      SizeAfterPut(t.states, key, s.value);
      if key !in t.states { InsertKeepsTable(t, key, s.value, maxStreams); }
    }
  }

  lemma SizeAfterPut(m: map<string, StreamState>, key: string, s: StreamState)
    ensures |m[key := s]| == if key in m then |m| else |m| + 1
  {
    assert m[key := s].Keys == m.Keys + {key};
    assert |m[key := s].Keys| == |m[key := s]| && |m.Keys| == |m|;
  }

  lemma AppendKeepsTable(t: Table, key: string, s: StreamState)
    requires ValidTable(t) && key !in t.states
    ensures ValidTable(Table(t.states[key := s], t.order + [key]))
    ensures |t.states[key := s]| == |t.states| + 1
  {
    SizeAfterPut(t.states, key, s);
    assert key !in t.order;
  }

  lemma InsertKeepsTable(t: Table, key: string, s: StreamState, maxStreams: nat)
    requires ValidTable(t) && maxStreams > 0 && key !in t.states
    ensures ValidTable(Insert(t, key, s, maxStreams))
    ensures |Insert(t, key, s, maxStreams).states| == (if |t.states| >= maxStreams then |t.states| else |t.states| + 1)
  {
    if |t.states| >= maxStreams {
      assert t.order[0] in t.order;
      PopKeepsTable(t, t.order[0]);
      AppendKeepsTable(Pop(t, t.order[0]), key, s);
    } else {
      AppendKeepsTable(t, key, s);
    }
  }
}
