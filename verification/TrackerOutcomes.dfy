/** What runs of the tracker put out for given severities, said on the events and the clock alone. */
module TrackerOutcomes {
  import opened Common
  import opened AnomalyTracker
  import opened Incidents
  import opened TrackerRuns

  /** Reporting is on and the event is not replayed, or replays are not excluded. */
  predicate Watched(policy: Policy, e: Event) { policy.anomalyEnabled && (policy.excludeReplay ==> !e.replay) }

  function Named(field: string): string { if field == "" then "unknown" else field }

  predicate SameStream(a: Event, b: Event) {
    Named(a.site) == Named(b.site) && Named(a.asset) == Named(b.asset) && Named(a.tag) == Named(b.tag)
  }

  function Incident(e: Event): string { Named(e.site) + ":" + Named(e.asset) + ":" + Named(e.tag) }

  /** What each policy admits. */
  predicate Severe(policy: Policy, e: Event) {
    match policy.severity
    case CriticalOnly => e.severity == Critical
    case WarningAndAbove => e.severity == Warning || e.severity == Critical
    case Any => true
  }

  lemma SevereIsQualifying(policy: Policy, e: Event)
    ensures Qualifies(policy, e) <==> Severe(policy, e)
    ensures Ignored(policy, e) <==> !Watched(policy, e)
    ensures StreamKey(e) == Incident(e)
  {
  }

  // ---------- Events that do nothing ----------

  /** An event that is not watched changes nothing and puts out nothing, in any run. */
  lemma {:induction false} UnwatchedChangesNothing(policy: Policy, maxStreams: nat, h: seq<Arrival>, a: Arrival)
    requires !Watched(policy, a.event)
    ensures TableRun(policy, maxStreams, h + [a]) == (TableRun(policy, maxStreams, h).0, None)
  {
    assert (h + [a])[..|h|] == h;
  }

  /** In no run does an event that the policy does not admit report an anomaly. */
  lemma {:induction false} MildNeverReports(policy: Policy, maxStreams: nat, h: seq<Arrival>)
    requires h != [] && !Severe(policy, h[|h| - 1].event)
    ensures var out := TableRun(policy, maxStreams, h).1;
            out.Some? ==> out.value.Recovery?
  {
    SevereIsQualifying(policy, h[|h| - 1].event);
  }

  /** A first event opens an entry exactly when it is watched and admitted. */
  lemma {:induction false} FirstEventOpens(policy: Policy, maxStreams: nat, a: Arrival)
    ensures TableRun(policy, maxStreams, [a]).0.states.Keys
            == if Watched(policy, a.event) && Severe(policy, a.event) then {Incident(a.event)} else {}
  {
    SevereIsQualifying(policy, a.event);
    assert [a][..0] == [];
  }

  function Rank(s: Severity): nat {
    match s case Critical => 2 case Warning => 1 case _ => 0
  }

  /** A more severe event opens an entry whenever a milder one does, and policy `warning` lets in whatever
      policy `critical` does. */
  lemma {:induction false} SeverityIsMonotone(policy: Policy, maxStreams: nat, a: Arrival, worse: Severity, wider: SeverityPolicy)
    requires Rank(a.event.severity) <= Rank(worse)
    requires wider == policy.severity || wider == Any || (wider == WarningAndAbove && policy.severity == CriticalOnly)
    requires TableRun(policy, maxStreams, [a]).0.states != map[]
    ensures TableRun(policy.(severity := wider), maxStreams, [a.(event := a.event.(severity := worse))]).0.states != map[]
  {
    FirstEventOpens(policy, maxStreams, a);
    FirstEventOpens(policy.(severity := wider), maxStreams, a.(event := a.event.(severity := worse)));
    assert Incident(a.event) in TableRun(policy, maxStreams, [a]).0.states.Keys by {
      assert TableRun(policy, maxStreams, [a]).0.states.Keys != {};
    }
    assert Incident(a.event) in TableRun(policy.(severity := wider), maxStreams, [a.(event := a.event.(severity := worse))]).0.states.Keys;
  }

  // ---------- One stream of admitted events ----------

  /** All events belong to one stream, are watched and are admitted. */
  ghost predicate Streak(policy: Policy, h: seq<Arrival>) {
    forall i | 0 <= i < |h| :: Watched(policy, h[i].event) && Severe(policy, h[i].event) && SameStream(h[i].event, h[0].event)
  }

  /** Count and span suffice at event k. */
  predicate Enough(policy: Policy, h: seq<Arrival>, k: nat)
    requires k < |h|
  {
    k + 1 >= policy.minSamples && h[k].now - h[0].now >= policy.duration
  }

  ghost predicate EverEnough(policy: Policy, h: seq<Arrival>) { exists k :: 0 <= k < |h| && Enough(policy, h, k) }

  /** The last `maxEvidence` events, all if there are fewer. */
  ghost predicate IsEvidence(policy: Policy, h: seq<Arrival>, evidence: seq<Event>) {
    && |evidence| == Min(|h|, policy.maxEvidence)
    && forall i | 0 <= i < |evidence| :: evidence[i] == h[|h| - |evidence| + i].event
  }

  ghost predicate StreakState(policy: Policy, h: seq<Arrival>, t: Table)
    requires h != []
  {
    && t.states.Keys == {Incident(h[0].event)}
    && var st := t.states[Incident(h[0].event)];
    && st.started == h[0].now && st.count == |h| && IsEvidence(policy, h, st.evidence)
    && (st.reported <==> EverEnough(policy, h)) && (!st.reported ==> st.lastReport == 0.0)
  }

  /** What the last event of a streak must produce. */
  ghost predicate StreakOutput(policy: Policy, h: seq<Arrival>, out: Option<Output>)
    requires h != []
  {
    if Enough(policy, h, |h| - 1) && !EverEnough(policy, h[..|h| - 1])
    then out.Some? && out.value.Anomaly? && out.value.incident == Incident(h[0].event) && IsEvidence(policy, h, out.value.evidence)
    else out == None
  }

  lemma EnoughGrows(policy: Policy, h: seq<Arrival>)
    requires h != []
    ensures EverEnough(policy, h) <==> EverEnough(policy, h[..|h| - 1]) || Enough(policy, h, |h| - 1)
  {
    var n := |h| - 1;
    forall k: nat | k < n ensures Enough(policy, h[..n], k) <==> Enough(policy, h, k) {
      assert h[..n][k] == h[k] && h[..n][0] == h[0];
    }
    if EverEnough(policy, h[..n]) {
      var k: nat :| k < n && Enough(policy, h[..n], k);
      assert Enough(policy, h, k);
    }
    if EverEnough(policy, h) && !Enough(policy, h, n) {
      var k: nat :| k < |h| && Enough(policy, h, k);
      assert Enough(policy, h[..n], k);
    }
  }

  /** A streak is reported exactly once: at the first event where there are enough events over a long enough
      time, with the last of them as evidence, under the name of the stream. */
  lemma {:induction false} StreakReportsOnce(policy: Policy, maxStreams: nat, h: seq<Arrival>)
    requires h != [] && Streak(policy, h) && maxStreams > 0 && policy.maxEvidence >= 1
    ensures StreakState(policy, h, TableRun(policy, maxStreams, h).0)
    ensures StreakOutput(policy, h, TableRun(policy, maxStreams, h).1)
  {
    var n := |h| - 1;
    EnoughGrows(policy, h);
    if n == 0 {
      StreakOpens(policy, maxStreams, h);
    } else {
      StreakReportsOnce(policy, maxStreams, h[..n]);
      StreakGoesOn(policy, maxStreams, h, TableRun(policy, maxStreams, h[..n]).0);
    }
  }

  lemma {:induction false} StreakOpens(policy: Policy, maxStreams: nat, h: seq<Arrival>)
    requires |h| == 1 && Streak(policy, h) && maxStreams > 0 && policy.maxEvidence >= 1
    requires EverEnough(policy, h) <==> EverEnough(policy, h[..0]) || Enough(policy, h, 0)
    ensures StreakState(policy, h, TableRun(policy, maxStreams, h).0)
    ensures StreakOutput(policy, h, TableRun(policy, maxStreams, h).1)
  {
    SevereIsQualifying(policy, h[0].event);
    assert TableRun(policy, maxStreams, h[..0]).0 == EMPTY;
  }

  lemma StreakGoesOn(policy: Policy, maxStreams: nat, h: seq<Arrival>, t: Table)
    requires |h| > 1 && Streak(policy, h) && maxStreams > 0 && policy.maxEvidence >= 1
    requires StreakState(policy, h[..|h| - 1], t)
    requires EverEnough(policy, h) <==> EverEnough(policy, h[..|h| - 1]) || Enough(policy, h, |h| - 1)
    ensures var (next, out) := Update(t, h[|h| - 1].event, policy, h[|h| - 1].now, maxStreams);
            StreakState(policy, h, next) && StreakOutput(policy, h, out)
  {
    var n := |h| - 1;
    SevereIsQualifying(policy, h[n].event);
    assert Incident(h[n].event) == Incident(h[0].event);
    assert h[..n][0] == h[0];
    var st := t.states[Incident(h[0].event)];
    EvidenceGrows(policy, h, st.evidence);
  }

  lemma EvidenceGrows(policy: Policy, h: seq<Arrival>, evidence: seq<Event>)
    requires |h| > 1 && policy.maxEvidence >= 1 && IsEvidence(policy, h[..|h| - 1], evidence)
    ensures IsEvidence(policy, h, LastOf(evidence + [h[|h| - 1].event], policy.maxEvidence))
  {
  }

  // ---------- Streams apart ----------

  predicate ColonFree(s: string) { ':' !in s }

  /** The positions of the two colons between three texts, none of them empty. */
  predicate JoinsAt(key: string, first: int, second: int) {
    1 <= first && first + 1 < second < |key| - 1 && key[first] == ':' && key[second] == ':'
  }

  function KeyOf(site: string, asset: string, tag: string): string { site + ":" + asset + ":" + tag }

  lemma PartsJoin(site: string, asset: string, tag: string)
    requires site != "" && asset != "" && tag != ""
    ensures var key, first, second := KeyOf(site, asset, tag), |site|, |site| + 1 + |asset|;
            && JoinsAt(key, first, second)
            && key[..first] == site && key[first + 1..second] == asset && key[second + 1..] == tag
  {
  }

  /** No colon of the names can be taken for one between them: none after the first character of the site, none
      before the last of the tag, and none in an asset of more than one character. */
  predicate Unmistakable(site: string, asset: string, tag: string) {
    && (forall i | 0 < i < |site| :: site[i] != ':')
    && (forall i | 0 <= i < |tag| - 1 :: tag[i] != ':')
    && (asset == ":" || ColonFree(asset))
  }

  lemma KeyCharacter(site: string, asset: string, tag: string, k: nat)
    requires k < |KeyOf(site, asset, tag)|
    ensures var first, second := |site|, |site| + 1 + |asset|;
            KeyOf(site, asset, tag)[k]
            == if k < first then site[k] else if first < k < second then asset[k - first - 1]
               else if second < k then tag[k - second - 1] else ':'
  {
  }

  /** Where a colon of the key can stand. */
  lemma ColonsStand(site: string, asset: string, tag: string, k: nat)
    requires site != "" && asset != "" && tag != "" && Unmistakable(site, asset, tag)
    requires 0 < k < |KeyOf(site, asset, tag)| - 1 && KeyOf(site, asset, tag)[k] == ':'
    ensures k == |site| || k == |site| + 1 + |asset| || (asset == ":" && k == |site| + 1)
  {
    KeyCharacter(site, asset, tag, k);
  }

  /** An unmistakable key is cut into three texts, none of them empty, in one way only. */
  lemma KeyIsCutOnce(site: string, asset: string, tag: string, site': string, asset': string, tag': string)
    requires site != "" && asset != "" && tag != "" && site' != "" && asset' != "" && tag' != ""
    requires Unmistakable(site, asset, tag) && KeyOf(site, asset, tag) == KeyOf(site', asset', tag')
    ensures site' == site && asset' == asset && tag' == tag
  {
    PartsJoin(site, asset, tag);
    PartsJoin(site', asset', tag');
    ColonsStand(site, asset, tag, |site'|);
    ColonsStand(site, asset, tag, |site'| + 1 + |asset'|);
  }

  lemma UnmistakableIsAlone(a: Event, b: Event)
    requires Unmistakable(Named(a.site), Named(a.asset), Named(a.tag)) && Incident(a) == Incident(b)
    ensures SameStream(a, b)
  {
    KeyIsCutOnce(Named(a.site), Named(a.asset), Named(a.tag), Named(b.site), Named(b.asset), Named(b.tag));
  }

  /** Names without colons are never mistaken. */
  lemma SameIncidentSameStream(a: Event, b: Event)
    requires ColonFree(a.site) && ColonFree(a.asset) && ColonFree(a.tag)
    requires Incident(a) == Incident(b)
    ensures SameStream(a, b)
  {
    UnmistakableIsAlone(a, b);
  }

  /** Two admitted events open one entry or two: two exactly when they are of different streams, names
      without colons given and an empty name standing for `unknown`. */
  lemma {:induction false} StreamsDoNotShare(policy: Policy, maxStreams: nat, a: Arrival, b: Arrival)
    requires maxStreams >= 2 && Watched(policy, a.event) && Watched(policy, b.event) && Severe(policy, a.event) && Severe(policy, b.event)
    requires ColonFree(a.event.site) && ColonFree(a.event.asset) && ColonFree(a.event.tag)
    requires ColonFree(b.event.site) && ColonFree(b.event.asset) && ColonFree(b.event.tag)
    ensures TableRun(policy, maxStreams, [a, b]).0.states.Keys == {Incident(a.event), Incident(b.event)}
    ensures Incident(a.event) == Incident(b.event) <==> SameStream(a.event, b.event)
  {
    SevereIsQualifying(policy, b.event);
    FirstEventOpens(policy, maxStreams, a);
    assert [a, b][..1] == [a];
    assert |TableRun(policy, maxStreams, [a]).0.states.Keys| == 1;
    if Incident(a.event) == Incident(b.event) { SameIncidentSameStream(a.event, b.event); }
  }

  /** With colons in the names two streams can share an entry. */
  lemma ColonsCollide(e: Event)
    ensures var a, b := e.(site := "a:b", asset := "c", tag := "d"), e.(site := "a", asset := "b:c", tag := "d");
            Incident(a) == Incident(b) && !SameStream(a, b)
  {
    assert "a:b" != "a";
  }

  /** Another event with the same key. */
  ghost predicate Shares(e: Event) { exists other :: Incident(other) == Incident(e) && !SameStream(other, e) }

  lemma SharesWith(e: Event, site: string, asset: string, tag: string)
    requires site != "" && asset != "" && tag != "" && KeyOf(site, asset, tag) == Incident(e)
    requires site != Named(e.site) || asset != Named(e.asset) || tag != Named(e.tag)
    ensures Shares(e)
  {
    var other := e.(site := site, asset := asset, tag := tag);
    assert Incident(other) == Incident(e) && !SameStream(other, e);
  }

  lemma SiteColonShares(e: Event, site: string, asset: string, tag: string, q: nat)
    requires site == Named(e.site) && asset == Named(e.asset) && tag == Named(e.tag) && 0 < q < |site| && site[q] == ':'
    ensures Shares(e)
  {
    assert site == site[..q] + ":" + site[q + 1..];
    assert KeyOf(site[..q], site[q + 1..] + ":" + asset, tag) == KeyOf(site, asset, tag);
    SharesWith(e, site[..q], site[q + 1..] + ":" + asset, tag);
  }

  lemma TagColonShares(e: Event, site: string, asset: string, tag: string, q: nat)
    requires site == Named(e.site) && asset == Named(e.asset) && tag == Named(e.tag) && q < |tag| - 1 && tag[q] == ':'
    ensures Shares(e)
  {
    assert tag == tag[..q] + ":" + tag[q + 1..];
    assert KeyOf(site, asset + ":" + tag[..q], tag[q + 1..]) == KeyOf(site, asset, tag);
    SharesWith(e, site, asset + ":" + tag[..q], tag[q + 1..]);
  }

  lemma AssetColonShares(e: Event, site: string, asset: string, tag: string, q: nat)
    requires site == Named(e.site) && asset == Named(e.asset) && tag == Named(e.tag) && |asset| > 1 && q < |asset| && asset[q] == ':'
    ensures Shares(e)
  {
    assert asset == asset[..q] + ":" + asset[q + 1..];
    if q < |asset| - 1 {
      assert KeyOf(site + ":" + asset[..q], asset[q + 1..], tag) == KeyOf(site, asset, tag);
      SharesWith(e, site + ":" + asset[..q], asset[q + 1..], tag);
    } else {
      assert KeyOf(site, asset[..q], asset[q + 1..] + ":" + tag) == KeyOf(site, asset, tag);
      SharesWith(e, site, asset[..q], asset[q + 1..] + ":" + tag);
    }
  }

  /** A stream shares its entry with no other exactly when no colon of its names can be taken for one between
      them. */
  lemma AloneIffUnmistakable(e: Event)
    ensures !Shares(e) <==> Unmistakable(Named(e.site), Named(e.asset), Named(e.tag))
  {
    var site, asset, tag := Named(e.site), Named(e.asset), Named(e.tag);
    if Unmistakable(site, asset, tag) {
      forall other | Incident(other) == Incident(e) ensures SameStream(other, e) { UnmistakableIsAlone(e, other); }
    } else if exists q :: 0 < q < |site| && site[q] == ':' {
      var q: nat :| 0 < q < |site| && site[q] == ':';
      SiteColonShares(e, site, asset, tag, q);
    } else if exists q :: 0 <= q < |tag| - 1 && tag[q] == ':' {
      var q: nat :| q < |tag| - 1 && tag[q] == ':';
      TagColonShares(e, site, asset, tag, q);
    } else {
      var q: nat :| q < |asset| && asset[q] == ':';
      assert |asset| > 1 || asset == ":";
      AssetColonShares(e, site, asset, tag, q);
    }
  }

  // ---------- Whom eviction hits ----------

  /** The position in the history of the event that opened a stream's present entry. */
  ghost function OpenedAt(policy: Policy, maxStreams: nat, h: seq<Arrival>, key: string): nat {
    if h == [] || key !in TableRun(policy, maxStreams, h[..|h| - 1]).0.states then |h|
    else OpenedAt(policy, maxStreams, h[..|h| - 1], key)
  }

  ghost predicate ByAge(order: seq<string>, age: string -> nat) {
    forall i, j | 0 <= i < j < |order| :: age(order[i]) < age(order[j])
  }

  ghost function AgeIn(policy: Policy, maxStreams: nat, h: seq<Arrival>): string -> nat {
    key => OpenedAt(policy, maxStreams, h, key)
  }

  lemma YoungerAfter(first: string, rest: seq<string>, age: string -> nat)
    requires ByAge(rest, age) && forall x | x in rest :: age(first) < age(x)
    ensures ByAge([first] + rest, age)
  {
  }

  lemma TailIsYounger(order: seq<string>, age: string -> nat)
    requires ByAge(order, age) && order != []
    ensures ByAge(order[1..], age) && forall x | x in order[1..] :: age(order[0]) < age(x) && x in order
  {
  }

  lemma {:induction false} RemoveKeepsAge(order: seq<string>, key: string, age: string -> nat)
    requires ByAge(order, age)
    ensures ByAge(Remove(order, key), age)
    ensures forall x | x in Remove(order, key) :: x in order
  {
    if order != [] {
      TailIsYounger(order, age);
      if order[0] != key {
        RemoveKeepsAge(order[1..], key, age);
        YoungerAfter(order[0], Remove(order[1..], key), age);
      }
    }
  }

  lemma SameAges(order: seq<string>, before: string -> nat, after: string -> nat)
    requires ByAge(order, before) && forall x | x in order :: after(x) == before(x)
    ensures ByAge(order, after)
  {
  }

  /** What an update does to the order of the streams. */
  ghost predicate OrderStep(before: seq<string>, after: seq<string>, key: string) {
    || after == before
    || (exists gone :: after == Remove(before, gone))
    || (key !in before && (after == before + [key] || exists gone :: after == Remove(before, gone) + [key]))
  }

  lemma UpdateStepsOrder(t: Table, e: Event, policy: Policy, now: real, maxStreams: nat)
    requires ValidTable(t)
    ensures OrderStep(t.order, Update(t, e, policy, now, maxStreams).0.order, StreamKey(e))
  {
  }

  lemma {:induction false} EntriesAreOlder(policy: Policy, maxStreams: nat, h: seq<Arrival>, key: string)
    ensures OpenedAt(policy, maxStreams, h, key) <= |h|
  {
    if h != [] { EntriesAreOlder(policy, maxStreams, h[..|h| - 1], key); }
  }

  /** In every run the streams of the table are in the order in which their entries were opened. */
  lemma {:induction false} TableIsByAge(policy: Policy, maxStreams: nat, h: seq<Arrival>)
    requires maxStreams > 0
    ensures ByAge(TableRun(policy, maxStreams, h).0.order, AgeIn(policy, maxStreams, h))
  {
    if h != [] {
      var n := |h| - 1;
      var before, after := TableRun(policy, maxStreams, h[..n]).0, TableRun(policy, maxStreams, h).0;
      TableIsByAge(policy, maxStreams, h[..n]);
      TableRunIsTable(policy, maxStreams, h[..n]);
      UpdateStepsOrder(before, h[n].event, policy, h[n].now, maxStreams);
      var key := StreamKey(h[n].event);
      var age, later := AgeIn(policy, maxStreams, h[..n]), AgeIn(policy, maxStreams, h);
      forall x | x in before.order ensures later(x) == age(x) < |h| { EntriesAreOlder(policy, maxStreams, h[..n], x); }
      AgeStep(before.order, after.order, key, age, later, |h|);
    }
  }

  lemma AgeStep(before: seq<string>, after: seq<string>, key: string, age: string -> nat, later: string -> nat, now: nat)
    requires ByAge(before, age) && OrderStep(before, after, key)
    requires forall x | x in before :: later(x) == age(x) < now
    requires key !in before ==> later(key) == now
    ensures ByAge(after, later)
  {
    SameAges(before, age, later);
    forall gone ensures ByAge(Remove(before, gone), later) && forall x | x in Remove(before, gone) :: later(x) < now {
      RemoveKeepsAge(before, gone, later);
    }
  }

  /** A stream that is pushed out of a full table is the one whose entry is the oldest. */
  lemma OldestIsEvicted(policy: Policy, maxStreams: nat, h: seq<Arrival>, key: string, other: string)
    requires maxStreams > 0 && h != []
    requires var before, after := TableRun(policy, maxStreams, h[..|h| - 1]).0.states, TableRun(policy, maxStreams, h).0.states;
             key in before && key !in after && key != Incident(h[|h| - 1].event) && other in before && other != key
    ensures OpenedAt(policy, maxStreams, h[..|h| - 1], key) < OpenedAt(policy, maxStreams, h[..|h| - 1], other)
    ensures |TableRun(policy, maxStreams, h[..|h| - 1]).0.states| >= maxStreams
  {
    var n := |h| - 1;
    var t := TableRun(policy, maxStreams, h[..n]).0;
    TableIsByAge(policy, maxStreams, h[..n]);
    TableRunIsTable(policy, maxStreams, h[..n]);
    UpdateTouches(t, h[n].event, policy, h[n].now, maxStreams, key);
    SevereIsQualifying(policy, h[n].event);
    assert t.order[0] == key;
    var j :| 0 <= j < |t.order| && t.order[j] == other;
    assert AgeIn(policy, maxStreams, h[..n])(t.order[0]) < AgeIn(policy, maxStreams, h[..n])(t.order[j]);
  }
}
