/** Reading the observations of a v3 dataset: checks, grouping and the time-sorted channels. */
module Observations {
  import opened Common
  import opened Text
  import opened Records
  import opened Alignment

  /** An accepted observation: timestamp, identity and episode are present. */
  datatype Observation = Observation(at: int, id: Identity, episode: string, value: Option<real>)

  type Key = (string, string)

  datatype ReadError =
    | NoTimestamps | InvalidIdentity | MissingEpisode | DuplicateEventId

  // ---------- Reading and checking the observations ----------

  function Timed(records: seq<Record>): seq<Record> {
    if records == [] then []
    else Timed(records[..|records| - 1]) + (if records[|records| - 1].at.Some? then [records[|records| - 1]] else [])
  }

  lemma {:induction false} TimedElements(records: seq<Record>)
    ensures forall r :: r in Timed(records) <==> r in records && r.at.Some?
  {
    if records != [] {
      var n := |records| - 1;
      TimedElements(records[..n]);
      assert records == records[..n] + [records[n]];
    }
  }

  function EventKey(r: Record): string { Strip(FieldText(r.eventId, "")) }

  predicate HasDuplicateEvent(records: seq<Record>) {
    exists i, j | 0 <= i < j < |records| :: EventKey(records[i]) != "" && EventKey(records[i]) == EventKey(records[j])
  }

  method FindDuplicateEvent(records: seq<Record>) returns (found: bool)
    ensures found == HasDuplicateEvent(records)
  {
    var seen: set<string> := {};
    var duplicates: set<string> := {};
    for i := 0 to |records|
      invariant seen == (set k | 0 <= k < i && EventKey(records[k]) != "" :: EventKey(records[k]))
      invariant duplicates != {} <==>
                exists k, j | 0 <= k < j < i :: EventKey(records[k]) != "" && EventKey(records[k]) == EventKey(records[j])
    {
      var key := EventKey(records[i]);
      if key != "" && key in seen {
        duplicates := duplicates + {key};
      } else if key != "" {
        seen := seen + {key};
      }
    }
    return duplicates != {};
  }

  function Accept(r: Record): Observation
    requires r.at.Some? && IdentityOf(r).Some? && EpisodeOf(r).Some?
  {
    Observation(r.at.value, IdentityOf(r).value, EpisodeOf(r).value, r.value)
  }

  function ObservationsOf(records: seq<Record>): Result<seq<Observation>, ReadError> {
    var timed := Timed(records);
    TimedElements(records);
    if timed == [] then Err(NoTimestamps)
    else if exists r | r in timed :: IdentityOf(r).None? then Err(InvalidIdentity)
    else if exists r | r in timed :: EpisodeOf(r).None? then Err(MissingEpisode)
    else if HasDuplicateEvent(timed) then Err(DuplicateEventId)
    else Ok(seq(|timed|, i requires 0 <= i < |timed| => assert timed[i] in timed; Accept(timed[i])))
  }

  // ---------- Grouping ----------

  datatype Grouping = BySite | ByChannel | ByEpisode

  function GroupKey(g: Grouping, o: Observation): Key {
    match g
    case BySite => (o.id.site, o.episode)
    case ByChannel => (ChannelName(o.id), o.episode)
    case ByEpisode => ("", o.episode)
  }

  function Select(g: Grouping, os: seq<Observation>, key: Key): seq<Observation> {
    if os == [] then []
    else
      var last := os[|os| - 1];
      Select(g, os[..|os| - 1], key) + (if GroupKey(g, last) == key then [last] else [])
  }

  lemma {:induction false} SelectElements(g: Grouping, os: seq<Observation>, key: Key)
    ensures forall o :: o in Select(g, os, key) <==> o in os && GroupKey(g, o) == key
  {
    if os != [] {
      var n := |os| - 1;
      SelectElements(g, os[..n], key);
      assert os == os[..n] + [os[n]];
    }
  }

  /** A dictionary of lists: exactly the keys that occur, each with its records in input order. */
  ghost predicate IsGrouping(g: Grouping, os: seq<Observation>, groups: map<Key, seq<Observation>>) {
    && (forall key :: key in groups <==> Select(g, os, key) != [])
    && (forall key | key in groups :: groups[key] == Select(g, os, key))
  }

  lemma {:induction false} SelectAppend(g: Grouping, os: seq<Observation>, o: Observation, key: Key)
    ensures Select(g, os + [o], key) == Select(g, os, key) + (if GroupKey(g, o) == key then [o] else [])
  {
    assert (os + [o])[..|os|] == os;
  }

  lemma {:induction false} SelectOfTwo(g: Grouping, x: Observation, y: Observation, key: Key)
    ensures Select(g, [x, y], key) == (if GroupKey(g, x) == key then [x] else []) + (if GroupKey(g, y) == key then [y] else [])
  {
    SelectAppend(g, [], x, key);
    SelectAppend(g, [x], y, key);
    assert [] + [x] == [x] && [x] + [y] == [x, y];
  }

  /** `groups[key].append(o)` on a dictionary whose missing lists are empty. */
  function Appended(groups: map<Key, seq<Observation>>, key: Key, o: Observation): map<Key, seq<Observation>> {
    groups[key := (if key in groups then groups[key] else []) + [o]]
  }

  lemma GroupingAppend(g: Grouping, os: seq<Observation>, o: Observation, groups: map<Key, seq<Observation>>)
    requires IsGrouping(g, os, groups)
    ensures IsGrouping(g, os + [o], Appended(groups, GroupKey(g, o), o))
  {
    forall key { SelectAppend(g, os, o, key); }
  }

  method GroupRecords(g: Grouping, os: seq<Observation>) returns (groups: map<Key, seq<Observation>>)
    ensures IsGrouping(g, os, groups)
  {
    groups := map[];
    for i := 0 to |os|
      invariant IsGrouping(g, os[..i], groups)
    {
      GroupingAppend(g, os[..i], os[i], groups);
      assert os[..i + 1] == os[..i] + [os[i]];
      groups := Appended(groups, GroupKey(g, os[i]), os[i]);
    }
    assert os[..|os|] == os;
  }

  // ---------- Stable sort by time ----------

  function InsertByTime(o: Observation, os: seq<Observation>): seq<Observation> {
    if os == [] || os[|os| - 1].at <= o.at then os + [o]
    else InsertByTime(o, os[..|os| - 1]) + [os[|os| - 1]]
  }

  function SortByTime(os: seq<Observation>): seq<Observation> {
    if os == [] then [] else InsertByTime(os[|os| - 1], SortByTime(os[..|os| - 1]))
  }

  /** The observations made at one time, in order. */
  function MadeAt(os: seq<Observation>, at: int): seq<Observation> {
    if os == [] then [] else MadeAt(os[..|os| - 1], at) + (if os[|os| - 1].at == at then [os[|os| - 1]] else [])
  }

  lemma {:induction false} MadeAtAppend(os: seq<Observation>, o: Observation, at: int)
    ensures MadeAt(os + [o], at) == MadeAt(os, at) + (if o.at == at then [o] else [])
  {
    assert (os + [o])[..|os|] == os;
  }

  lemma {:induction false} InsertKeepsOrder(o: Observation, os: seq<Observation>, at: int)
    requires InTime(os)
    ensures MadeAt(InsertByTime(o, os), at) == MadeAt(os, at) + (if o.at == at then [o] else [])
  {
    if os == [] || os[|os| - 1].at <= o.at {
      MadeAtAppend(os, o, at);
    } else {
      var n := |os| - 1;
      InsertKeepsOrder(o, os[..n], at);
      MadeAtAppend(InsertByTime(o, os[..n]), os[n], at);
      EitherIsEmpty(MadeAt(os[..n], at), if o.at == at then [o] else [], if os[n].at == at then [os[n]] else []);
    }
  }

  lemma EitherIsEmpty(before: seq<Observation>, a: seq<Observation>, b: seq<Observation>)
    requires a == [] || b == []
    ensures before + a + b == before + b + a
  {
  }

  /** The sort is stable: observations made at the same time stay in the order they were read. */
  lemma {:induction false} SortIsStable(os: seq<Observation>, at: int)
    ensures MadeAt(SortByTime(os), at) == MadeAt(os, at)
  {
    if os != [] {
      var n := |os| - 1;
      SortIsStable(os[..n], at);
      SortByTimeSorts(os[..n]);
      InsertKeepsOrder(os[n], SortByTime(os[..n]), at);
    }
  }

  lemma SortOfOne(o: Observation)
    ensures SortByTime([o]) == [o]
  {
    assert [o][..0] == [];
  }

  function Times(os: seq<Observation>): (ts: seq<int>)
    ensures |ts| == |os| && forall i | 0 <= i < |os| :: ts[i] == os[i].at
  {
    seq(|os|, i requires 0 <= i < |os| => os[i].at)
  }

  ghost predicate InTime(os: seq<Observation>) {
    forall i, j | 0 <= i < j < |os| :: os[i].at <= os[j].at
  }

  lemma InTimeIsAscending(os: seq<Observation>)
    ensures InTime(os) <==> Ascending(Times(os))
  {
    var ts := Times(os);
    if Ascending(ts) {
      forall i, j | 0 <= i < j < |os| ensures os[i].at <= os[j].at { assert ts[i] <= ts[j]; }
    }
  }

  lemma {:induction false} InsertElements(o: Observation, os: seq<Observation>)
    ensures multiset(InsertByTime(o, os)) == multiset(os) + multiset{o}
  {
    if os != [] && os[|os| - 1].at > o.at {
      InsertElements(o, os[..|os| - 1]);
      assert os == os[..|os| - 1] + [os[|os| - 1]];
    }
  }

  lemma AppendInTime(os: seq<Observation>, last: Observation)
    requires InTime(os) && forall x | x in os :: x.at <= last.at
    ensures InTime(os + [last])
  {
  }

  lemma {:induction false} InsertByTimeSorts(o: Observation, os: seq<Observation>)
    requires InTime(os)
    ensures InTime(InsertByTime(o, os))
  {
    if os != [] && os[|os| - 1].at > o.at {
      var n := |os| - 1;
      InsertByTimeSorts(o, os[..n]);
      var shorter := InsertByTime(o, os[..n]);
      InsertElements(o, os[..n]);
      forall x | x in shorter ensures x.at <= os[n].at {
        assert x in multiset(shorter);
        assert x == o || x in os[..n];
      }
      AppendInTime(shorter, os[n]);
    } else {
      AppendInTime(os, o);
    }
  }

  /** The sorted channel is ascending and holds the same records the same number of times. */
  lemma {:induction false} SortByTimeSorts(os: seq<Observation>)
    ensures Ascending(Times(SortByTime(os)))
    ensures multiset(SortByTime(os)) == multiset(os)
  {
    if os != [] {
      var n := |os| - 1;
      var sorted := SortByTime(os[..n]);
      SortByTimeSorts(os[..n]);
      InTimeIsAscending(sorted);
      InsertByTimeSorts(os[n], sorted);
      InsertElements(os[n], sorted);
      InTimeIsAscending(InsertByTime(os[n], sorted));
      assert os == os[..n] + [os[n]];
    }
  }

  lemma {:induction false} SortByTimeElements(os: seq<Observation>)
    ensures forall o :: o in SortByTime(os) <==> o in os
  {
    SortByTimeSorts(os);
    forall o ensures o in SortByTime(os) <==> o in os {
      assert o in multiset(SortByTime(os)) <==> o in multiset(os);
    }
  }

  function Earliest(os: seq<Observation>): int
    requires os != []
  {
    if |os| == 1 then os[0].at else Min(os[0].at, Earliest(os[1..]))
  }

  function Latest(os: seq<Observation>): int
    requires os != []
  {
    if |os| == 1 then os[0].at else Max(os[0].at, Latest(os[1..]))
  }

  lemma {:induction false} EarliestIsFirst(os: seq<Observation>)
    requires os != []
    ensures forall o | o in os :: Earliest(os) <= o.at
    ensures exists o | o in os :: Earliest(os) == o.at
  {
    assert os[0] in os;
    if |os| > 1 {
      EarliestIsFirst(os[1..]);
      assert os == [os[0]] + os[1..];
    }
  }

  lemma {:induction false} LatestIsLast(os: seq<Observation>)
    requires os != []
    ensures forall o | o in os :: o.at <= Latest(os)
    ensures exists o | o in os :: Latest(os) == o.at
  {
    assert os[0] in os;
    if |os| > 1 {
      LatestIsLast(os[1..]);
      assert os == [os[0]] + os[1..];
    }
  }

  lemma EndsOfTwo(x: Observation, y: Observation)
    ensures Earliest([x, y]) == Min(x.at, y.at) && Latest([x, y]) == Max(x.at, y.at)
  {
    assert [x, y][1..] == [y];
  }
}
