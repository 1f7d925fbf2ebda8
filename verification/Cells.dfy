/** One row of the grid: the value of every channel at one time of one (site, episode). */
module Cells {
  import opened Common
  import opened Text
  import opened Records
  import opened Alignment
  import opened Observations

  /** The accepted observations, the channel order and the permitted skew. */
  datatype Source = Source(observations: seq<Observation>, channels: seq<string>, skew: int)

  function Lane(p: Source, channel: string, episode: string): seq<Observation> {
    SortByTime(Select(ByChannel, p.observations, (channel, episode)))
  }

  /** The value of one channel at one grid time: the channel must read back to the step's site. */
  function ValueAt(p: Source, channel: string, key: Key, at: int): Option<real> {
    var lane := Lane(p, channel, key.1);
    if ChannelSite(channel) != key.0 || lane == [] then None
    else
      match Lookup(Times(lane), at, p.skew)
      case None => None
      case Some(i) => if i < |lane| then lane[i].value else assert false; None
  }

  function RowValues(p: Source, key: Key, at: int): seq<Option<real>> {
    seq(|p.channels|, c requires 0 <= c < |p.channels| => ValueAt(p, p.channels[c], key, at))
  }

  /** The channel table: every list that occurs, sorted by time. */
  ghost predicate LanesOf(p: Source, lanes: map<Key, seq<Observation>>) {
    && (forall key | key in lanes :: lanes[key] == Lane(p, key.0, key.1))
    && (forall key | key !in lanes :: Lane(p, key.0, key.1) == [])
  }

  method SortLanes(p: Source, groups: map<Key, seq<Observation>>) returns (lanes: map<Key, seq<Observation>>)
    requires IsGrouping(ByChannel, p.observations, groups)
    ensures LanesOf(p, lanes)
  {
    lanes := map key | key in groups :: SortByTime(groups[key]);
  }

  /** One cell of the grid. */
  method CellValue(p: Source, lanes: map<Key, seq<Observation>>, channel: string, key: Key, at: int)
    returns (value: Option<real>)
    requires LanesOf(p, lanes)
    ensures value == ValueAt(p, channel, key, at)
  {
    value := None;
    if ChannelSite(channel) == key.0 && (channel, key.1) in lanes {
      var lane := lanes[(channel, key.1)];
      var found := NearestSorted(Times(lane), at, p.skew);
      LookupWithinSkew(Times(lane), at, p.skew);
      if found.Some? { value := lane[found.value].value; }
    }
  }

  /** One row of the grid: the loop over channels. */
  method RowLoop(p: Source, lanes: map<Key, seq<Observation>>, key: Key, at: int)
    returns (values: seq<Option<real>>, mask: seq<bool>)
    requires LanesOf(p, lanes)
    ensures values == RowValues(p, key, at)
    ensures |mask| == |values| && forall c | 0 <= c < |values| :: mask[c] == values[c].Some?
  {
    values, mask := [], [];
    for c := 0 to |p.channels|
      invariant |values| == |mask| == c
      invariant forall i | 0 <= i < c :: values[i] == ValueAt(p, p.channels[i], key, at)
      invariant forall i | 0 <= i < c :: mask[i] == values[i].Some?
    {
      var value := CellValue(p, lanes, p.channels[c], key, at);
      values := values + [value];
      mask := mask + [value.Some?];
    }
  }

  // ---------- Where the values come from ----------

  /** o is an observation of this channel in this episode, within the skew of the time and with
      no closer one. */
  ghost predicate IsNearestOf(p: Source, channel: string, episode: string, at: int, o: Observation) {
    && o in p.observations && ChannelName(o.id) == channel && o.episode == episode
    && Distance(o.at, at) <= p.skew
    && forall x | x in p.observations && ChannelName(x.id) == channel && x.episode == episode ::
         Distance(o.at, at) <= Distance(x.at, at)
  }

  lemma LaneHolds(p: Source, channel: string, episode: string)
    ensures Ascending(Times(Lane(p, channel, episode)))
    ensures forall x :: x in Lane(p, channel, episode) <==>
                          x in p.observations && ChannelName(x.id) == channel && x.episode == episode
  {
    var chosen := Select(ByChannel, p.observations, (channel, episode));
    SelectElements(ByChannel, p.observations, (channel, episode));
    SortByTimeSorts(chosen);
    SortByTimeElements(chosen);
  }

  lemma LookupInLane(lane: seq<Observation>, at: int, skew: int)
    requires Ascending(Times(lane))
    ensures Lookup(Times(lane), at, skew).None? ==> forall x | x in lane :: Distance(x.at, at) > skew
    ensures Lookup(Times(lane), at, skew).Some? ==>
              var i := Lookup(Times(lane), at, skew).value;
              && i < |lane| && Distance(lane[i].at, at) <= skew
              && forall x | x in lane :: Distance(lane[i].at, at) <= Distance(x.at, at)
  {
    var ts := Times(lane);
    LookupIsNearest(ts, at, skew);
    forall x | x in lane
      ensures exists i :: 0 <= i < |lane| && ts[i] == x.at
    {
      var i :| 0 <= i < |lane| && lane[i] == x;
      assert ts[i] == x.at;
    }
  }

  /** A cell holds the value of a nearest observation of its own channel and episode; it is empty
      when the channel is another site's, when no observation is within the skew, or when the
      nearest one has no finite value. */
  lemma CellComesFromNearest(p: Source, channel: string, key: Key, at: int)
    ensures ValueAt(p, channel, key, at).Some? ==> ChannelSite(channel) == key.0
    ensures ChannelSite(channel) == key.0 ==>
              || (exists o :: IsNearestOf(p, channel, key.1, at, o) && ValueAt(p, channel, key, at) == o.value)
              || (ValueAt(p, channel, key, at) == None &&
                  forall x | x in p.observations && ChannelName(x.id) == channel && x.episode == key.1 ::
                    Distance(x.at, at) > p.skew)
  {
    var lane := Lane(p, channel, key.1);
    LaneHolds(p, channel, key.1);
    LookupInLane(lane, at, p.skew);
    var found := Lookup(Times(lane), at, p.skew);
    if ChannelSite(channel) == key.0 && found.Some? {
      assert lane[found.value] in lane;
      assert IsNearestOf(p, channel, key.1, at, lane[found.value]);
    }
  }

  /** The observation behind a value is of the step's own site exactly when its site name is clean, and the
      column's name reads back to it exactly when site and entity are. */
  lemma CellIsOwnSite(p: Source, channel: string, key: Key, at: int, o: Observation)
    requires ValueAt(p, channel, key, at).Some? && IsNearestOf(p, channel, key.1, at, o)
    ensures o.id.site == key.0 <==> Clean(o.id.site)
    ensures SplitChannel(channel) == Some(o.id) <==> Clean(o.id.site) && Clean(o.id.entity)
  {
    CellComesFromNearest(p, channel, key, at);
    ChannelSiteIsSite(o.id);
    SplitUndoesName(o.id);
  }

  lemma PrefixIsRead(id: Identity, a: string, b: string)
    requires Clean(a) && id.site == a + SEPARATOR + b
    ensures ChannelSite(ChannelName(id)) == a
  {
    var rest := b + SEPARATOR + id.entity + SEPARATOR + id.tag;
    HeadRecoversPrefix(a, rest);
    assert ChannelName(id) == a + SEPARATOR + rest;
  }

  lemma LookupInSingleton(o: Observation, at: int, skew: int)
    ensures Lookup(Times([o]), at, skew) == if Distance(o.at, at) <= skew then Some(0) else None
  {
    LookupInLane([o], at, skew);
    if Lookup(Times([o]), at, skew).None? { assert o in [o]; }
  }

  /** Without clean names values cross sites: what alone `a::b` observes on a channel lands in the cells of
      site `a` in the same episode. */
  lemma CellCanCrossSites(p: Source, o: Observation, a: string, b: string, at: int)
    requires Clean(a) && o.id.site == a + SEPARATOR + b
    requires Lane(p, ChannelName(o.id), o.episode) == [o] && Distance(o.at, at) <= p.skew
    ensures ValueAt(p, ChannelName(o.id), (a, o.episode), at) == o.value
  {
    PrefixIsRead(o.id, a, b);
    LookupInSingleton(o, at, p.skew);
  }

  /** And a site whose name is not clean never sees its own observations. */
  lemma ColonSiteIsBlind(p: Source, id: Identity, key: Key, at: int)
    requires !Clean(id.site) && key.0 == id.site
    ensures ValueAt(p, ChannelName(id), key, at) == None
  {
    ChannelSiteIsSite(id);
  }
}
