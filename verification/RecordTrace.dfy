/** What a bundle owes to the source records, said on the fields of the records: which record is behind each
    observation, each value and each event row, and which records decide an episode's split. */
module RecordTrace {
  import opened Common
  import opened Text
  import opened Records
  import opened Splits
  import opened Alignment
  import opened Observations
  import opened Cells
  import opened StepGrid
  import opened Transitions
  import opened Bundle

  // ---------- What a record says ----------

  predicate Blank(field: Option<string>) { field.None? || Strip(field.value) == "" }

  /** The field is there and reads so without the blanks around it; it does not read blank. */
  predicate Reads(field: Option<string>, text: string) { field.Some? && Strip(field.value) == text != "" }

  predicate OfSite(r: Record, site: string) { Reads(r.siteId, site) }

  /** `entity_id` counts only without an `asset_id` key. */
  predicate OfEntity(r: Record, entity: string) { if r.assetId.Some? then Reads(r.assetId, entity) else Reads(r.entityId, entity) }

  predicate OfTag(r: Record, tag: string) { if r.tag.Some? then Reads(r.tag, tag) else Reads(r.channel, tag) }

  /** The first key that is not blank names the episode. */
  predicate OfEpisode(r: Record, episode: string) {
    || Reads(r.episodeId, episode)
    || (Blank(r.episodeId) && Reads(r.contextId, episode))
    || (Blank(r.episodeId) && Blank(r.contextId) && Reads(r.lineageId, episode))
  }

  predicate Names(r: Record, id: Identity) { OfSite(r, id.site) && OfEntity(r, id.entity) && OfTag(r, id.tag) }

  /** The observation says what the record says. */
  predicate Stands(r: Record, o: Observation) {
    r.at == Some(o.at) && Names(r, o.id) && OfEpisode(r, o.episode) && r.value == o.value
  }

  lemma IdentityIffNamed(r: Record, id: Identity)
    ensures IdentityOf(r) == Some(id) <==> Names(r, id)
  {
  }

  lemma EpisodeIffNamed(r: Record, episode: string)
    ensures EpisodeOf(r) == Some(episode) <==> OfEpisode(r, episode)
  {
  }

  // ---------- Reading ----------

  ghost predicate InOrder(where: seq<nat>) { forall m, n | 0 <= m < n < |where| :: where[m] < where[n] }

  /** The positions of the records with a time, in order. */
  function TimedAt(records: seq<Record>): seq<nat> {
    if records == [] then []
    else TimedAt(records[..|records| - 1]) + (if records[|records| - 1].at.Some? then [|records| - 1] else [])
  }

  lemma {:induction false} TimedPositions(records: seq<Record>)
    ensures var where := TimedAt(records);
            && InOrder(where) && |where| == |Timed(records)|
            && (forall n | 0 <= n < |where| :: where[n] < |records| && records[where[n]] == Timed(records)[n])
            && (forall n | 0 <= n < |where| :: records[where[n]].at.Some?)
            && forall i | 0 <= i < |records| && records[i].at.Some? :: i in where
  {
    if records != [] { TimedPositions(records[..|records| - 1]); }
  }

  /** A successful read turns exactly the records with a time, each once and in input order, into
      observations that say what they say. */
  lemma EachTimedRecordIsRead(records: seq<Record>, os: seq<Observation>) returns (where: seq<nat>)
    requires ObservationsOf(records) == Ok(os)
    ensures |where| == |os| && InOrder(where)
    ensures forall n | 0 <= n < |os| :: where[n] < |records| && Stands(records[where[n]], os[n])
    ensures forall i | 0 <= i < |records| :: i in where <==> records[i].at.Some?
  {
    where := TimedAt(records);
    TimedPositions(records);
    var timed := Timed(records);
    forall n | 0 <= n < |os|
      ensures Stands(records[where[n]], os[n])
    {
      assert timed[n] in timed;
      IdentityIffNamed(timed[n], os[n].id);
      EpisodeIffNamed(timed[n], os[n].episode);
    }
  }

  predicate SameEvent(r: Record, s: Record) { !Blank(r.eventId) && s.eventId.Some? && Strip(r.eventId.value) == Strip(s.eventId.value) }

  ghost predicate Identified(r: Record) { exists id :: Names(r, id) }

  ghost predicate Placed(r: Record) { exists episode :: OfEpisode(r, episode) }

  ghost predicate Repeats(records: seq<Record>) {
    exists i, j | 0 <= i < j < |records| :: records[i].at.Some? && records[j].at.Some? && SameEvent(records[i], records[j])
  }

  lemma KeysAreEqualIffSame(r: Record, s: Record)
    ensures EventKey(r) != "" && EventKey(r) == EventKey(s) <==> SameEvent(r, s)
  {
  }

  lemma {:induction false} RepeatIsDuplicate(records: seq<Record>, where: seq<nat>, timed: seq<Record>, i: nat, j: nat)
    requires where == TimedAt(records) && timed == Timed(records) && i < j < |records|
    requires records[i].at.Some? && records[j].at.Some? && SameEvent(records[i], records[j])
    ensures HasDuplicateEvent(timed)
  {
    TimedPositions(records);
    assert i in where && j in where;
    var m: nat :| m < |where| && where[m] == i;
    var n: nat :| n < |where| && where[n] == j;
    KeysAreEqualIffSame(timed[m], timed[n]);
  }

  lemma {:induction false} DuplicateIsRepeat(records: seq<Record>, where: seq<nat>, timed: seq<Record>, m: nat, n: nat)
    requires where == TimedAt(records) && timed == Timed(records) && m < n < |timed|
    requires EventKey(timed[m]) != "" && EventKey(timed[m]) == EventKey(timed[n])
    ensures Repeats(records)
  {
    TimedPositions(records);
    KeysAreEqualIffSame(timed[m], timed[n]);
    assert SameEvent(records[where[m]], records[where[n]]);
  }

  lemma {:induction false} DuplicatesAreRepeats(records: seq<Record>)
    ensures HasDuplicateEvent(Timed(records)) <==> Repeats(records)
  {
    var where, timed := TimedAt(records), Timed(records);
    if HasDuplicateEvent(timed) {
      var m: nat, n: nat :| m < n < |timed| && EventKey(timed[m]) != "" && EventKey(timed[m]) == EventKey(timed[n]);
      DuplicateIsRepeat(records, where, timed, m, n);
    }
    if Repeats(records) {
      var i: nat, j: nat :| i < j < |records| && records[i].at.Some? && records[j].at.Some? && SameEvent(records[i], records[j]);
      RepeatIsDuplicate(records, where, timed, i, j);
    }
  }

  /** Reading fails exactly without any time, with a timed record that lacks site, entity or tag, with one
      that lacks an episode, or with two that share an event id, in this order. */
  lemma ReadFailsIff(records: seq<Record>)
    ensures var read, timed := ObservationsOf(records), set r | r in records && r.at.Some?;
            if timed == {} then read == Err(NoTimestamps)
            else if exists r :: r in timed && !Identified(r) then read == Err(InvalidIdentity)
            else if exists r :: r in timed && !Placed(r) then read == Err(MissingEpisode)
            else if Repeats(records) then read == Err(DuplicateEventId)
            else read.Ok?
  {
    TimedElements(records);
    DuplicatesAreRepeats(records);
    var timed := set r | r in records && r.at.Some?;
    assert timed == {} <==> Timed(records) == [] by {
      if Timed(records) != [] { assert Timed(records)[0] in timed; }
    }
    forall r | r in timed
      ensures Identified(r) <==> IdentityOf(r).Some?
      ensures Placed(r) <==> EpisodeOf(r).Some?
    {
      IdentifiedIff(r);
      PlacedIff(r);
    }
  }

  lemma IdentifiedIff(r: Record)
    ensures Identified(r) <==> IdentityOf(r).Some?
  {
    if IdentityOf(r).Some? { IdentityIffNamed(r, IdentityOf(r).value); }
    if Identified(r) {
      var id :| Names(r, id);
      IdentityIffNamed(r, id);
    }
  }

  lemma PlacedIff(r: Record)
    ensures Placed(r) <==> EpisodeOf(r).Some?
  {
    if EpisodeOf(r).Some? { EpisodeIffNamed(r, EpisodeOf(r).value); }
    if Placed(r) {
      var episode :| OfEpisode(r, episode);
      EpisodeIffNamed(r, episode);
    }
  }

  // ---------- The values of a bundle ----------

  /** The inputs of a bundle are what these records read as. */
  ghost predicate IsRead(records: seq<Record>, input: Inputs) { ObservationsOf(records) == Ok(input.observations) }

  /** Site, entity and tag of the record, in this order, make the name of the channel. */
  ghost predicate OnChannel(r: Record, channel: string) {
    exists id :: Names(r, id) && channel == id.site + "::" + id.entity + "::" + id.tag
  }

  lemma ObservationOf(records: seq<Record>, os: seq<Observation>, r: Record) returns (o: Observation)
    requires ObservationsOf(records) == Ok(os) && r in records && r.at.Some?
    ensures o in os && Stands(r, o)
  {
    var where := EachTimedRecordIsRead(records, os);
    var i: nat :| i < |records| && records[i] == r;
    assert i in where;
    var n: nat :| n < |where| && where[n] == i;
    o := os[n];
  }

  lemma RecordOf(records: seq<Record>, os: seq<Observation>, o: Observation) returns (r: Record)
    requires ObservationsOf(records) == Ok(os) && o in os
    ensures r in records && Stands(r, o)
  {
    var where := EachTimedRecordIsRead(records, os);
    var n: nat :| n < |os| && os[n] == o;
    r := records[where[n]];
  }

  /** A value shown in a bundle is the value of a record of that episode within the skew, whose site, entity
      and tag, in this order, make the name of the column; a clean site and entity are read back from it. */
  lemma ShownValueIsRecorded(records: seq<Record>, input: Inputs, b: Bundle, i: nat, c: nat) returns (r: Record, id: Identity)
    requires IsRead(records, input) && IsBundle(input, b) && i < |b.steps| && c < |b.channels|
    requires |b.steps[i].mask| == |b.channels| && b.steps[i].mask[c]
    ensures r in records && r.at.Some? && Distance(r.at.value, b.steps[i].at) <= input.skew
    ensures |b.steps[i].values| == |b.channels| && r.value.Some? && b.steps[i].values[c] == r.value
    ensures OfEpisode(r, b.steps[i].episode) && OfSite(r, id.site) && OfEntity(r, id.entity) && OfTag(r, id.tag)
    ensures b.channels[c] == id.site + "::" + id.entity + "::" + id.tag
    ensures Clean(id.site) ==> id.site == b.steps[i].site
    ensures Clean(id.site) && Clean(id.entity) ==> SplitChannel(b.channels[c]) == Some(id)
  {
    var g, k := StepIsWellPlaced(input, b, i);
    var o := ValueIsNearestObservation(input, b, i, c);
    ValueIsOwnSiteIff(input, b, i, c);
    r := RecordOf(records, input.observations, o);
    id := o.id;
  }

  /** And the closest record of a clean site's channel and episode, if it is within the skew, closer than all
      others and has a value, is shown in every step of that site and episode. */
  lemma ClosestRecordIsShown(records: seq<Record>, input: Inputs, b: Bundle, i: nat, c: nat, r: Record, id: Identity)
    requires IsRead(records, input) && IsBundle(input, b) && i < |b.steps| && c < |b.channels|
    requires r in records && r.at.Some? && r.value.Some? && Names(r, id) && OfEpisode(r, b.steps[i].episode)
    requires b.channels[c] == id.site + "::" + id.entity + "::" + id.tag && Clean(id.site) && b.steps[i].site == id.site
    requires Distance(r.at.value, b.steps[i].at) <= input.skew
    requires forall other | other in records && other != r && other.at.Some? && OnChannel(other, b.channels[c])
                            && OfEpisode(other, b.steps[i].episode) ::
               Distance(other.at.value, b.steps[i].at) > Distance(r.at.value, b.steps[i].at)
    ensures |b.steps[i].mask| == |b.steps[i].values| == |b.channels|
    ensures b.steps[i].mask[c] && b.steps[i].values[c] == r.value
  {
    var g, k := StepIsWellPlaced(input, b, i);
    var os, source, key, at := input.observations, SourceOf(input), (b.steps[i].site, b.steps[i].episode), b.steps[i].at;
    var own := ObservationOf(records, os, r);
    SameNames(r, own.id, id);
    SameEpisode(r, own.episode, key.1);
    ChannelSiteIsSite(id);
    CellComesFromNearest(source, b.channels[c], key, at);
    assert ChannelName(own.id) == b.channels[c];
    var o :| IsNearestOf(source, b.channels[c], key.1, at, o) && ValueAt(source, b.channels[c], key, at) == o.value;
    var behind := RecordOf(records, os, o);
    assert OnChannel(behind, b.channels[c]) by { assert Names(behind, o.id); }
    assert behind == r;
  }

  lemma SameNames(r: Record, id: Identity, other: Identity)
    requires Names(r, id) && Names(r, other)
    ensures id == other
  {
  }

  lemma SameEpisode(r: Record, episode: string, other: string)
    requires OfEpisode(r, episode) && OfEpisode(r, other)
    ensures episode == other
  {
  }

  /** The columns are the channels of the records with a time, in increasing order by code point. */
  lemma ColumnsAreRecorded(records: seq<Record>, input: Inputs, b: Bundle)
    requires IsRead(records, input) && IsBundle(input, b)
    ensures forall m, n | 0 <= m < n < |b.channels| :: Less(b.channels[m], b.channels[n])
    ensures forall channel :: channel in b.channels <==> exists r :: r in records && r.at.Some? && OnChannel(r, channel)
  {
    var os := input.observations;
    NamesAreObserved(os);
    LessIsStrictOrder();
    SortDistinctSorts(seq(|os|, i requires 0 <= i < |os| => ChannelName(os[i].id)), Less);
    forall channel | channel in b.channels
      ensures exists r :: r in records && r.at.Some? && OnChannel(r, channel)
    {
      var o :| o in os && ChannelName(o.id) == channel;
      var r := RecordOf(records, os, o);
      assert Names(r, o.id);
    }
    forall r, channel | r in records && r.at.Some? && OnChannel(r, channel)
      ensures channel in b.channels
    {
      var id :| Names(r, id) && channel == id.site + "::" + id.entity + "::" + id.tag;
      var o := ObservationOf(records, os, r);
      SameNames(r, o.id, id);
    }
  }

  /** The groups of steps are the (site, episode) pairs of the records with a time, in increasing order. */
  lemma GroupsAreRecorded(records: seq<Record>, input: Inputs)
    requires IsRead(records, input)
    ensures forall m, n | 0 <= m < n < |Keys(input.observations)| :: PairLess(Keys(input.observations)[m], Keys(input.observations)[n])
    ensures forall key :: key in Keys(input.observations)
                          <==> exists r :: r in records && r.at.Some? && OfSite(r, key.0) && OfEpisode(r, key.1)
  {
    var os := input.observations;
    KeysAreObserved(os);
    PairLessIsStrictOrder();
    SortDistinctSorts(seq(|os|, i requires 0 <= i < |os| => GroupKey(BySite, os[i])), PairLess);
    forall key | key in Keys(os)
      ensures exists r :: r in records && r.at.Some? && OfSite(r, key.0) && OfEpisode(r, key.1)
    {
      SelectElements(BySite, os, key);
      var o := Select(BySite, os, key)[0];
      assert o in Select(BySite, os, key);
      var r := RecordOf(records, os, o);
    }
    forall r, key: Key | r in records && r.at.Some? && OfSite(r, key.0) && OfEpisode(r, key.1)
      ensures key in Keys(os)
    {
      var o := ObservationOf(records, os, r);
      SameEpisode(r, o.episode, key.1);
      SelectElements(BySite, os, key);
      assert o in Select(BySite, os, key);
    }
  }

  // ---------- Temporal splits ----------

  /** An episode is for training exactly when no record of it is after `train_end`, and for testing exactly when
      one is after `validation_end`. */
  lemma SplitByLastRecord(records: seq<Record>, input: Inputs, b: Bundle, episode: string)
    requires IsRead(records, input) && IsBundle(input, b) && input.config.Temporal? && episode in b.splits
    ensures input.config.trainEnd.Some? && input.config.validationEnd.Some?
    ensures b.splits[episode] == Train <==>
            forall r | r in records && r.at.Some? && OfEpisode(r, episode) :: r.at.value <= input.config.trainEnd.value
    ensures b.splits[episode] == Test <==>
            exists r :: r in records && r.at.Some? && OfEpisode(r, episode) && input.config.validationEnd.value < r.at.value
  {
    var os := input.observations;
    TemporalFollowsTime(EpisodeIds(os), input.config, EpisodeEnds(os), b.splits);
    var last := LastRecord(records, os, episode);
  }

  lemma LastRecord(records: seq<Record>, os: seq<Observation>, episode: string) returns (last: Record)
    requires ObservationsOf(records) == Ok(os) && episode in EpisodeIds(os)
    ensures last in records && last.at == Some(EpisodeEnds(os)[episode]) && OfEpisode(last, episode)
    ensures forall r | r in records && r.at.Some? && OfEpisode(r, episode) :: r.at.value <= last.at.value
  {
    var group := Select(ByEpisode, os, ("", episode));
    SelectElements(ByEpisode, os, ("", episode));
    NamesAreObserved(os);
    var some :| some in os && some.episode == episode;
    assert some in group;
    LatestIsLast(group);
    var o :| o in group && o.at == Latest(group);
    last := RecordOf(records, os, o);
    forall r | r in records && r.at.Some? && OfEpisode(r, episode)
      ensures r.at.value <= last.at.value
    {
      var own := ObservationOf(records, os, r);
      SameEpisode(r, own.episode, episode);
      assert own in group;
    }
  }

  // ---------- Actions and outcomes ----------

  /** The row holds the record, its time, its own site and episode text (the resolved episode without one), and
      the split of the resolved episode. */
  ghost predicate Carries(row: EventRow, r: Record, splits: Assignment) {
    && row.record == r && r.at == Some(row.at) && r.siteId == Some(row.site) && !Blank(r.siteId)
    && exists episode :: OfEpisode(r, episode)
                         && row.episode == (if r.episodeId.Some? then r.episodeId.value else episode)
                         && row.split == (if episode in splits then Some(splits[episode]) else None)
  }

  lemma RowCarries(r: Record, splits: Assignment)
    ensures RowOf(r, splits).Some? <==> r.at.Some? && !Blank(r.siteId) && Placed(r)
    ensures RowOf(r, splits).Some? ==> Carries(RowOf(r, splits).value, r, splits)
  {
    PlacedIff(r);
    if EpisodeOf(r).Some? { EpisodeIffNamed(r, EpisodeOf(r).value); }
  }

  /** The records of these positions, in order, are carried by the rows. */
  ghost predicate CarriedFrom(rows: seq<EventRow>, records: seq<Record>, where: seq<nat>, splits: Assignment) {
    && |where| == |rows| && InOrder(where)
    && forall n | 0 <= n < |where| :: where[n] < |records| && Carries(rows[n], records[where[n]], splits)
  }

  lemma OneMoreRow(rows: seq<EventRow>, records: seq<Record>, where: seq<nat>, splits: Assignment, r: Record, row: Option<EventRow>)
    requires CarriedFrom(rows, records, where, splits) && (row.Some? ==> Carries(row.value, r, splits))
    ensures CarriedFrom(rows + (if row.Some? then [row.value] else []), records + [r],
                        where + (if row.Some? then [|records|] else []), splits)
  {
  }

  predicate IsEvent(r: Record) { r.at.Some? && RowOf(r, map[]).Some? }

  /** The positions of the records that give rows, in order. */
  function EventsAt(records: seq<Record>): seq<nat> {
    if records == [] then []
    else EventsAt(records[..|records| - 1]) + (if IsEvent(records[|records| - 1]) then [|records| - 1] else [])
  }

  lemma {:induction false} EventsAreAt(records: seq<Record>, i: nat)
    ensures i in EventsAt(records) <==> i < |records| && IsEvent(records[i])
  {
    if records != [] { EventsAreAt(records[..|records| - 1], i); }
  }

  lemma {:induction false} RowsAreCarried(records: seq<Record>, splits: Assignment)
    ensures CarriedFrom(Rows(records, splits), records, EventsAt(records), splits)
  {
    if records != [] {
      var n := |records| - 1;
      RowsAreCarried(records[..n], splits);
      RowCarries(records[n], splits);
      RowCarries(records[n], map[]);
      OneMoreRow(Rows(records[..n], splits), records[..n], EventsAt(records[..n]), splits, records[n], RowOf(records[n], splits));
      assert records[..n] + [records[n]] == records;
    }
  }

  /** The rows are exactly the records with a time, a site and an episode, each once and in input order. */
  lemma EachEventIsRow(records: seq<Record>, splits: Assignment) returns (where: seq<nat>)
    ensures |where| == |Rows(records, splits)| && InOrder(where)
    ensures forall n | 0 <= n < |where| :: where[n] < |records| && Carries(Rows(records, splits)[n], records[where[n]], splits)
    ensures forall i | 0 <= i < |records| :: i in where <==> records[i].at.Some? && !Blank(records[i].siteId) && Placed(records[i])
  {
    where := EventsAt(records);
    RowsAreCarried(records, splits);
    forall i | 0 <= i < |records| ensures i in where <==> records[i].at.Some? && !Blank(records[i].siteId) && Placed(records[i]) {
      EventsAreAt(records, i);
      RowCarries(records[i], map[]);
    }
  }

  /** The action rows of a bundle come from the action records, the outcome rows from the outcome records. */
  lemma BundleEventsAreRecorded(input: Inputs, b: Bundle) returns (actions: seq<nat>, outcomes: seq<nat>)
    requires IsBundle(input, b)
    ensures |actions| == |b.actions| && InOrder(actions) && |outcomes| == |b.outcomes| && InOrder(outcomes)
    ensures forall n | 0 <= n < |actions| :: actions[n] < |input.actions| && Carries(b.actions[n], input.actions[actions[n]], b.splits)
    ensures forall n | 0 <= n < |outcomes| :: outcomes[n] < |input.outcomes| && Carries(b.outcomes[n], input.outcomes[outcomes[n]], b.splits)
  {
    actions := EachEventIsRow(input.actions, b.splits);
    outcomes := EachEventIsRow(input.outcomes, b.splits);
  }
}
