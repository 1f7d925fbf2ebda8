/** The in-memory part of the v3 compiler from source records to steps, transitions and splits,
    and what every compiled bundle satisfies. */
module Bundle {
  import opened Common
  import opened Flattening
  import opened Text
  import opened Records
  import opened Splits
  import opened Alignment
  import opened Observations
  import opened Cells
  import opened StepGrid
  import opened Transitions

  datatype CompileError = Unreadable(read: ReadError) | Unsplittable(split: SplitError)

  datatype Bundle = Bundle(channels: seq<string>, splits: Assignment, steps: seq<Step>,
                           actions: seq<EventRow>, outcomes: seq<EventRow>, transitions: seq<Transition>)

  // ---------- The manifest's alignment section ----------

  /** `int(alignment.get("max_skew_ms", -1) or -1)`: zero counts as missing. */
  predicate AlignmentAccepted(sampleInterval: Option<int>, maxSkew: Option<int>) {
    var interval := if sampleInterval.Some? then sampleInterval.value else 0;
    var skew := if maxSkew.Some? && maxSkew.value != 0 then maxSkew.value else -1;
    interval > 0 && skew >= 0
  }

  /** The error message allows a skew of zero; the check does not. */
  lemma AlignmentNeedsPositiveSkew(sampleInterval: Option<int>, maxSkew: Option<int>)
    ensures AlignmentAccepted(sampleInterval, maxSkew) <==>
            sampleInterval.Some? && sampleInterval.value > 0 && maxSkew.Some? && maxSkew.value > 0
    ensures !AlignmentAccepted(Some(1000), Some(0))
  {
  }

  // ---------- The dimensions of a bundle ----------

  function Keys(os: seq<Observation>): seq<Key> {
    SortDistinct(seq(|os|, i requires 0 <= i < |os| => GroupKey(BySite, os[i])), PairLess)
  }

  function EpisodeIds(os: seq<Observation>): seq<string> {
    SortDistinct(seq(|os|, i requires 0 <= i < |os| => os[i].episode), Less)
  }

  function Channels(os: seq<Observation>): seq<string> {
    SortDistinct(seq(|os|, i requires 0 <= i < |os| => ChannelName(os[i].id)), Less)
  }

  function EpisodeEnd(os: seq<Observation>, episode: string): int {
    var group := Select(ByEpisode, os, ("", episode));
    if group == [] then -1 else Latest(group)
  }

  function EpisodeEnds(os: seq<Observation>): map<string, int> {
    map e | e in EpisodeIds(os) :: EpisodeEnd(os, e)
  }

  /** Each (site, episode) is listed once, and listed exactly when it was observed. */
  lemma {:induction false} KeysAreObserved(os: seq<Observation>)
    ensures NoDuplicates(Keys(os))
    ensures forall key :: key in Keys(os) <==> Select(BySite, os, key) != []
    ensures forall key :: key in Keys(os) ==> key.1 in EpisodeIds(os)
  {
    var all := seq(|os|, i requires 0 <= i < |os| => GroupKey(BySite, os[i]));
    var episodes := seq(|os|, i requires 0 <= i < |os| => os[i].episode);
    PairLessIsStrictOrder();
    LessIsStrictOrder();
    SortDistinctSorts(all, PairLess);
    SortDistinctSorts(episodes, Less);
    forall key
      ensures key in Keys(os) <==> Select(BySite, os, key) != []
      ensures key in Keys(os) ==> key.1 in EpisodeIds(os)
    {
      SelectElements(BySite, os, key);
      var group := Select(BySite, os, key);
      if group != [] {
        assert group[0] in group;
        var i :| 0 <= i < |os| && os[i] == group[0];
        assert all[i] == key;
      }
      if key in all {
        var i :| 0 <= i < |all| && all[i] == key;
        assert os[i] in os && os[i] in group;
        assert episodes[i] == key.1;
      }
    }
  }

  function Spans(os: seq<Observation>): (spans: seq<Span>)
    ensures |spans| == |Keys(os)|
    ensures forall g | 0 <= g < |spans| :: (spans[g].site, spans[g].episode) == Keys(os)[g]
  {
    KeysAreObserved(os);
    seq(|Keys(os)|, g requires 0 <= g < |Keys(os)| =>
      assert Keys(os)[g] in Keys(os);
      SpanOf(os, Keys(os)[g]))
  }

  /** The accepted observations, the event sources and the manifest settings. */
  datatype Inputs = Inputs(observations: seq<Observation>, actions: seq<Record>, outcomes: seq<Record>,
                           interval: int, skew: int, config: SplitConfig)

  function SourceOf(input: Inputs): Source {
    Source(input.observations, Channels(input.observations), input.skew)
  }

  function PlanOf(input: Inputs, splits: Assignment): Plan {
    Plan(splits, input.interval, Row(SourceOf(input)))
  }

  lemma SpansAreLaid(os: seq<Observation>, p: Plan)
    requires p.interval > 0 && forall e | e in EpisodeIds(os) :: e in p.splits
    ensures AllLaid(p, Spans(os))
  {
    KeysAreObserved(os);
    forall g | 0 <= g < |Spans(os)| ensures Laid(p, Spans(os)[g]) {
      var key := Keys(os)[g];
      assert key in Keys(os);
      SpanCoversGroup(os, key);
    }
  }

  /** b is what the accepted observations and the two event sources compile to. */
  ghost predicate IsBundle(input: Inputs, b: Bundle) {
    var os, p := input.observations, PlanOf(input, b.splits);
    && input.interval > 0
    && b.channels == Channels(os)
    && IsAssignment(EpisodeIds(os), input.config, EpisodeEnds(os), Ok(b.splits))
    && AllLaid(p, Spans(os))
    && b.steps == AllSteps(p, Spans(os))
    && b.actions == Rows(input.actions, b.splits)
    && b.outcomes == Rows(input.outcomes, b.splits)
    && b.transitions == AllTransitions(StepGroups(p, Spans(os)), RowLinker(b.actions, input.skew), RowLinker(b.outcomes, input.skew))
  }

  method ReadObservations(records: seq<Record>) returns (r: Result<seq<Observation>, ReadError>)
    ensures r == ObservationsOf(records)
  {
    var timed := Timed(records);
    if timed == [] { return Err(NoTimestamps); }
    if exists r | r in timed :: IdentityOf(r).None? { return Err(InvalidIdentity); }
    if exists r | r in timed :: EpisodeOf(r).None? { return Err(MissingEpisode); }
    var duplicate := FindDuplicateEvent(timed);
    if duplicate { return Err(DuplicateEventId); }
    return ObservationsOf(records);
  }

  method CompileV3(observations: seq<Record>, actions: seq<Record>, outcomes: seq<Record>, interval: int, skew: int,
                   config: SplitConfig) returns (r: Result<Bundle, CompileError>)
    requires interval > 0
    ensures match ObservationsOf(observations)
            case Err(error) => r == Err(Unreadable(error))
            case Ok(os) =>
              match r
              case Ok(b) => IsBundle(Inputs(os, actions, outcomes, interval, skew, config), b)
              case Err(error) => error.Unsplittable? && IsAssignment(EpisodeIds(os), config, EpisodeEnds(os), Err(error.split))
  {
    var read := ReadObservations(observations);
    if read.Err? { return Err(Unreadable(read.error)); }
    var os := read.value;
    var assignment := AssignSplits(EpisodeIds(os), config, EpisodeEnds(os));
    if assignment.Err? { return Err(Unsplittable(assignment.error)); }
    var splits := assignment.value;
    var input := Inputs(os, actions, outcomes, interval, skew, config);
    var source := SourceOf(input);
    var channelGroups := GroupRecords(ByChannel, os);
    var lanes := SortLanes(source, channelGroups);
    var p := PlanOf(input, splits);
    EveryEpisodeSplit(os, config, splits);
    SpansAreLaid(os, p);
    var steps, groups := CompileSteps(p, source, lanes, Spans(os));
    var actionRows := EventRows(actions, splits);
    var outcomeRows := EventRows(outcomes, splits);
    StepGroupsAreGrids(p, Spans(os));
    var transitions := LinkGroups(groups, Keys(os), actionRows, outcomeRows, skew);
    return Ok(Bundle(source.channels, splits, steps, actionRows, outcomeRows, transitions));
  }

  lemma EveryEpisodeSplit(os: seq<Observation>, config: SplitConfig, splits: Assignment)
    requires IsAssignment(EpisodeIds(os), config, EpisodeEnds(os), Ok(splits))
    ensures forall e | e in EpisodeIds(os) :: e in splits
  {
  }

  // ---------- What every bundle guarantees ----------

  /** Step i is numbered i, belongs to an observed (site, episode), lies between the first and
      the last observation of it, and carries the split of its episode. */
  lemma StepIsWellPlaced(input: Inputs, b: Bundle, i: nat) returns (g: nat, k: nat)
    requires IsBundle(input, b) && i < |b.steps|
    ensures g < |Keys(input.observations)| && Keys(input.observations)[g] == (b.steps[i].site, b.steps[i].episode)
    ensures b.steps[i].number == i
    ensures b.steps[i].at == Spans(input.observations)[g].start + k * input.interval <= Spans(input.observations)[g].end
    ensures b.steps[i].episode in b.splits && b.steps[i].split == b.splits[b.steps[i].episode]
    ensures b.steps[i].values == RowValues(SourceOf(input), Keys(input.observations)[g], b.steps[i].at)
    ensures |b.steps[i].mask| == |b.steps[i].values| == |b.channels|
    ensures forall c | 0 <= c < |b.channels| :: b.steps[i].mask[c] == b.steps[i].values[c].Some?
  {
    var p := PlanOf(input, b.splits);
    g, k := LocateStep(p, Spans(input.observations), i);
    assert Laid(p, Spans(input.observations)[g]);
  }

  /** Every observed (site, episode) has all points of its grid as consecutive steps. */
  lemma GridIsComplete(input: Inputs, b: Bundle, g: nat, k: nat) returns (i: nat)
    requires IsBundle(input, b) && g < |Keys(input.observations)|
    requires Spans(input.observations)[g].start + k * input.interval <= Spans(input.observations)[g].end
    ensures i < |b.steps| && (b.steps[i].site, b.steps[i].episode) == Keys(input.observations)[g]
    ensures b.steps[i].at == Spans(input.observations)[g].start + k * input.interval
    ensures k <= i && (b.steps[i - k].site, b.steps[i - k].episode) == Keys(input.observations)[g] && b.steps[i - k].at == Spans(input.observations)[g].start
  {
    var p, spans := PlanOf(input, b.splits), Spans(input.observations);
    GridBound(p, spans[g], 0);
    assert Laid(p, spans[g]);
    var first := GridPoint(p, spans, b.steps, g, 0);
    i := GridPoint(p, spans, b.steps, g, k);
  }

  /** A value in a step was observed, on the channel of that column, in the same episode, within
      the skew of the step and with no closer observation. */
  lemma ValueIsNearestObservation(input: Inputs, b: Bundle, i: nat, c: nat) returns (o: Observation)
    requires IsBundle(input, b) && i < |b.steps| && c < |b.channels|
    requires |b.steps[i].mask| == |b.channels| && b.steps[i].mask[c]
    ensures c < |b.steps[i].values| && b.steps[i].values[c] == o.value
    ensures IsNearestOf(SourceOf(input), b.channels[c], b.steps[i].episode, b.steps[i].at, o)
  {
    var g, k := StepIsWellPlaced(input, b, i);
    var source, key := SourceOf(input), (b.steps[i].site, b.steps[i].episode);
    CellComesFromNearest(source, b.channels[c], key, b.steps[i].at);
    o :| IsNearestOf(source, b.channels[c], key.1, b.steps[i].at, o) &&
         ValueAt(source, b.channels[c], key, b.steps[i].at) == o.value;
  }

  /** That observation is of the step's own site exactly when its site name is clean, and the name of the
      column reads back to it exactly when its entity name is too. */
  lemma ValueIsOwnSiteIff(input: Inputs, b: Bundle, i: nat, c: nat)
    requires IsBundle(input, b) && i < |b.steps| && c < |b.channels|
    requires |b.steps[i].mask| == |b.channels| && b.steps[i].mask[c]
    ensures forall o | IsNearestOf(SourceOf(input), b.channels[c], b.steps[i].episode, b.steps[i].at, o) ::
              && (o.id.site == b.steps[i].site <==> Clean(o.id.site))
              && (SplitChannel(b.channels[c]) == Some(o.id) <==> Clean(o.id.site) && Clean(o.id.entity))
  {
    var g, k := StepIsWellPlaced(input, b, i);
    forall o | IsNearestOf(SourceOf(input), b.channels[c], b.steps[i].episode, b.steps[i].at, o)
      ensures o.id.site == b.steps[i].site <==> Clean(o.id.site)
      ensures SplitChannel(b.channels[c]) == Some(o.id) <==> Clean(o.id.site) && Clean(o.id.entity)
    {
      CellIsOwnSite(SourceOf(input), b.channels[c], (b.steps[i].site, b.steps[i].episode), b.steps[i].at, o);
    }
  }

  // ---------- Values that cross sites ----------

  /** Inputs whose episodes can be split have a bundle. */
  lemma BundleExists(input: Inputs, splits: Assignment) returns (b: Bundle)
    requires input.interval > 0
    requires IsAssignment(EpisodeIds(input.observations), input.config, EpisodeEnds(input.observations), Ok(splits))
    ensures IsBundle(input, b)
  {
    var os, p := input.observations, PlanOf(input, splits);
    EveryEpisodeSplit(os, input.config, splits);
    SpansAreLaid(os, p);
    var actions, outcomes := Rows(input.actions, splits), Rows(input.outcomes, splits);
    b := Bundle(Channels(os), splits, AllSteps(p, Spans(os)), actions, outcomes,
                AllTransitions(StepGroups(p, Spans(os)), RowLinker(actions, input.skew), RowLinker(outcomes, input.skew)));
  }

  lemma NamesAreObserved(os: seq<Observation>)
    ensures forall e :: e in EpisodeIds(os) <==> exists o :: o in os && o.episode == e
    ensures forall c :: c in Channels(os) <==> exists o :: o in os && ChannelName(o.id) == c
  {
    var episodes := seq(|os|, i requires 0 <= i < |os| => os[i].episode);
    var channels := seq(|os|, i requires 0 <= i < |os| => ChannelName(os[i].id));
    LessIsStrictOrder();
    SortDistinctSorts(episodes, Less);
    SortDistinctSorts(channels, Less);
    forall o | o in os
      ensures o.episode in episodes && ChannelName(o.id) in channels
    {
      var i :| 0 <= i < |os| && os[i] == o;
      assert episodes[i] == o.episode && channels[i] == ChannelName(o.id);
    }
  }

  /** One observation of site `a`, and one of a site whose name begins with `a::`. */
  ghost predicate Neighbours(own: Observation, foreign: Observation, a: string, rest: string) {
    && Clean(a) && own.id.site == a && foreign.id.site == a + SEPARATOR + rest
    && own.episode == foreign.episode && ChannelName(own.id) != ChannelName(foreign.id)
  }

  lemma OwnGroup(own: Observation, foreign: Observation, a: string, rest: string)
    requires Neighbours(own, foreign, a, rest)
    ensures Select(BySite, [own, foreign], (a, own.episode)) == [own]
  {
    assert |foreign.id.site| > |a|;
    SelectOfTwo(BySite, own, foreign, (a, own.episode));
  }

  lemma ForeignLane(p: Source, own: Observation, foreign: Observation)
    requires p.observations == [own, foreign] && ChannelName(own.id) != ChannelName(foreign.id)
    ensures Lane(p, ChannelName(foreign.id), foreign.episode) == [foreign]
  {
    SelectOfTwo(ByChannel, own, foreign, (ChannelName(foreign.id), foreign.episode));
    SortOfOne(foreign);
  }

  /** The first step of an observed (site, episode) is at its first observation. */
  lemma FirstStep(input: Inputs, b: Bundle, key: Key) returns (i: nat)
    requires IsBundle(input, b) && Select(BySite, input.observations, key) != []
    ensures i < |b.steps| && (b.steps[i].site, b.steps[i].episode) == key
    ensures b.steps[i].at == SpanOf(input.observations, key).start
    ensures b.steps[i].values == RowValues(SourceOf(input), key, b.steps[i].at)
  {
    KeysAreObserved(input.observations);
    var g: nat :| g < |Keys(input.observations)| && Keys(input.observations)[g] == key;
    SpanCoversGroup(input.observations, key);
    i := GridIsComplete(input, b, g, 0);
    var _, _ := StepIsWellPlaced(input, b, i);
  }

  /** In every bundle compiled from them, the step of site `a` at its own observation holds the other site's
      value, if that was taken within the skew. */
  lemma ValuesCrossSites(input: Inputs, b: Bundle, own: Observation, foreign: Observation, a: string, rest: string)
    returns (i: nat, c: nat)
    requires IsBundle(input, b) && input.observations == [own, foreign] && Neighbours(own, foreign, a, rest)
    requires Distance(foreign.at, own.at) <= input.skew
    ensures i < |b.steps| && c < |b.channels| == |b.steps[i].values|
    ensures b.steps[i].site == a && b.channels[c] == ChannelName(foreign.id) && b.steps[i].values[c] == foreign.value
  {
    var source := SourceOf(input);
    OwnGroup(own, foreign, a, rest);
    i := FirstStep(input, b, (a, own.episode));
    ForeignLane(source, own, foreign);
    CellCanCrossSites(source, foreign, a, rest, own.at);
    c := ChannelIsListed(input.observations, foreign);
  }

  lemma ChannelIsListed(os: seq<Observation>, o: Observation) returns (c: nat)
    requires o in os
    ensures c < |Channels(os)| && Channels(os)[c] == ChannelName(o.id)
  {
    var name := ChannelName(o.id);
    NamesAreObserved(os);
    assert name in Channels(os);
    c :| c < |Channels(os)| && Channels(os)[c] == name;
  }

  /** One episode can be assigned explicitly. */
  lemma OneEpisodeSplits(os: seq<Observation>, e: string, ends: map<string, int>)
    requires os != [] && forall o | o in os :: o.episode == e
    ensures IsAssignment(EpisodeIds(os), Explicit(Some(map[e := "train"])), ends, Ok(map[e := Train]))
  {
    NamesAreObserved(os);
    var ids := EpisodeIds(os);
    assert os[0] in os;
    assert e in ids && forall x | x in ids :: x == e;
    assert (set x | x in ids) == {e};
  }

  /** And there is such a bundle for every such pair, interval and skew. */
  lemma CrossingBundle(own: Observation, foreign: Observation, a: string, rest: string, interval: int, skew: int)
    returns (input: Inputs, b: Bundle, i: nat, c: nat)
    requires Neighbours(own, foreign, a, rest) && interval > 0 && Distance(foreign.at, own.at) <= skew
    ensures input.observations == [own, foreign] && input.interval == interval && input.skew == skew
    ensures IsBundle(input, b) && i < |b.steps| && c < |b.channels| == |b.steps[i].values|
    ensures b.steps[i].site == a && b.channels[c] == ChannelName(foreign.id) && b.steps[i].values[c] == foreign.value
  {
    var os, e := [own, foreign], own.episode;
    input := Inputs(os, [], [], interval, skew, Explicit(Some(map[e := "train"])));
    OneEpisodeSplits(os, e, EpisodeEnds(os));
    b := BundleExists(input, map[e := Train]);
    i, c := ValuesCrossSites(input, b, own, foreign, a, rest);
  }

  /** The number of transitions is the number of steps minus the number of (site, episode) groups. */
  lemma BundleTransitionCount(input: Inputs, b: Bundle)
    requires IsBundle(input, b)
    ensures |b.transitions| == |b.steps| - |Keys(input.observations)|
    ensures NoDuplicates(Keys(input.observations))
  {
    var p := PlanOf(input, b.splits);
    TransitionCount(p, Spans(input.observations), RowLinker(b.actions, input.skew), RowLinker(b.outcomes, input.skew));
    KeysAreObserved(input.observations);
  }

  /** Under temporal splits nothing in a partition is later than the partition's boundary:
      neither a step nor the step a transition leads to. */
  lemma TemporalSplitsDoNotLeak(input: Inputs, b: Bundle)
    requires IsBundle(input, b) && input.config.Temporal?
    ensures forall i | 0 <= i < |b.steps| ::
              && (b.steps[i].split == Train ==> b.steps[i].at <= input.config.trainEnd.value)
              && (b.steps[i].split == Validation ==> b.steps[i].at <= input.config.validationEnd.value)
    ensures forall j | 0 <= j < |b.transitions| ::
              && (b.transitions[j].split == Train ==> b.transitions[j].nextAt <= input.config.trainEnd.value)
              && (b.transitions[j].split == Validation ==> b.transitions[j].nextAt <= input.config.validationEnd.value)
  {
    forall i | 0 <= i < |b.steps|
      ensures b.steps[i].split == Train ==> b.steps[i].at <= input.config.trainEnd.value
      ensures b.steps[i].split == Validation ==> b.steps[i].at <= input.config.validationEnd.value
    {
      StepWithinBoundary(input, b, i);
    }
    var p := PlanOf(input, b.splits);
    forall j | 0 <= j < |b.transitions|
      ensures b.transitions[j].split == Train ==> b.transitions[j].nextAt <= input.config.trainEnd.value
      ensures b.transitions[j].split == Validation ==> b.transitions[j].nextAt <= input.config.validationEnd.value
    {
      TransitionJoinsNeighbours(p, Spans(input.observations), RowLinker(b.actions, input.skew), RowLinker(b.outcomes, input.skew), j);
      assert b.steps[b.transitions[j].nextStep].split == b.transitions[j].split;
    }
  }

  lemma StepWithinBoundary(input: Inputs, b: Bundle, i: nat)
    requires IsBundle(input, b) && input.config.Temporal? && i < |b.steps|
    ensures b.steps[i].split == Train ==> b.steps[i].at <= input.config.trainEnd.value
    ensures b.steps[i].split == Validation ==> b.steps[i].at <= input.config.validationEnd.value
  {
    var g, k := StepIsWellPlaced(input, b, i);
    KeysAreObserved(input.observations);
    var key := Keys(input.observations)[g];
    assert key in Keys(input.observations);
    SpanCoversGroup(input.observations, key);
    assert Spans(input.observations)[g] == SpanOf(input.observations, key);
    TemporalFollowsTime(EpisodeIds(input.observations), input.config, EpisodeEnds(input.observations), b.splits);
    assert EpisodeEnds(input.observations)[key.1] == EpisodeEnd(input.observations, key.1);
    assert b.steps[i].at <= EpisodeEnds(input.observations)[key.1];
  }

  /** Each episode has one split, whichever step, site or transition it is read from. */
  lemma OneSplitPerEpisode(input: Inputs, b: Bundle)
    requires IsBundle(input, b)
    ensures forall i | 0 <= i < |b.steps| ::
              b.steps[i].episode in b.splits && b.steps[i].split == b.splits[b.steps[i].episode]
    ensures forall j | 0 <= j < |b.transitions| ::
              && b.transitions[j].nextStep < |b.steps| && b.transitions[j].episode in b.splits
              && b.transitions[j].split == b.splits[b.transitions[j].episode] == b.steps[b.transitions[j].nextStep].split
  {
    forall i | 0 <= i < |b.steps|
      ensures b.steps[i].episode in b.splits && b.steps[i].split == b.splits[b.steps[i].episode]
    {
      var _, _ := StepIsWellPlaced(input, b, i);
    }
    var p := PlanOf(input, b.splits);
    forall j | 0 <= j < |b.transitions|
      ensures b.transitions[j].nextStep < |b.steps| && b.transitions[j].episode in b.splits
      ensures b.transitions[j].split == b.splits[b.transitions[j].episode] == b.steps[b.transitions[j].nextStep].split
    {
      TransitionJoinsNeighbours(p, Spans(input.observations), RowLinker(b.actions, input.skew), RowLinker(b.outcomes, input.skew), j);
    }
  }

  /** Under hash splits, adding, removing or reordering other episodes' observations leaves an
      episode's split as it was. */
  lemma HashSplitsAreStable(os: seq<Observation>, os': seq<Observation>, config: SplitConfig, m: Assignment, n: Assignment, episode: string)
    requires config.EpisodeHash?
    requires IsAssignment(EpisodeIds(os), config, EpisodeEnds(os), Ok(m))
    requires IsAssignment(EpisodeIds(os'), config, EpisodeEnds(os'), Ok(n))
    requires episode in EpisodeIds(os) && episode in EpisodeIds(os')
    ensures m[episode] == n[episode]
  {
    HashIgnoresOtherEpisodes(EpisodeIds(os), EpisodeIds(os'), config, EpisodeEnds(os), EpisodeEnds(os'), m, n, episode);
  }
}
