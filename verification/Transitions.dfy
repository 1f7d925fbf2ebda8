/** Actions and outcomes linked to neighbouring steps of the same (site, episode). */
module Transitions {
  import opened Common
  import opened Text
  import opened Records
  import opened Splits
  import opened Alignment
  import opened Observations
  import opened StepGrid
  import opened Flattening

  /** An action or outcome as it is written out. Keys of the record win over computed ones, so
      site and episode are the raw fields when those are present. */
  datatype EventRow = EventRow(at: int, site: string, episode: string, split: Option<Split>, record: Record)

  /** None when the record has no timestamp, site or episode. */
  function RowOf(r: Record, splits: Assignment): Option<EventRow> {
    var site := Strip(FieldText(r.siteId, ""));
    var episode := EpisodeOf(r);
    if r.at.None? || site == "" || episode.None? then None
    else Some(EventRow(r.at.value, FieldText(r.siteId, site), FieldText(r.episodeId, episode.value),
                       if episode.value in splits then Some(splits[episode.value]) else None, r))
  }

  function Rows(records: seq<Record>, splits: Assignment): seq<EventRow> {
    if records == [] then []
    else
      var row := RowOf(records[|records| - 1], splits);
      Rows(records[..|records| - 1], splits) + (if row.Some? then [row.value] else [])
  }

  method EventRows(records: seq<Record>, splits: Assignment) returns (rows: seq<EventRow>)
    ensures rows == Rows(records, splits)
  {
    rows := [];
    for i := 0 to |records|
      invariant rows == Rows(records[..i], splits)
    {
      assert records[..i + 1][..i] == records[..i];
      var row := RowOf(records[i], splits);
      if row.Some? { rows := rows + [row.value]; }
    }
    assert records[..|records|] == records;
  }

  function RowsFor(rows: seq<EventRow>, site: string, episode: string): seq<EventRow> {
    if rows == [] then []
    else
      var last := rows[|rows| - 1];
      RowsFor(rows[..|rows| - 1], site, episode) +
      (if last.site == site && last.episode == episode then [last] else [])
  }

  lemma {:induction false} RowsForElements(rows: seq<EventRow>, site: string, episode: string)
    ensures forall row :: row in RowsFor(rows, site, episode) <==>
              row in rows && row.site == site && row.episode == episode
  {
    if rows != [] {
      var n := |rows| - 1;
      RowsForElements(rows[..n], site, episode);
      assert rows == rows[..n] + [rows[n]];
    }
  }

  /** A row carries its record's own site and episode text, while its split was found by the stripped site
      and the resolved episode. It is among the rows of a group, whose names are stripped, exactly when the
      group is the one of its split, its site text has no blanks around it, and its episode text, if there is
      one, is the resolved episode. */
  lemma {:induction false} RowIsOfGroupIff(r: Record, splits: Assignment, site: string, episode: string)
    requires RowOf(r, splits).Some? && Strip(site) == site && Strip(episode) == episode != ""
    ensures var row := RowOf(r, splits).value;
            row in RowsFor([row], site, episode)
            <==> && site == Strip(r.siteId.value) && episode == EpisodeOf(r).value
                 && r.siteId == Some(site) && (r.episodeId.None? || r.episodeId == Some(episode))
  {
    var row := RowOf(r, splits).value;
    RowsForElements([row], site, episode);
  }

  /** So an event that names its episode by context and has a blank episode text gets the split of that
      episode but is lost to every group. */
  lemma {:induction false} BlankEpisodeIsLost(r: Record, splits: Assignment, site: string, episode: string)
    requires RowOf(r, splits).Some? && r.episodeId.Some? && Strip(r.episodeId.value) == ""
    requires Strip(site) == site && Strip(episode) == episode != ""
    ensures var row := RowOf(r, splits).value;
            && row !in RowsFor([row], site, episode)
            && row.split == (if EpisodeOf(r).value in splits then Some(splits[EpisodeOf(r).value]) else None)
  {
    RowIsOfGroupIff(r, splits, site, episode);
  }

  function RowTimes(rows: seq<EventRow>): seq<int> {
    seq(|rows|, i requires 0 <= i < |rows| => rows[i].at)
  }

  /** The row linked to a step, in the order the source lists them: never sorted. */
  function LinkedRow(rows: seq<EventRow>, at: int, skew: int): Option<EventRow> {
    match Lookup(RowTimes(rows), at, skew)
    case None => None
    case Some(i) => if i < |rows| then Some(rows[i]) else assert false; None
  }

  /** The linked row is a nearest one, and missing only when none is within the skew. */
  ghost predicate LinksNearest(rows: seq<EventRow>, at: int, skew: int) {
    match LinkedRow(rows, at, skew)
    case None => forall k | 0 <= k < |rows| :: Distance(rows[k].at, at) > skew
    case Some(linked) => forall k | 0 <= k < |rows| :: Distance(linked.at, at) <= Distance(rows[k].at, at)
  }

  lemma LinksNearestIffFound(rows: seq<EventRow>, at: int, skew: int)
    ensures LinksNearest(rows, at, skew) <==> FindsNearest(RowTimes(rows), at, skew)
  {
    var ts := RowTimes(rows);
    LookupWithinSkew(ts, at, skew);
    assert forall k | 0 <= k < |rows| :: ts[k] == rows[k].at;
  }

  /** A linked row is always a listed one within the skew, and a nearest one if the source lists the
      rows in time order. */
  lemma LinkedRowIsNear(rows: seq<EventRow>, at: int, skew: int)
    ensures LinkedRow(rows, at, skew).Some? ==>
              LinkedRow(rows, at, skew).value in rows && Distance(LinkedRow(rows, at, skew).value.at, at) <= skew
    ensures Ascending(RowTimes(rows)) ==> LinksNearest(rows, at, skew)
  {
    LookupWithinSkew(RowTimes(rows), at, skew);
    if Ascending(RowTimes(rows)) {
      LookupIsNearest(RowTimes(rows), at, skew);
      LinksNearestIffFound(rows, at, skew);
    }
  }

  /** Rows at distinct times are linked rightly at every time and skew exactly when the source lists them
      in time order. */
  lemma LinkedRightIffInOrder(rows: seq<EventRow>)
    requires PairwiseDistinct(RowTimes(rows))
    ensures (forall at, skew :: LinksNearest(rows, at, skew)) <==> Ascending(RowTimes(rows))
  {
    var ts := RowTimes(rows);
    NearestFoundIffAscending(ts);
    forall at, skew ensures LinksNearest(rows, at, skew) <==> FindsNearest(ts, at, skew) {
      LinksNearestIffFound(rows, at, skew);
    }
    if forall at, skew :: LinksNearest(rows, at, skew) {
      forall at, skew ensures FindsNearest(ts, at, skew) { assert LinksNearest(rows, at, skew); }
    }
  }

  /** What a bundle links to a step is a row of that site and episode within the skew. */
  lemma LinkerStaysHome(rows: seq<EventRow>, skew: int, key: Key, at: int)
    ensures var linked := RowLinker(rows, skew)(key, at);
            linked.Some? ==> linked.value in rows && (linked.value.site, linked.value.episode) == key
                             && Distance(linked.value.at, at) <= skew
  {
    LinkedRowIsNear(RowsFor(rows, key.0, key.1), at, skew);
    RowsForElements(rows, key.0, key.1);
  }

  /** The action and outcome ids, the reward and the terminal flag are read off the linked rows. */
  datatype Transition = Transition(
    step: nat, nextStep: nat, at: int, nextAt: int, site: string, episode: string, split: Split,
    action: Option<EventRow>, outcome: Option<EventRow>,
    values: seq<Option<real>>, nextValues: seq<Option<real>>, mask: seq<bool>, nextMask: seq<bool>)

  /** The row linked to a step of a (site, episode) at a time. */
  type Linker = (Key, int) -> Option<EventRow>

  function RowLinker(rows: seq<EventRow>, skew: int): Linker {
    (key: Key, at) => LinkedRow(RowsFor(rows, key.0, key.1), at, skew)
  }

  function Link(s: Step, t: Step, action: Linker, outcome: Linker): Transition {
    Transition(s.number, t.number, s.at, t.at, s.site, s.episode, s.split,
               action((s.site, s.episode), s.at), outcome((s.site, s.episode), s.at),
               s.values, t.values, s.mask, t.mask)
  }

  function LinkPairs(pairs: seq<(Step, Step)>, action: Linker, outcome: Linker): seq<Transition> {
    seq(|pairs|, j requires 0 <= j < |pairs| => Link(pairs[j].0, pairs[j].1, action, outcome))
  }

  function AllTransitions(groups: seq<seq<Step>>, action: Linker, outcome: Linker): seq<Transition> {
    LinkPairs(GroupPairs(groups), action, outcome)
  }

  predicate OneEpisode(steps: seq<Step>, site: string, episode: string) {
    forall k | 0 <= k < |steps| :: steps[k].site == site && steps[k].episode == episode
  }

  /** The loop over the steps of one group but the last. */
  method LinkGroup(steps: seq<Step>, key: Key, actions: seq<EventRow>, outcomes: seq<EventRow>, skew: int)
    returns (transitions: seq<Transition>)
    requires OneEpisode(steps, key.0, key.1)
    ensures transitions == LinkPairs(Pairs(steps), RowLinker(actions, skew), RowLinker(outcomes, skew))
  {
    transitions := [];
    PairsAt(steps);
    var episodeActions, episodeOutcomes := RowsFor(actions, key.0, key.1), RowsFor(outcomes, key.0, key.1);
    ghost var all := LinkPairs(Pairs(steps), RowLinker(actions, skew), RowLinker(outcomes, skew));
    for k := 0 to Max(0, |steps| - 1)
      invariant transitions == all[..k]
    {
      var current, next := steps[k], steps[k + 1];
      var action := LinkedRow(episodeActions, current.at, skew);
      var outcome := LinkedRow(episodeOutcomes, current.at, skew);
      var transition := Transition(current.number, next.number, current.at, next.at, key.0, key.1, current.split,
                                   action, outcome, current.values, next.values, current.mask, next.mask);
      assert transition == Link(current, next, RowLinker(actions, skew), RowLinker(outcomes, skew)) == all[k];
      transitions := transitions + [transition];
    }
  }

  method LinkGroups(groups: seq<seq<Step>>, keys: seq<Key>, actions: seq<EventRow>, outcomes: seq<EventRow>, skew: int)
    returns (transitions: seq<Transition>)
    requires |groups| == |keys| && forall g | 0 <= g < |groups| :: OneEpisode(groups[g], keys[g].0, keys[g].1)
    ensures transitions == AllTransitions(groups, RowLinker(actions, skew), RowLinker(outcomes, skew))
  {
    ghost var action, outcome := RowLinker(actions, skew), RowLinker(outcomes, skew);
    transitions := [];
    for g := 0 to |groups|
      invariant transitions == AllTransitions(groups[..g], action, outcome)
    {
      var added := LinkGroup(groups[g], keys[g], actions, outcomes, skew);
      LinkAppend(groups, g, action, outcome);
      transitions := transitions + added;
    }
    assert groups[..|groups|] == groups;
  }

  lemma LinkAppend(groups: seq<seq<Step>>, g: nat, action: Linker, outcome: Linker)
    requires g < |groups|
    ensures AllTransitions(groups[..g + 1], action, outcome) ==
            AllTransitions(groups[..g], action, outcome) + LinkPairs(Pairs(groups[g]), action, outcome)
  {
    assert groups[..g + 1][..g] == groups[..g];
  }

  // ---------- What the transitions guarantee ----------

  lemma {:induction false} StepGroupsAreGrids(p: Plan, spans: seq<Span>)
    requires AllLaid(p, spans)
    ensures |StepGroups(p, spans)| == |spans|
    ensures forall g | 0 <= g < |spans| ::
              && StepGroups(p, spans)[g] != []
              && OneEpisode(StepGroups(p, spans)[g], spans[g].site, spans[g].episode)
  {
    if spans != [] { StepGroupAt(p, spans, 0); }
    forall g | 0 <= g < |spans|
      ensures StepGroups(p, spans)[g] != []
      ensures OneEpisode(StepGroups(p, spans)[g], spans[g].site, spans[g].episode)
    {
      StepGroupAt(p, spans, g);
    }
  }

  ghost predicate NoneEmpty(groups: seq<seq<Step>>) {
    forall g | 0 <= g < |groups| :: groups[g] != []
  }

  lemma {:induction false} GridsAreNotEmpty(p: Plan, spans: seq<Span>)
    requires AllLaid(p, spans)
    ensures NoneEmpty(StepGroups(p, spans))
  {
    StepGroupsAreGrids(p, spans);
  }

  /** A pair of a group is a pair of neighbours in the concatenation. */
  lemma LocateFlatPair(groups: seq<seq<Step>>, j: nat) returns (g: nat, k: nat)
    requires j < |GroupPairs(groups)| && NoneEmpty(groups)
    ensures g < |groups| && k + 1 < |groups[g]| && j + g == Offset(groups, g) + k
    ensures j + g + 1 < |Flatten(groups)| && GroupPairs(groups)[j] == (Flatten(groups)[j + g], Flatten(groups)[j + g + 1])
  {
    g, k := LocatePair(groups, j);
    ElementAt(groups, g, k);
    ElementAt(groups, g, k + 1);
  }

  lemma {:induction false} SizeOfGroup(p: Plan, spans: seq<Span>, g: nat)
    requires AllLaid(p, spans)
    ensures |StepGroups(p, spans)| == |spans|
    ensures g < |spans| ==> |StepGroups(p, spans)[g]| == GridSize(p, spans[g])
  {
    if spans != [] { StepGroupAt(p, spans, 0); }
    if g < |spans| { StepGroupAt(p, spans, g); }
  }

  /** Pair j of the grid joins grid points k and k + 1 of one group g, which are the steps at
      positions j + g and j + g + 1. */
  lemma LocateStepPair(p: Plan, spans: seq<Span>, groups: seq<seq<Step>>, steps: seq<Step>, j: nat) returns (g: nat, k: nat)
    requires AllLaid(p, spans) && groups == StepGroups(p, spans) && steps == AllSteps(p, spans) && j < |GroupPairs(groups)|
    ensures g < |spans| == |groups| && k + 1 < GridSize(p, spans[g]) && j + g + 1 < |steps|
    ensures j + g == Offset(groups, g) + k && GroupPairs(groups)[j] == (steps[j + g], steps[j + g + 1])
    ensures steps[j + g] == StepAt(p, spans[g], j + g, GridTime(p, spans[g], k))
    ensures steps[j + g + 1] == StepAt(p, spans[g], j + g + 1, GridTime(p, spans[g], k + 1))
  {
    GridsAreNotEmpty(p, spans);
    SizeOfGroup(p, spans, 0);
    g, k := LocateFlatPair(groups, j);
    SizeOfGroup(p, spans, g);
    GroupOccupiesGrid(p, spans, g, k);
    GroupOccupiesGrid(p, spans, g, k + 1);
  }

  lemma {:induction false} TransitionAt(groups: seq<seq<Step>>, action: Linker, outcome: Linker, j: nat)
    requires j < |GroupPairs(groups)|
    ensures var pair := GroupPairs(groups)[j];
            AllTransitions(groups, action, outcome)[j] == Link(pair.0, pair.1, action, outcome)
  {
  }

  /** A transition joins two consecutive steps of one site, episode and split, exactly one
      interval apart, and carries their times, values, masks and linked rows. */
  lemma {:induction false} TransitionJoinsNeighbours(p: Plan, spans: seq<Span>, action: Linker, outcome: Linker, j: nat)
    requires AllLaid(p, spans) && j < |AllTransitions(StepGroups(p, spans), action, outcome)|
    ensures var t := AllTransitions(StepGroups(p, spans), action, outcome)[j];
            && t.nextStep == t.step + 1 < |AllSteps(p, spans)|
            && var s, s' := AllSteps(p, spans)[t.step], AllSteps(p, spans)[t.nextStep];
            && s.site == s'.site == t.site && s.episode == s'.episode == t.episode && s.split == s'.split == t.split
            && s.at == t.at && s'.at == t.nextAt == t.at + p.interval
            && s.values == t.values && s'.values == t.nextValues && s.mask == t.mask && s'.mask == t.nextMask
            && t.action == action((s.site, s.episode), s.at)
            && t.outcome == outcome((s.site, s.episode), s.at)
  {
    var g, k := LocateStepPair(p, spans, StepGroups(p, spans), AllSteps(p, spans), j);
    TransitionAt(StepGroups(p, spans), action, outcome, j);
    GridBound(p, spans[g], k);
  }

  lemma LocateTransition(p: Plan, spans: seq<Span>, action: Linker, outcome: Linker, j: nat) returns (g: nat, k: nat)
    requires AllLaid(p, spans) && j < |AllTransitions(StepGroups(p, spans), action, outcome)|
    ensures g < |spans| && |StepGroups(p, spans)| == |spans| && k + 1 < |StepGroups(p, spans)[g]|
    ensures j + g == Offset(StepGroups(p, spans), g) + k
    ensures AllTransitions(StepGroups(p, spans), action, outcome)[j].step == j + g
  {
    g, k := LocateStepPair(p, spans, StepGroups(p, spans), AllSteps(p, spans), j);
    StepGroupAt(p, spans, g);
  }

  /** No two transitions leave the same step, and they are listed in step order. */
  lemma {:induction false} TransitionsAreOrdered(p: Plan, spans: seq<Span>, action: Linker, outcome: Linker, i: nat, j: nat)
    requires AllLaid(p, spans) && i < j < |AllTransitions(StepGroups(p, spans), action, outcome)|
    ensures AllTransitions(StepGroups(p, spans), action, outcome)[i].step
              < AllTransitions(StepGroups(p, spans), action, outcome)[j].step
  {
    var g, k := LocateTransition(p, spans, action, outcome, i);
    var h, l := LocateTransition(p, spans, action, outcome, j);
    assert forall x | 0 <= x < |spans| :: StepGroups(p, spans)[x] != [] by { StepGroupsAreGrids(p, spans); }
    PairsAreOrdered(StepGroups(p, spans), i, g, k, j, h, l);
  }

  /** Consecutive steps of one (site, episode) lie in one group, provided no (site, episode) is
      laid out twice. */
  lemma NeighboursShareGroup(p: Plan, spans: seq<Span>, i: nat) returns (g: nat, k: nat)
    requires AllLaid(p, spans) && i + 1 < |AllSteps(p, spans)|
    requires forall g, h | 0 <= g < h < |spans| :: spans[g].site != spans[h].site || spans[g].episode != spans[h].episode
    requires AllSteps(p, spans)[i].site == AllSteps(p, spans)[i + 1].site
    requires AllSteps(p, spans)[i].episode == AllSteps(p, spans)[i + 1].episode
    ensures |StepGroups(p, spans)| == |spans| && g < |spans| && i == Offset(StepGroups(p, spans), g) + k
    ensures k + 1 < |StepGroups(p, spans)[g]| && StepGroups(p, spans)[g][k] == AllSteps(p, spans)[i]
  {
    var h, l;
    g, k := LocateStep(p, spans, i);
    h, l := LocateStep(p, spans, i + 1);
    assert g == h;
    StepGroupAt(p, spans, g);
  }

  lemma PairInGroup(groups: seq<seq<Step>>, action: Linker, outcome: Linker, g: nat, k: nat) returns (j: nat)
    requires NoneEmpty(groups) && g < |groups| && k + 1 < |groups[g]|
    ensures j < |AllTransitions(groups, action, outcome)|
    ensures AllTransitions(groups, action, outcome)[j].step == groups[g][k].number
  {
    PairAt(groups, g, k);
    j := Offset(groups, g) + k - g;
    TransitionAt(groups, action, outcome, j);
  }

  /** Every two consecutive steps of one (site, episode) are joined by a transition. */
  lemma NeighboursAreJoined(p: Plan, spans: seq<Span>, action: Linker, outcome: Linker, i: nat) returns (j: nat)
    requires AllLaid(p, spans) && i + 1 < |AllSteps(p, spans)|
    requires forall g, h | 0 <= g < h < |spans| :: spans[g].site != spans[h].site || spans[g].episode != spans[h].episode
    requires AllSteps(p, spans)[i].site == AllSteps(p, spans)[i + 1].site
    requires AllSteps(p, spans)[i].episode == AllSteps(p, spans)[i + 1].episode
    ensures j < |AllTransitions(StepGroups(p, spans), action, outcome)|
    ensures AllTransitions(StepGroups(p, spans), action, outcome)[j].step == i
  {
    var g, k := NeighboursShareGroup(p, spans, i);
    GridsAreNotEmpty(p, spans);
    j := PairInGroup(StepGroups(p, spans), action, outcome, g, k);
    var _, _ := LocateStep(p, spans, i);
  }

  /** The number of transitions is the number of steps minus the number of groups. */
  lemma {:induction false} TransitionCount(p: Plan, spans: seq<Span>, action: Linker, outcome: Linker)
    requires AllLaid(p, spans)
    ensures |AllTransitions(StepGroups(p, spans), action, outcome)| == |AllSteps(p, spans)| - |spans|
  {
    StepGroupsAreGrids(p, spans);
    GroupPairCount(StepGroups(p, spans));
  }
}
