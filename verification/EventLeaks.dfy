/** Which actions and outcomes the transitions of a bundle carry, and how far those of a temporal partition
    can lie beyond its boundary. */
module EventLeaks {
  import opened Common
  import opened Text
  import opened Records
  import opened Splits
  import opened Alignment
  import opened Observations
  import opened Cells
  import opened StepGrid
  import opened Transitions
  import opened Bundle

  datatype Kind = Action | Outcome

  function EventOf(t: Transition, kind: Kind): Option<EventRow> {
    if kind == Action then t.action else t.outcome
  }

  function RowsOf(b: Bundle, kind: Kind): seq<EventRow> {
    if kind == Action then b.actions else b.outcomes
  }

  lemma JoinsNeighbours(input: Inputs, b: Bundle, j: nat)
    requires IsBundle(input, b) && j < |b.transitions|
    ensures var t := b.transitions[j];
            && t.nextStep == t.step + 1 < |b.steps| && b.steps[t.step].at == t.at && t.nextAt == t.at + input.interval
            && t.action == RowLinker(b.actions, input.skew)((t.site, t.episode), t.at)
            && t.outcome == RowLinker(b.outcomes, input.skew)((t.site, t.episode), t.at)
  {
    TransitionJoinsNeighbours(PlanOf(input, b.splits), Spans(input.observations), RowLinker(b.actions, input.skew),
                              RowLinker(b.outcomes, input.skew), j);
  }

  /** The action and the outcome of a transition are rows of its own site and episode, within the skew. */
  lemma EventsAreNear(input: Inputs, b: Bundle, j: nat, kind: Kind)
    requires IsBundle(input, b) && j < |b.transitions|
    ensures var t := b.transitions[j];
            EventOf(t, kind).Some? ==>
              var row := EventOf(t, kind).value;
              row in RowsOf(b, kind) && row.site == t.site && row.episode == t.episode && Distance(row.at, t.at) <= input.skew
  {
    var t := b.transitions[j];
    JoinsNeighbours(input, b, j);
    LinkerStaysHome(RowsOf(b, kind), input.skew, (t.site, t.episode), t.at);
  }

  // ---------- Beyond the boundary ----------

  /** The last time a partition may hold. */
  function Boundary(config: SplitConfig, split: Split): int
    requires config.Temporal? && config.trainEnd.Some? && config.validationEnd.Some? && split != Test
  {
    if split == Train then config.trainEnd.value else config.validationEnd.value
  }

  lemma BoundariesGiven(input: Inputs, b: Bundle)
    requires IsBundle(input, b) && input.config.Temporal?
    ensures input.config.trainEnd.Some? && input.config.validationEnd.Some?
  {
  }

  /** An event linked to a transition lies beyond the boundary of its partition by at most the skew less one
      interval, because the next step is still inside. */
  lemma EventsLeakAtMost(input: Inputs, b: Bundle, j: nat, kind: Kind)
    requires IsBundle(input, b) && input.config.Temporal? && j < |b.transitions| && b.transitions[j].split != Test
    ensures input.config.trainEnd.Some? && input.config.validationEnd.Some?
    ensures EventOf(b.transitions[j], kind).Some? ==>
              EventOf(b.transitions[j], kind).value.at
                <= Boundary(input.config, b.transitions[j].split) + input.skew - input.interval
  {
    BoundariesGiven(input, b);
    EventsAreNear(input, b, j, kind);
    TemporalSplitsDoNotLeak(input, b);
    JoinsNeighbours(input, b, j);
  }

  /** No event of this kind on transition j lies beyond the boundary of this partition. */
  ghost predicate Inside(input: Inputs, b: Bundle, j: nat, kind: Kind, split: Split)
    requires IsBundle(input, b) && input.config.Temporal? && j < |b.transitions| && split != Test
  {
    BoundariesGiven(input, b);
    b.transitions[j].split == split && EventOf(b.transitions[j], kind).Some? ==>
      EventOf(b.transitions[j], kind).value.at <= Boundary(input.config, split)
  }

  ghost predicate NeverLeaks(interval: int, skew: int, kind: Kind, split: Split)
    requires split != Test
  {
    forall input, b, j: nat | IsBundle(input, b) && input.config.Temporal? && j < |b.transitions|
                              && input.interval == interval && input.skew == skew ::
      Inside(input, b, j, kind, split)
  }

  // ---------- A bundle that leaks ----------

  const SITE := "s"
  const EPISODE := "e"

  function Seen(at: int): Observation { Observation(at, Identity(SITE, "m", "t"), EPISODE, None) }

  function EventAt(at: int): Record {
    Record(Some(at), Some(SITE), None, None, None, None, Some(EPISODE), None, None, None, None, None, None, None, false)
  }

  /** The boundaries between which the episode that ends at `end` falls into the partition, with `end` the
      boundary of the partition itself. */
  function ConfigFor(split: Split, end: int): SplitConfig {
    if split == Train then Temporal(Some(end), Some(end + 1)) else Temporal(Some(0), Some(end))
  }

  /** Two observations one interval apart, and one action and outcome a skew after the first. */
  function LeakingInput(interval: int, skew: int, split: Split): Inputs {
    Inputs([Seen(0), Seen(interval)], [EventAt(skew)], [EventAt(skew)], interval, skew, ConfigFor(split, interval))
  }

  lemma PlainNames()
    ensures Strip(SITE) == SITE && Strip(EPISODE) == EPISODE
  {
  }

  lemma {:induction false} EventRowOf(at: int, splits: Assignment)
    ensures exists split :: Rows([EventAt(at)], splits) == [EventRow(at, SITE, EPISODE, split, EventAt(at))]
  {
    PlainNames();
    assert [EventAt(at)][..0] == [];
    var split := if EPISODE in splits then Some(splits[EPISODE]) else None;
    assert Rows([EventAt(at)], splits) == [EventRow(at, SITE, EPISODE, split, EventAt(at))];
  }

  lemma TwoObservations(interval: int)
    requires interval > 0
    ensures var os := [Seen(0), Seen(interval)];
            && Select(BySite, os, (SITE, EPISODE)) == os && Select(ByEpisode, os, ("", EPISODE)) == os
            && SpanOf(os, (SITE, EPISODE)).start == 0 && SpanOf(os, (SITE, EPISODE)).end == interval
            && EpisodeEnd(os, EPISODE) == interval
  {
    SelectOfTwo(BySite, Seen(0), Seen(interval), (SITE, EPISODE));
    SelectOfTwo(ByEpisode, Seen(0), Seen(interval), ("", EPISODE));
    EndsOfTwo(Seen(0), Seen(interval));
  }

  lemma LeakingSplits(interval: int, skew: int, split: Split)
    requires interval > 0 && split != Test
    ensures var input := LeakingInput(interval, skew, split);
            IsAssignment(EpisodeIds(input.observations), input.config, EpisodeEnds(input.observations), Ok(map[EPISODE := split]))
  {
    var os := [Seen(0), Seen(interval)];
    var ids, ends := EpisodeIds(os), EpisodeEnds(os);
    NamesAreObserved(os);
    TwoObservations(interval);
    assert os[0] in os;
    assert EPISODE in ids && forall e | e in ids :: e == EPISODE;
    assert (set e | e in ids) == {EPISODE};
    assert ends[EPISODE] == interval;
  }

  lemma GroupOf(os: seq<Observation>, key: Key) returns (g: nat)
    requires Select(BySite, os, key) != []
    ensures g < |Keys(os)| == |Spans(os)| && Keys(os)[g] == key && Spans(os)[g] == SpanOf(os, key)
  {
    KeysAreObserved(os);
    g :| g < |Keys(os)| && Keys(os)[g] == key;
  }

  /** The first two steps of a group that covers an interval, and the transition between them. */
  lemma FirstTransition(input: Inputs, b: Bundle, key: Key) returns (j: nat)
    requires IsBundle(input, b) && Select(BySite, input.observations, key) != []
    requires SpanOf(input.observations, key).start + input.interval <= SpanOf(input.observations, key).end
    ensures j < |b.transitions| && (b.transitions[j].site, b.transitions[j].episode) == key
    ensures b.transitions[j].at == SpanOf(input.observations, key).start
  {
    var i := FirstPair(input, b, key);
    j := JoinedSteps(input, b, i);
  }

  lemma FirstPair(input: Inputs, b: Bundle, key: Key) returns (i: nat)
    requires IsBundle(input, b) && Select(BySite, input.observations, key) != []
    requires SpanOf(input.observations, key).start + input.interval <= SpanOf(input.observations, key).end
    ensures i + 1 < |b.steps| && b.steps[i].at == SpanOf(input.observations, key).start
    ensures (b.steps[i].site, b.steps[i].episode) == key && (b.steps[i + 1].site, b.steps[i + 1].episode) == key
  {
    var g := GroupOf(input.observations, key);
    i := SecondPoint(input, b, g, SpanOf(input.observations, key), key);
  }

  lemma SecondPoint(input: Inputs, b: Bundle, g: nat, span: Span, key: Key) returns (i: nat)
    requires IsBundle(input, b) && g < |Keys(input.observations)| && Keys(input.observations)[g] == key
    requires span == Spans(input.observations)[g] && span.start + input.interval <= span.end
    ensures i + 1 < |b.steps| && b.steps[i].at == span.start
    ensures (b.steps[i].site, b.steps[i].episode) == key && (b.steps[i + 1].site, b.steps[i + 1].episode) == key
  {
    var p, spans := PlanOf(input, b.splits), Spans(input.observations);
    GridBound(p, span, 0);
    i := GridPoint(p, spans, b.steps, g, 0);
    var next := GridPoint(p, spans, b.steps, g, 1);
  }

  lemma JoinedSteps(input: Inputs, b: Bundle, i: nat) returns (j: nat)
    requires IsBundle(input, b) && i + 1 < |b.steps|
    requires b.steps[i].site == b.steps[i + 1].site && b.steps[i].episode == b.steps[i + 1].episode
    ensures j < |b.transitions| && b.transitions[j].at == b.steps[i].at
    ensures b.transitions[j].site == b.steps[i].site && b.transitions[j].episode == b.steps[i].episode
  {
    KeysAreObserved(input.observations);
    var keys, spans := Keys(input.observations), Spans(input.observations);
    forall g, h | 0 <= g < h < |spans|
      ensures spans[g].site != spans[h].site || spans[g].episode != spans[h].episode
    {
      assert keys[g] != keys[h];
    }
    var p, action, outcome := PlanOf(input, b.splits), RowLinker(b.actions, input.skew), RowLinker(b.outcomes, input.skew);
    j := NeighboursAreJoined(p, spans, action, outcome, i);
    TransitionJoinsNeighbours(p, spans, action, outcome, j);
  }

  lemma OnlyRowIsLinked(row: EventRow, skew: int)
    requires row.at == skew >= 0
    ensures RowLinker([row], skew)((row.site, row.episode), 0) == Some(row)
  {
    assert [row][..0] == [];
    assert RowsFor([row], row.site, row.episode) == [row];
    assert RowTimes([row]) == [skew];
    assert Bisect([skew], 0, 0, 1) <= 1;
  }

  /** The leak is exactly the skew less one interval, for actions and outcomes and for both partitions. */
  lemma LeakingBundle(interval: int, skew: int, kind: Kind, split: Split) returns (input: Inputs, b: Bundle, j: nat)
    requires 0 < interval && 0 <= skew && split != Test
    ensures IsBundle(input, b) && input.interval == interval && input.skew == skew && input.config == ConfigFor(split, interval)
    ensures j < |b.transitions| && b.transitions[j].split == split
    ensures EventOf(b.transitions[j], kind).Some?
    ensures EventOf(b.transitions[j], kind).value.at == Boundary(input.config, split) + skew - interval
  {
    input := LeakingInput(interval, skew, split);
    var splits, key := map[EPISODE := split], (SITE, EPISODE);
    LeakingSplits(interval, skew, split);
    b := BundleExists(input, splits);
    TwoObservations(interval);
    j := FirstTransition(input, b, key);
    JoinsNeighbours(input, b, j);
    OneSplitPerEpisode(input, b);
    EventRowOf(skew, b.splits);
    OnlyRowIsLinked(RowsOf(b, kind)[0], skew);
  }

  /** No event of a train or validation transition lies beyond the boundary of its partition, in any bundle,
      exactly when the skew is at most one interval. */
  lemma NeverLeaksIff(interval: int, skew: int, kind: Kind, split: Split)
    requires interval > 0 && split != Test
    ensures NeverLeaks(interval, skew, kind, split) <==> skew <= interval
  {
    if skew <= interval {
      forall input, b, j: nat | IsBundle(input, b) && input.config.Temporal? && j < |b.transitions|
                                && input.interval == interval && input.skew == skew
        ensures Inside(input, b, j, kind, split)
      {
        if b.transitions[j].split == split { EventsLeakAtMost(input, b, j, kind); }
      }
    } else {
      var input, b, j := LeakingBundle(interval, skew, kind, split);
      assert !Inside(input, b, j, kind, split);
    }
  }
}
