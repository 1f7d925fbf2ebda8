/** The aligned step grid: one row per interval and (site, episode), one cell per channel. */
module StepGrid {
  import opened Common
  import opened Splits
  import opened Alignment
  import opened Observations
  import opened Cells
  import opened Flattening

  datatype Step = Step(number: nat, at: int, site: string, episode: string, split: Split,
                       values: seq<Option<real>>, mask: seq<bool>)

  /** What the layout depends on. `cells` is the row of values at a time of a (site, episode). */
  datatype Plan = Plan(splits: Assignment, interval: int, cells: (Key, int) -> seq<Option<real>>)

  /** The time covered by the observations of one (site, episode). */
  datatype Span = Span(site: string, episode: string, start: int, end: int)

  function SpanOf(os: seq<Observation>, key: Key): (span: Span)
    requires Select(BySite, os, key) != []
  {
    var group := Select(BySite, os, key);
    Span(key.0, key.1, Earliest(group), Latest(group))
  }

  /** A span runs from its group's first observation to its last, and ends no later than the
      last observation of its episode on any site. */
  lemma {:induction false} SpanCoversGroup(os: seq<Observation>, key: Key)
    requires Select(BySite, os, key) != []
    ensures SpanOf(os, key).start <= SpanOf(os, key).end
    ensures forall o | o in os && GroupKey(BySite, o) == key :: SpanOf(os, key).start <= o.at <= SpanOf(os, key).end
    ensures exists o | o in os && GroupKey(BySite, o) == key :: o.at == SpanOf(os, key).start
    ensures exists o | o in os && GroupKey(BySite, o) == key :: o.at == SpanOf(os, key).end
    ensures Select(ByEpisode, os, ("", key.1)) != [] &&
            SpanOf(os, key).end <= Latest(Select(ByEpisode, os, ("", key.1)))
  {
    var group := Select(BySite, os, key);
    EarliestIsFirst(group);
    LatestIsLast(group);
    SelectElements(BySite, os, key);
    SelectElements(ByEpisode, os, ("", key.1));
    var o :| o in group && o.at == Latest(group);
    assert o in Select(ByEpisode, os, ("", key.1));
    LatestIsLast(Select(ByEpisode, os, ("", key.1)));
  }

  // ---------- The layout of all steps ----------

  predicate Laid(p: Plan, span: Span) { span.start <= span.end && span.episode in p.splits }

  predicate AllLaid(p: Plan, spans: seq<Span>) {
    p.interval > 0 && forall g {:trigger Laid(p, spans[g])} | 0 <= g < |spans| :: Laid(p, spans[g])
  }

  /** The mask is true exactly where a value is present. */
  function StepAt(p: Plan, span: Span, number: nat, at: int): Step
    requires Laid(p, span)
  {
    var values := p.cells((span.site, span.episode), at);
    Step(number, at, span.site, span.episode, p.splits[span.episode], values,
         seq(|values|, c requires 0 <= c < |values| => values[c].Some?))
  }

  /** The number of grid points of a span. */
  function GridSize(p: Plan, span: Span): nat
    requires p.interval > 0 && Laid(p, span)
  {
    Points(span.end - span.start, p.interval)
  }

  function GridTime(p: Plan, span: Span, k: int): int { span.start + k * p.interval }

  function SpanSteps(p: Plan, span: Span, base: nat): seq<Step>
    requires p.interval > 0 && Laid(p, span)
  {
    seq(GridSize(p, span), k requires 0 <= k < GridSize(p, span) => StepAt(p, span, base + k, GridTime(p, span, k)))
  }

  /** The steps of every group, numbered through. */
  function StepGroups(p: Plan, spans: seq<Span>): seq<seq<Step>>
    requires AllLaid(p, spans)
  {
    if spans == [] then []
    else
      var n := |spans| - 1;
      var before := StepGroups(p, spans[..n]);
      before + [SpanSteps(p, spans[n], |Flatten(before)|)]
  }

  function AllSteps(p: Plan, spans: seq<Span>): seq<Step>
    requires AllLaid(p, spans)
  {
    Flatten(StepGroups(p, spans))
  }

  /** A grid time is inside the span exactly when its index is below the grid size. */
  lemma GridBound(p: Plan, span: Span, k: nat)
    requires p.interval > 0 && Laid(p, span)
    ensures GridTime(p, span, k) <= span.end <==> k < GridSize(p, span)
    ensures span.start <= GridTime(p, span, k)
    ensures GridTime(p, span, k + 1) == GridTime(p, span, k) + p.interval
    ensures GridTime(p, span, 0) == span.start
  {
    PointsCount(span.end - span.start, p.interval, k);
    Product(k, p.interval);
    if k > 0 { Product(k - 1, p.interval); }
  }

  function Row(source: Source): (Key, int) -> seq<Option<real>> {
    (key, at) => RowValues(source, key, at)
  }

  /** The loop that advances the cursor from the first to the last observation of a group. */
  method GridSteps(p: Plan, source: Source, lanes: map<Key, seq<Observation>>, span: Span, base: nat) returns (steps: seq<Step>)
    requires p.interval > 0 && Laid(p, span) && LanesOf(source, lanes)
    requires p.cells == Row(source)
    ensures steps == SpanSteps(p, span, base)
  {
    ghost var all := SpanSteps(p, span, base);
    steps := [];
    var cursor := span.start;
    GridBound(p, span, 0);
    while cursor <= span.end
      invariant cursor == GridTime(p, span, |steps|)
      invariant |steps| <= |all| && steps == all[..|steps|]
      decreases span.end - cursor
    {
      GridBound(p, span, |steps|);
      var values, mask := RowLoop(source, lanes, (span.site, span.episode), cursor);
      var step := Step(base + |steps|, cursor, span.site, span.episode, p.splits[span.episode], values, mask);
      assert step == StepAt(p, span, base + |steps|, cursor);
      steps := steps + [step];
      cursor := cursor + p.interval;
    }
    GridBound(p, span, |steps|);
  }

  method CompileSteps(p: Plan, source: Source, lanes: map<Key, seq<Observation>>, spans: seq<Span>)
    returns (steps: seq<Step>, groups: seq<seq<Step>>)
    requires AllLaid(p, spans) && LanesOf(source, lanes) && p.cells == Row(source)
    ensures groups == StepGroups(p, spans)
    ensures steps == AllSteps(p, spans)
  {
    steps, groups := [], [];
    for g := 0 to |spans|
      invariant groups == StepGroups(p, spans[..g])
      invariant steps == Flatten(groups)
    {
      var episodeSteps := GridSteps(p, source, lanes, spans[g], |steps|);
      assert spans[..g + 1][..g] == spans[..g];
      assert (groups + [episodeSteps])[..|groups|] == groups;
      steps := steps + episodeSteps;
      groups := groups + [episodeSteps];
    }
    assert spans[..|spans|] == spans;
  }

  // ---------- What the grid guarantees ----------

  lemma {:induction false} StepGroupAt(p: Plan, spans: seq<Span>, g: nat)
    requires AllLaid(p, spans) && g < |spans|
    ensures |StepGroups(p, spans)| == |spans|
    ensures StepGroups(p, spans)[g] == SpanSteps(p, spans[g], Offset(StepGroups(p, spans), g))
  {
    var n := |spans| - 1;
    var before := StepGroups(p, spans[..n]);
    if n > 0 { StepGroupAt(p, spans[..n], if g < n then g else 0); }
    assert StepGroups(p, spans)[..g] == before[..g];
    if g == n { assert before[..n] == before; }
  }

  /** A group's grid starts at its first observation and ends at the last point that is not
      after its last observation. */
  lemma GridFillsSpan(p: Plan, span: Span)
    requires p.interval > 0 && Laid(p, span)
    ensures GridTime(p, span, 0) == span.start
    ensures GridSize(p, span) > 0
    ensures GridTime(p, span, GridSize(p, span) - 1) <= span.end < GridTime(p, span, GridSize(p, span) - 1) + p.interval
  {
    GridBound(p, span, 0);
    GridBound(p, span, GridSize(p, span) - 1);
    GridBound(p, span, GridSize(p, span));
  }

  lemma {:induction false} StepOfGroup(p: Plan, spans: seq<Span>, g: nat, k: nat)
    requires AllLaid(p, spans) && g < |spans| && k < GridSize(p, spans[g])
    ensures |StepGroups(p, spans)| == |spans| && |StepGroups(p, spans)[g]| == GridSize(p, spans[g])
    ensures StepGroups(p, spans)[g][k] ==
            StepAt(p, spans[g], Offset(StepGroups(p, spans), g) + k, GridTime(p, spans[g], k))
  {
    StepGroupAt(p, spans, g);
  }

  /** Group g occupies consecutive steps: the k-th of them is the k-th point of its grid. */
  lemma {:induction false} GroupOccupiesGrid(p: Plan, spans: seq<Span>, g: nat, k: nat)
    requires AllLaid(p, spans) && g < |spans| && k < GridSize(p, spans[g])
    ensures |StepGroups(p, spans)| == |spans| && |StepGroups(p, spans)[g]| == GridSize(p, spans[g])
    ensures Offset(StepGroups(p, spans), g) + k < |AllSteps(p, spans)|
    ensures AllSteps(p, spans)[Offset(StepGroups(p, spans), g) + k] ==
            StepAt(p, spans[g], Offset(StepGroups(p, spans), g) + k, GridTime(p, spans[g], k))
  {
    StepOfGroup(p, spans, g, k);
    ElementAt(StepGroups(p, spans), g, k);
  }

  /** Grid point k of group g is step k of that group. */
  lemma GridPoint(p: Plan, spans: seq<Span>, steps: seq<Step>, g: nat, k: nat) returns (i: nat)
    requires AllLaid(p, spans) && g < |spans| && steps == AllSteps(p, spans) && GridTime(p, spans[g], k) <= spans[g].end
    ensures |StepGroups(p, spans)| == |spans| && i == Offset(StepGroups(p, spans), g) + k < |steps|
    ensures steps[i].site == spans[g].site && steps[i].episode == spans[g].episode && steps[i].at == GridTime(p, spans[g], k)
  {
    GridBound(p, spans[g], k);
    GroupOccupiesGrid(p, spans, g, k);
    i := Offset(StepGroups(p, spans), g) + k;
  }

  /** Every step lies on the grid of one group and its number is its position: 0, 1, 2, ...
      across all groups. */
  lemma LocateStep(p: Plan, spans: seq<Span>, i: nat) returns (g: nat, k: nat)
    requires AllLaid(p, spans) && i < |AllSteps(p, spans)|
    ensures |StepGroups(p, spans)| == |spans|
    ensures g < |spans| && k < GridSize(p, spans[g]) && i == Offset(StepGroups(p, spans), g) + k
    ensures AllSteps(p, spans)[i] == StepAt(p, spans[g], i, GridTime(p, spans[g], k))
    ensures AllSteps(p, spans)[i].number == i
    ensures spans[g].start <= AllSteps(p, spans)[i].at <= spans[g].end
  {
    StepGroupAt(p, spans, 0);
    g, k := Locate(StepGroups(p, spans), i);
    StepGroupAt(p, spans, g);
    GridBound(p, spans[g], k);
  }
}
