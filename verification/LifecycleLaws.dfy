/** What holds in every ledger reached from the empty one, and what rollback undoes. */
module LifecycleLaws {
  import opened Common
  import opened Text
  import opened Lifecycle

  datatype Command =
    | DoRegister(name: string, version: string, provider: string, site: string)
    | DoEvaluate(id: string, passed: bool)
    | DoTransition(id: string, target: State)
    | DoRollback(id: string)

  function Outcome(l: Ledger, c: Command, clock: Clock): Result<Ledger, LedgerError> {
    match c
    case DoRegister(name, version, provider, site) => Register(l, name, version, provider, site, clock)
    case DoEvaluate(id, passed) => Evaluate(l, id, passed, clock)
    case DoTransition(id, target) => Transition(l, id, target, clock)
    case DoRollback(id) => Rollback(l, id, clock)
  }

  /** A refused command leaves the ledger as it was. */
  function Perform(l: Ledger, c: Command, clock: Clock): Ledger {
    match Outcome(l, c, clock)
    case Ok(next) => next
    case Err(_) => l
  }

  function Play(commands: seq<Command>, clock: Clock): Ledger {
    if commands == [] then EMPTY else Perform(Play(commands[..|commands| - 1], clock), commands[|commands| - 1], clock)
  }

  // ---------- The invariants ----------

  ghost predicate Listed(l: Ledger) {
    NoDuplicates(l.order) && forall id :: id in l.order <==> id in l.models
  }

  ghost predicate OneActivePerSlot(l: Ledger) {
    forall a, b | a in l.models && b in l.models && l.models[a].state == Active && l.models[b].state == Active &&
                  SameSlot(l.models[a], l.models[b]) :: a == b
  }

  predicate PastGate(s: State) { s == Approved || s == Active || s == Retired }

  ghost predicate Gated(l: Ledger) {
    forall id | id in l.models && PastGate(l.models[id].state) :: HasPassed(l.models[id])
  }

  /** The entries of one model, oldest first. */
  function EntriesOf(history: seq<Entry>, id: string): seq<Entry> {
    if history == [] then []
    else
      var last := history[|history| - 1];
      EntriesOf(history[..|history| - 1], id) + (if last.id == id then [last] else [])
  }

  /** What one entry may record for a model that was in the given state. */
  predicate Follows(from: State, e: Entry) {
    match e.action
    case Registered => false
    case EvaluatedBy => (from == Candidate || from == Evaluated) && e.state == Evaluated
    case Requested => Allowed(from, e.state)
    case AutoRetired => from == Active && e.state == Retired
    case RolledBack => from == Active && e.state == Retired
    case RollbackTarget => (from == Approved || from == Retired) && e.state == Active
  }

  /** A model's history starts with its registration and every later entry follows the one before. */
  ghost predicate ValidTrace(t: seq<Entry>) {
    && t != [] && t[0].action == Registered && t[0].state == Candidate
    && forall i | 0 < i < |t| :: Follows(t[i - 1].state, t[i])
  }

  /** The history of one model: none for an unknown model, else a valid one ending in its state. */
  ghost predicate Recorded(history: seq<Entry>, id: string, state: Option<State>) {
    var t := EntriesOf(history, id);
    match state
    case None => t == []
    case Some(current) => ValidTrace(t) && t[|t| - 1].state == current
  }

  function StateOf(l: Ledger, id: string): Option<State> {
    if id in l.models then Some(l.models[id].state) else None
  }

  /** Exactly the known models have entries, and the last one records the current state. */
  ghost predicate Replays(l: Ledger) {
    forall id :: Recorded(l.history, id, StateOf(l, id))
  }

  lemma {:induction false} EntriesAppend(history: seq<Entry>, e: Entry, id: string)
    ensures EntriesOf(history + [e], id) == EntriesOf(history, id) + (if e.id == id then [e] else [])
  {
    assert (history + [e])[..|history|] == history;
  }

  lemma RecordedAppend(history: seq<Entry>, e: Entry, id: string, before: Option<State>)
    requires Recorded(history, id, before)
    requires e.id == id ==> before.Some? && Follows(before.value, e)
    ensures Recorded(history + [e], id, if e.id == id then Some(e.state) else before)
  {
    EntriesAppend(history, e, id);
  }

  /** Recording a permitted next state keeps the history a faithful record. */
  lemma ReplaysAppend(l: Ledger, r: Ledger, e: Entry)
    requires Replays(l) && r.history == l.history + [e]
    requires StateOf(l, e.id).Some? && Follows(StateOf(l, e.id).value, e)
    requires forall id :: StateOf(r, id) == if id == e.id then Some(e.state) else StateOf(l, id)
    ensures Replays(r)
  {
    forall id ensures Recorded(r.history, id, StateOf(r, id)) {
      RecordedAppend(l.history, e, id, StateOf(l, id));
    }
  }

  lemma SetStateReplays(l: Ledger, id: string, state: State, action: Action, related: string, clock: Clock)
    requires Replays(l) && id in l.models
    requires Follows(l.models[id].state, Entry(id, action, state, related))
    ensures Replays(SetState(l, id, state, action, related, clock))
  {
    ReplaysAppend(l, SetState(l, id, state, action, related, clock), Entry(id, action, state, related));
  }

  lemma RegisterReplays(l: Ledger, name: string, version: string, provider: string, site: string, clock: Clock)
    requires Replays(l) && Register(l, name, version, provider, site, clock).Ok?
    ensures Replays(Register(l, name, version, provider, site, clock).value)
  {
    var id := ModelId(name, version);
    if id !in l.models {
      var e := Entry(id, Registered, Candidate, "");
      var r := Register(l, name, version, provider, site, clock).value;
      forall x ensures Recorded(r.history, x, StateOf(r, x)) {
        assert Recorded(l.history, x, StateOf(l, x));
        EntriesAppend(l.history, e, x);
      }
    }
  }

  lemma EvaluateReplays(l: Ledger, id: string, passed: bool, clock: Clock)
    requires Replays(l) && Evaluate(l, id, passed, clock).Ok?
    ensures Replays(Evaluate(l, id, passed, clock).value)
  {
    var m := l.models[id].(evaluations := l.models[id].evaluations + [passed]);
    var noted := l.(models := l.models[id := m], ticks := l.ticks + 1);
    assert Replays(noted) by {
      forall x ensures Recorded(noted.history, x, StateOf(noted, x)) { assert Recorded(l.history, x, StateOf(l, x)); }
    }
    SetStateReplays(noted, id, Evaluated, EvaluatedBy, "", clock);
  }

  lemma {:induction false} RetireActiveReplays(l: Ledger, ids: seq<string>, m: Model, cause: string, clock: Clock)
    requires Replays(l)
    ensures Replays(RetireActive(l, ids, m, cause, clock))
  {
    if ids != [] {
      var n := |ids| - 1;
      var before := RetireActive(l, ids[..n], m, cause, clock);
      RetireActiveReplays(l, ids[..n], m, cause, clock);
      if ids[n] in before.models && before.models[ids[n]].state == Active {
        SetStateReplays(before, ids[n], Retired, AutoRetired, cause, clock);
      }
    }
  }

  predicate ToRetire(x: Model, listed: bool, m: Model) { listed && SameSlot(x, m) && x.state == Active }

  /** Activation retires exactly the listed active models of the slot and touches nothing else. */
  lemma {:induction false} RetireActiveRetires(l: Ledger, ids: seq<string>, m: Model, cause: string, clock: Clock, x: string)
    requires x in l.models
    ensures var y := RetireActive(l, ids, m, cause, clock).models[x];
            if ToRetire(l.models[x], x in ids, m) then y == l.models[x].(state := Retired, updatedAt := y.updatedAt)
            else y == l.models[x]
  {
    if ids != [] {
      var n := |ids| - 1;
      RetireActiveRetires(l, ids[..n], m, cause, clock, x);
      assert x in ids <==> x in ids[..n] || x == ids[n];
    }
  }

  /** What a granted transition does to every model. */
  lemma TransitionEffect(l: Ledger, id: string, target: State, clock: Clock, x: string)
    requires Listed(l) && Transition(l, id, target, clock).Ok? && x in l.models
    ensures Transition(l, id, target, clock).value.models.Keys == l.models.Keys
    ensures Transition(l, id, target, clock).value.order == l.order
    ensures var y := Transition(l, id, target, clock).value.models[x];
            if x == id then y == l.models[x].(state := target, updatedAt := y.updatedAt)
            else if target == Active && SameSlot(l.models[x], l.models[id]) && l.models[x].state == Active
            then y == l.models[x].(state := Retired, updatedAt := y.updatedAt)
            else y == l.models[x]
  {
    RetireActiveRetires(l, l.order, l.models[id], id, clock, x);
    RetireActiveRetires(l, l.order, l.models[id], id, clock, id);
  }

  lemma TransitionReplays(l: Ledger, id: string, target: State, clock: Clock)
    requires Replays(l) && Transition(l, id, target, clock).Ok?
    ensures Replays(Transition(l, id, target, clock).value)
  {
    if target == Active {
      RetireActiveReplays(l, l.order, l.models[id], id, clock);
      RetireActiveRetires(l, l.order, l.models[id], id, clock, id);
      SetStateReplays(RetireActive(l, l.order, l.models[id], id, clock), id, target, Requested, "", clock);
    } else {
      SetStateReplays(l, id, target, Requested, "", clock);
    }
  }

  lemma RollbackReplays(l: Ledger, id: string, clock: Clock)
    requires Replays(l) && Rollback(l, id, clock).Ok?
    ensures Replays(Rollback(l, id, clock).value)
  {
    var target := LatestCandidate(l, id, l.order).value;
    var now := clock(l.ticks);
    var e, f := Entry(id, RolledBack, Retired, target), Entry(target, RollbackTarget, Active, id);
    var half := Log(l.(models := l.models[id := l.models[id].(state := Retired, updatedAt := now)], ticks := l.ticks + 1), e);
    ReplaysAppend(l, half, e);
    ReplaysAppend(half, Rollback(l, id, clock).value, f);
  }

  /** The invariants that speak of the records alone. */
  ghost predicate WellGoverned(l: Ledger) { Listed(l) && OneActivePerSlot(l) && Gated(l) }

  lemma TransitionGoverned(l: Ledger, id: string, target: State, clock: Clock)
    requires WellGoverned(l) && Transition(l, id, target, clock).Ok?
    ensures WellGoverned(Transition(l, id, target, clock).value)
  {
    var r := Transition(l, id, target, clock).value;
    TransitionEffect(l, id, target, clock, id);
    forall x | x in l.models && PastGate(r.models[x].state) ensures HasPassed(r.models[x]) {
      TransitionEffect(l, id, target, clock, x);
      assert HasPassed(l.models[x]);
    }
    forall x, y | x in r.models && y in r.models && r.models[x].state == Active && r.models[y].state == Active &&
                  SameSlot(r.models[x], r.models[y])
      ensures x == y
    {
      TransitionEffect(l, id, target, clock, x);
      TransitionEffect(l, id, target, clock, y);
    }
  }

  lemma RollbackGoverned(l: Ledger, id: string, clock: Clock)
    requires WellGoverned(l) && Rollback(l, id, clock).Ok?
    ensures WellGoverned(Rollback(l, id, clock).value)
  {
    var r := Rollback(l, id, clock).value;
    var target := LatestCandidate(l, id, l.order).value;
    assert r.models.Keys == l.models.Keys && r.order == l.order;
    assert HasPassed(l.models[id]) && HasPassed(l.models[target]);
  }

  lemma RegisterGoverned(l: Ledger, name: string, version: string, provider: string, site: string, clock: Clock)
    requires WellGoverned(l) && Register(l, name, version, provider, site, clock).Ok?
    ensures WellGoverned(Register(l, name, version, provider, site, clock).value)
  {
    var id := ModelId(name, version);
    if id !in l.models {
      assert id !in l.order;
      AppendListed(l.order, id);
    }
  }

  lemma AppendListed(order: seq<string>, id: string)
    requires NoDuplicates(order) && id !in order
    ensures NoDuplicates(order + [id]) && forall x :: x in order + [id] <==> x in order || x == id
  {
  }

  lemma EvaluateGoverned(l: Ledger, id: string, passed: bool, clock: Clock)
    requires WellGoverned(l) && Evaluate(l, id, passed, clock).Ok?
    ensures WellGoverned(Evaluate(l, id, passed, clock).value)
  {
  }

  lemma StepIsSound(l: Ledger, c: Command, clock: Clock)
    requires WellGoverned(l) && Replays(l)
    ensures WellGoverned(Perform(l, c, clock)) && Replays(Perform(l, c, clock))
  {
    if Outcome(l, c, clock).Ok? {
      match c
      case DoRegister(name, version, provider, site) =>
        RegisterGoverned(l, name, version, provider, site, clock);
        RegisterReplays(l, name, version, provider, site, clock);
      case DoEvaluate(id, passed) =>
        EvaluateGoverned(l, id, passed, clock);
        EvaluateReplays(l, id, passed, clock);
      case DoTransition(id, target) =>
        TransitionGoverned(l, id, target, clock);
        TransitionReplays(l, id, target, clock);
      case DoRollback(id) =>
        RollbackGoverned(l, id, clock);
        RollbackReplays(l, id, clock);
    }
  }

  /** In every reachable ledger: at most one active model per name and site; every approved,
      active or retired model has a passing evaluation; and replaying the history gives exactly
      the current state of every model, along permitted edges only. */
  lemma {:induction false} ReachableLedgersAreSound(commands: seq<Command>, clock: Clock)
    ensures OneActivePerSlot(Play(commands, clock))
    ensures Gated(Play(commands, clock))
    ensures Replays(Play(commands, clock))
    ensures Listed(Play(commands, clock))
  {
    if commands != [] {
      ReachableLedgersAreSound(commands[..|commands| - 1], clock);
      StepIsSound(Play(commands[..|commands| - 1], clock), commands[|commands| - 1], clock);
    }
  }

  /** The invariant one might expect: `evaluated` only with an evaluation on record. */
  ghost predicate EvaluatedMeansEvaluated(l: Ledger) {
    forall id | id in l.models && l.models[id].state == Evaluated :: l.models[id].evaluations != []
  }

  lemma EvaluationCanBeSkipped(l: Ledger, id: string, target: State, clock: Clock)
    requires EvaluatedMeansEvaluated(l) && Listed(l) && Transition(l, id, target, clock).Ok?
    ensures EvaluatedMeansEvaluated(Transition(l, id, target, clock).value) <==>
            !(target == Evaluated && l.models[id].evaluations == [])
  {
    var r := Transition(l, id, target, clock).value;
    TransitionEffect(l, id, target, clock, id);
    if !(target == Evaluated && l.models[id].evaluations == []) {
      forall x | x in r.models && r.models[x].state == Evaluated ensures r.models[x].evaluations != [] {
        TransitionEffect(l, id, target, clock, x);
      }
    }
  }

  /** A command keeps it exactly when it is not a granted transition of an unevaluated model to evaluated. */
  lemma EvaluationIsSkippedIff(l: Ledger, c: Command, clock: Clock)
    requires EvaluatedMeansEvaluated(l) && Listed(l)
    ensures EvaluatedMeansEvaluated(Perform(l, c, clock)) <==>
            !(c.DoTransition? && c.target == Evaluated && Outcome(l, c, clock).Ok? && l.models[c.id].evaluations == [])
  {
    if c.DoTransition? && Outcome(l, c, clock).Ok? { EvaluationCanBeSkipped(l, c.id, c.target, clock); }
  }

  lemma PlayTwo(c: Command, d: Command, clock: Clock)
    ensures Play([c, d], clock) == Perform(Perform(EMPTY, c, clock), d, clock)
  {
    assert [c, d][..1] == [c] && [c][..0] == [];
    assert Play([c], clock) == Perform(EMPTY, c, clock);
  }

  /** Two commands reach it: any registered candidate can be moved to evaluated at once. */
  lemma {:induction false} UnevaluatedIsReachable(name: string, version: string, provider: string, site: string, clock: Clock)
    requires Strip(name) != "" && Strip(version) != "" && Strip(provider) != ""
    ensures !EvaluatedMeansEvaluated(Play([DoRegister(name, version, provider, site), DoTransition(ModelId(name, version), Evaluated)], clock))
  {
    var id := ModelId(name, version);
    PlayTwo(DoRegister(name, version, provider, site), DoTransition(id, Evaluated), clock);
    var registered := Register(EMPTY, name, version, provider, site, clock).value;
    var l := Transition(registered, id, Evaluated, clock).value;
    assert id in l.models && l.models[id].state == Evaluated && l.models[id].evaluations == [];
  }

  // ---------- Rollback ----------

  ghost predicate StrictlyIncreasing(clock: Clock) { forall i: nat, j: nat | i < j :: clock(i) < clock(j) }

  /** The stamp was read from the clock, after `from` and before `to` readings. */
  ghost predicate ReadBetween(clock: Clock, from: nat, stamp: int, to: nat) {
    exists k: nat :: from <= k < to && stamp == clock(k)
  }

  /** Every stamp was read from the clock before now. */
  ghost predicate Stamped(l: Ledger, clock: Clock) {
    forall id | id in l.models :: ReadBetween(clock, 0, l.models[id].updatedAt, l.ticks)
  }

  lemma {:induction false} RetireActiveStamps(l: Ledger, ids: seq<string>, m: Model, cause: string, clock: Clock, x: string)
    requires x in l.models
    ensures var r := RetireActive(l, ids, m, cause, clock);
            && l.ticks <= r.ticks
            && (r.models[x] == l.models[x] || ReadBetween(clock, l.ticks, r.models[x].updatedAt, r.ticks))
  {
    if ids != [] {
      var n := |ids| - 1;
      RetireActiveStamps(l, ids[..n], m, cause, clock, x);
      var before, r := RetireActive(l, ids[..n], m, cause, clock), RetireActive(l, ids, m, cause, clock);
      assert r == before || (r.ticks == before.ticks + 2 && r.models[ids[n]].updatedAt == clock(before.ticks));
    }
  }

  lemma LaterRead(clock: Clock, from: nat, stamp: int, to: nat, later: nat)
    requires ReadBetween(clock, from, stamp, to) && to <= later
    ensures ReadBetween(clock, 0, stamp, later)
  {
  }

  lemma TransitionStamps(l: Ledger, id: string, target: State, clock: Clock)
    requires Stamped(l, clock) && Transition(l, id, target, clock).Ok?
    ensures Stamped(Transition(l, id, target, clock).value, clock)
  {
    var r := Transition(l, id, target, clock).value;
    var cleared := if target == Active then RetireActive(l, l.order, l.models[id], id, clock) else l;
    forall x | x in r.models ensures ReadBetween(clock, 0, r.models[x].updatedAt, r.ticks) {
      RetireActiveStamps(l, l.order, l.models[id], id, clock, x);
      if x == id {
        assert r.models[x].updatedAt == clock(cleared.ticks);
      } else {
        assert r.models[x] == cleared.models[x];
      }
    }
  }

  lemma StampedStep(l: Ledger, c: Command, clock: Clock)
    requires Stamped(l, clock)
    ensures Stamped(Perform(l, c, clock), clock)
  {
    if Outcome(l, c, clock).Ok? {
      var r := Perform(l, c, clock);
      if c.DoTransition? {
        TransitionStamps(l, c.id, c.target, clock);
      } else {
        assert clock(l.ticks) == clock(l.ticks) && clock(l.ticks + 1) == clock(l.ticks + 1);
        forall x | x in r.models ensures ReadBetween(clock, 0, r.models[x].updatedAt, r.ticks) {
          if x in l.models && r.models[x].updatedAt == l.models[x].updatedAt {
            LaterRead(clock, 0, l.models[x].updatedAt, l.ticks, r.ticks);
          }
        }
      }
    }
  }

  lemma {:induction false} ReachableLedgersAreStamped(commands: seq<Command>, clock: Clock)
    ensures Stamped(Play(commands, clock), clock)
  {
    if commands != [] {
      ReachableLedgersAreStamped(commands[..|commands| - 1], clock);
      StampedStep(Play(commands[..|commands| - 1], clock), commands[|commands| - 1], clock);
    }
  }

  /** ids[b] is a rollback candidate, updated after all earlier listed ones and no earlier than
      the later listed ones. */
  ghost predicate IsLatest(l: Ledger, id: string, ids: seq<string>, b: nat)
    requires b < |ids|
  {
    && IsCandidate(l, id, ids[b])
    && (forall c | 0 <= c < b && IsCandidate(l, id, ids[c]) :: l.models[ids[c]].updatedAt < l.models[ids[b]].updatedAt)
    && (forall c | b < c < |ids| && IsCandidate(l, id, ids[c]) :: l.models[ids[c]].updatedAt <= l.models[ids[b]].updatedAt)
  }

  lemma {:induction false} TargetIsLatest(l: Ledger, id: string, ids: seq<string>)
    ensures match LatestCandidate(l, id, ids)
            case None => forall c | 0 <= c < |ids| :: !IsCandidate(l, id, ids[c])
            case Some(target) => exists b :: 0 <= b < |ids| && ids[b] == target && IsLatest(l, id, ids, b)
  {
    if ids != [] {
      var n := |ids| - 1;
      TargetIsLatest(l, id, ids[..n]);
      var before := LatestCandidate(l, id, ids[..n]);
      if before.Some? {
        var b :| 0 <= b < n && ids[..n][b] == before.value && IsLatest(l, id, ids[..n], b);
        LatestExtends(l, id, ids, b);
      } else {
        assert forall c | 0 <= c < n :: ids[..n][c] == ids[c];
        if IsCandidate(l, id, ids[n]) { assert IsLatest(l, id, ids, n); }
      }
    }
  }

  lemma LatestExtends(l: Ledger, id: string, ids: seq<string>, b: nat)
    requires b + 1 < |ids| && IsLatest(l, id, ids[..|ids| - 1], b)
    ensures var n := |ids| - 1;
            if IsCandidate(l, id, ids[n]) && l.models[ids[b]].updatedAt < l.models[ids[n]].updatedAt
            then IsLatest(l, id, ids, n) else IsLatest(l, id, ids, b)
  {
    assert forall c | 0 <= c < |ids| - 1 :: ids[..|ids| - 1][c] == ids[c];
  }

  /** A rollback picks model b exactly when b is the most recently updated candidate, the first
      registered of them on a tie; whatever the clock did. */
  lemma {:induction false} RollbackPicksLatest(l: Ledger, id: string, b: nat)
    requires NoDuplicates(l.order) && b < |l.order|
    ensures LatestCandidate(l, id, l.order) == Some(l.order[b]) <==> IsLatest(l, id, l.order, b)
  {
    TargetIsLatest(l, id, l.order);
    var found := LatestCandidate(l, id, l.order);
    if found.Some? {
      var c :| 0 <= c < |l.order| && l.order[c] == found.value && IsLatest(l, id, l.order, c);
      assert IsLatest(l, id, l.order, b) ==> b == c;
    }
  }

  lemma {:induction false} NewestIsTarget(l: Ledger, id: string, b: string)
    requires Listed(l) && IsCandidate(l, id, b)
    requires forall c | c in l.models && IsCandidate(l, id, c) && c != b :: l.models[c].updatedAt < l.models[b].updatedAt
    ensures LatestCandidate(l, id, l.order) == Some(b)
  {
    var i :| 0 <= i < |l.order| && l.order[i] == b;
    RollbackPicksLatest(l, id, i);
  }

  lemma EarlierStamp(clock: Clock, s: int, t: nat, u: int, from: nat, to: nat)
    requires StrictlyIncreasing(clock) && t <= from
    requires ReadBetween(clock, 0, s, t) && ReadBetween(clock, from, u, to)
    ensures s < u
  {
  }

  lemma {:induction false} ActivationIsNewest(l: Ledger, a: string, b: string, clock: Clock)
    requires WellGoverned(l) && Stamped(l, clock) && StrictlyIncreasing(clock)
    requires a in l.models && b in l.models && SameSlot(l.models[a], l.models[b])
    requires l.models[a].state == Approved && l.models[b].state == Active
    ensures Transition(l, a, Active, clock).Ok?
    ensures LatestCandidate(Transition(l, a, Active, clock).value, a, l.order) == Some(b)
  {
    var activated := Transition(l, a, Active, clock).value;
    TransitionEffect(l, a, Active, clock, a);
    TransitionEffect(l, a, Active, clock, b);
    RetireActiveStamps(l, l.order, l.models[a], a, clock, b);
    var cleared := RetireActive(l, l.order, l.models[a], a, clock);
    assert activated.models[b] == cleared.models[b] != l.models[b];
    forall c | c in activated.models && IsCandidate(activated, a, c) && c != b
      ensures activated.models[c].updatedAt < activated.models[b].updatedAt
    {
      TransitionEffect(l, a, Active, clock, c);
      assert activated.models[c] == l.models[c];
      EarlierStamp(clock, l.models[c].updatedAt, l.ticks, activated.models[b].updatedAt, l.ticks, cleared.ticks);
    }
    NewestIsTarget(activated, a, b);
  }

  /** With a strictly increasing clock, rolling back a just-activated model restores the model it
      displaced and leaves every third model as it was before the activation. */
  lemma RollbackRestoresDisplaced(l: Ledger, a: string, b: string, clock: Clock, x: string)
    requires WellGoverned(l) && Stamped(l, clock) && StrictlyIncreasing(clock)
    requires a in l.models && b in l.models && SameSlot(l.models[a], l.models[b])
    requires l.models[a].state == Approved && l.models[b].state == Active
    requires x in l.models
    ensures Transition(l, a, Active, clock).Ok?
    ensures var activated := Transition(l, a, Active, clock).value;
            Rollback(activated, a, clock).Ok? &&
            var restored := Rollback(activated, a, clock).value;
            && restored.models.Keys == l.models.Keys
            && restored.models[b] == l.models[b].(updatedAt := restored.models[b].updatedAt)
            && restored.models[a] == l.models[a].(state := Retired, updatedAt := restored.models[a].updatedAt)
            && (x != a && x != b ==> restored.models[x] == l.models[x])
  {
    ActivationIsNewest(l, a, b, clock);
    TransitionEffect(l, a, Active, clock, a);
    TransitionEffect(l, a, Active, clock, b);
    TransitionEffect(l, a, Active, clock, x);
  }

  /** With a strictly increasing clock, rolling back twice in a row always returns to the model
      that was active at first and leaves every third model untouched. */
  lemma {:induction false} RollbackTwiceReturns(l: Ledger, a: string, clock: Clock, x: string)
    requires WellGoverned(l) && Stamped(l, clock) && StrictlyIncreasing(clock)
    requires Rollback(l, a, clock).Ok? && x in l.models
    ensures var b := LatestCandidate(l, a, l.order).value;
            var once := Rollback(l, a, clock).value;
            && once.models[b].state == Active && once.models[a].state == Retired
            && Rollback(once, b, clock).Ok? &&
            var twice := Rollback(once, b, clock).value;
            && twice.models[a] == l.models[a].(updatedAt := twice.models[a].updatedAt)
            && twice.models[b].state == Retired
            && (x != a && x != b ==> twice.models[x] == once.models[x] == l.models[x])
  {
    var b := LatestCandidate(l, a, l.order).value;
    var once := Rollback(l, a, clock).value;
    assert once.models.Keys == l.models.Keys;
    assert ReadBetween(clock, l.ticks, once.models[a].updatedAt, once.ticks);
    forall c | c in once.models && IsCandidate(once, b, c) && c != a
      ensures once.models[c].updatedAt < once.models[a].updatedAt
    {
      assert once.models[c] == l.models[c];
      EarlierStamp(clock, l.models[c].updatedAt, l.ticks, once.models[a].updatedAt, l.ticks, once.ticks);
    }
    NewestIsTarget(once, b, a);
  }
}
