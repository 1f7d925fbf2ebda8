/** The model lifecycle ledger: model records updated in place and an append-only history. */
module Lifecycle {
  import opened Common
  import opened Text

  datatype State = Candidate | Evaluated | Approved | Active | Rejected | Retired

  /** The transition table. */
  predicate Allowed(from: State, to: State) {
    match from
    case Candidate => to == Evaluated || to == Rejected
    case Evaluated => to == Candidate || to == Approved || to == Rejected
    case Approved => to == Active || to == Rejected
    case Active => to == Retired
    case Rejected => to == Candidate
    case Retired => to == Candidate
  }

  /** `evaluations` keeps the outcome (passed or not) of each evaluation. */
  datatype Model = Model(name: string, version: string, site: string, state: State,
                         evaluations: seq<bool>, updatedAt: int)

  datatype Action = Registered | EvaluatedBy | Requested | AutoRetired | RolledBack | RollbackTarget

  /** One history entry; `related` is the other model of an activation or rollback. */
  datatype Entry = Entry(id: string, action: Action, state: State, related: string)

  /** The ledger: the records, their insertion order, the history and the number of clock
      readings taken so far. */
  datatype Ledger = Ledger(models: map<string, Model>, order: seq<string>, history: seq<Entry>, ticks: nat)

  datatype LedgerError =
    | MissingFields | AlreadyRegistered | UnknownModel | NotEvaluable
    | NotPassed | InvalidTransition | NotActive | NoTarget

  /** The i-th reading of the clock. */
  type Clock = nat -> int

  const EMPTY := Ledger(map[], [], [], 0)

  function ModelId(name: string, version: string): string { Strip(name) + ":" + Strip(version) }

  predicate HasPassed(m: Model) { exists i | 0 <= i < |m.evaluations| :: m.evaluations[i] }

  predicate SameSlot(a: Model, b: Model) { a.name == b.name && a.site == b.site }

  // ---------- The operations on ledger values ----------

  /** `_record_history`: one entry, stamped with one clock reading. */
  function Log(l: Ledger, e: Entry): Ledger { l.(history := l.history + [e], ticks := l.ticks + 1) }

  /** Sets a model's state and `updated_at` to the next clock reading, and logs it. */
  function SetState(l: Ledger, id: string, state: State, action: Action, related: string, clock: Clock): Ledger
    requires id in l.models
  {
    var m := l.models[id].(state := state, updatedAt := clock(l.ticks));
    Log(l.(models := l.models[id := m], ticks := l.ticks + 1), Entry(id, action, state, related))
  }

  function Register(l: Ledger, name: string, version: string, provider: string, site: string, clock: Clock): Result<Ledger, LedgerError> {
    var id := ModelId(name, version);
    if Strip(name) == "" || Strip(version) == "" || Strip(provider) == "" then Err(MissingFields)
    else if id in l.models then
      if l.models[id].state in {Candidate, Rejected, Retired} then Ok(l) else Err(AlreadyRegistered)
    else
      // created_at and updated_at take one reading each
      var m := Model(Strip(name), Strip(version), site, Candidate, [], clock(l.ticks + 1));
      Ok(Log(l.(models := l.models[id := m], order := l.order + [id], ticks := l.ticks + 2), Entry(id, Registered, Candidate, "")))
  }

  function Evaluate(l: Ledger, id: string, passed: bool, clock: Clock): Result<Ledger, LedgerError> {
    if id !in l.models then Err(UnknownModel)
    else if l.models[id].state !in {Candidate, Evaluated} then Err(NotEvaluable)
    else
      // the evaluation's created_at takes a reading of its own
      var m := l.models[id].(evaluations := l.models[id].evaluations + [passed]);
      Ok(SetState(l.(models := l.models[id := m], ticks := l.ticks + 1), id, Evaluated, EvaluatedBy, "", clock))
  }

  /** Retires, in insertion order, the active models listed in `ids` that share a slot with `m`. */
  function RetireActive(l: Ledger, ids: seq<string>, m: Model, cause: string, clock: Clock): (r: Ledger)
    ensures r.models.Keys == l.models.Keys && r.order == l.order
  {
    if ids == [] then l
    else
      var before := RetireActive(l, ids[..|ids| - 1], m, cause, clock);
      var id := ids[|ids| - 1];
      if id in before.models && SameSlot(before.models[id], m) && before.models[id].state == Active
      then SetState(before, id, Retired, AutoRetired, cause, clock)
      else before
  }

  function Transition(l: Ledger, id: string, target: State, clock: Clock): Result<Ledger, LedgerError> {
    if id !in l.models then Err(UnknownModel)
    else if target == Approved && !HasPassed(l.models[id]) then Err(NotPassed)
    else if !Allowed(l.models[id].state, target) then Err(InvalidTransition)
    else
      var cleared := if target == Active then RetireActive(l, l.order, l.models[id], id, clock) else l;
      Ok(SetState(cleared, id, target, Requested, "", clock))
  }

  predicate IsCandidate(l: Ledger, id: string, other: string) {
    && id in l.models && other in l.models && other != id
    && SameSlot(l.models[other], l.models[id])
    && (l.models[other].state == Approved || l.models[other].state == Retired)
  }

  /** Python's `max`: the first, in insertion order, of the most recently updated candidates. */
  function LatestCandidate(l: Ledger, id: string, ids: seq<string>): (r: Option<string>)
    ensures r.Some? ==> IsCandidate(l, id, r.value)
  {
    if ids == [] then None
    else
      var before := LatestCandidate(l, id, ids[..|ids| - 1]);
      var last := ids[|ids| - 1];
      if IsCandidate(l, id, last) && (before.None? || l.models[before.value].updatedAt < l.models[last].updatedAt)
      then Some(last) else before
  }

  function Rollback(l: Ledger, id: string, clock: Clock): Result<Ledger, LedgerError> {
    if id !in l.models then Err(UnknownModel)
    else if l.models[id].state != Active then Err(NotActive)
    else
      match LatestCandidate(l, id, l.order)
      case None => Err(NoTarget)
      case Some(target) =>
        // one reading stamps both records
        var now := clock(l.ticks);
        var models := l.models[id := l.models[id].(state := Retired, updatedAt := now)]
                              [target := l.models[target].(state := Active, updatedAt := now)];
        Ok(Log(Log(l.(models := models, ticks := l.ticks + 1), Entry(id, RolledBack, Retired, target)),
               Entry(target, RollbackTarget, Active, id)))
  }

  // ---------- The ledger object ----------

  class ModelLifecycleLedger {
    var models: map<string, Model>
    var order: seq<string>
    var history: seq<Entry>
    var ticks: nat
    const clock: Clock

    function Contents(): Ledger reads this { Ledger(models, order, history, ticks) }

    constructor (clock: Clock)
      ensures Contents() == EMPTY && this.clock == clock
    {
      models, order, history, ticks, this.clock := map[], [], [], 0, clock;
    }

    method Now() returns (now: int)
      modifies this`ticks
      ensures now == clock(old(ticks)) && ticks == old(ticks) + 1
    {
      now := clock(ticks);
      ticks := ticks + 1;
    }

    method RecordHistory(e: Entry)
      modifies this`history, this`ticks
      ensures Contents() == Log(old(Contents()), e)
    {
      var _ := Now();
      history := history + [e];
    }

    method UpdateState(id: string, state: State, action: Action, related: string)
      requires id in models
      modifies this
      ensures Contents() == SetState(old(Contents()), id, state, action, related, clock)
    {
      var now := Now();
      models := models[id := models[id].(state := state, updatedAt := now)];
      RecordHistory(Entry(id, action, state, related));
    }

    method RegisterModel(name: string, version: string, provider: string, site: string) returns (r: Result<Model, LedgerError>)
      modifies this
      ensures match Register(old(Contents()), name, version, provider, site, clock)
              case Err(error) => r == Err(error) && Contents() == old(Contents())
              case Ok(l) => Contents() == l && ModelId(name, version) in models && r == Ok(models[ModelId(name, version)])
    {
      if Strip(name) == "" || Strip(version) == "" || Strip(provider) == "" { return Err(MissingFields); }
      var id := ModelId(name, version);
      if id in models {
        if models[id].state !in {Candidate, Rejected, Retired} { return Err(AlreadyRegistered); }
        return Ok(models[id]);
      }
      var _ := Now();
      var updated := Now();
      models := models[id := Model(Strip(name), Strip(version), site, Candidate, [], updated)];
      order := order + [id];
      RecordHistory(Entry(id, Registered, Candidate, ""));
      return Ok(models[id]);
    }

    method EvaluateModel(id: string, passed: bool) returns (r: Result<Model, LedgerError>)
      modifies this
      ensures match Evaluate(old(Contents()), id, passed, clock)
              case Err(error) => r == Err(error) && Contents() == old(Contents())
              case Ok(l) => Contents() == l && id in models && r == Ok(models[id])
    {
      if id !in models { return Err(UnknownModel); }
      if models[id].state !in {Candidate, Evaluated} { return Err(NotEvaluable); }
      var _ := Now();
      models := models[id := models[id].(evaluations := models[id].evaluations + [passed])];
      UpdateState(id, Evaluated, EvaluatedBy, "");
      return Ok(models[id]);
    }

    method TransitionModel(id: string, target: State) returns (r: Result<Model, LedgerError>)
      modifies this
      ensures match Transition(old(Contents()), id, target, clock)
              case Err(error) => r == Err(error) && Contents() == old(Contents())
              case Ok(l) => Contents() == l && id in models && r == Ok(models[id])
    {
      if id !in models { return Err(UnknownModel); }
      var record := models[id];
      if target == Approved && !HasPassed(record) { return Err(NotPassed); }
      if !Allowed(record.state, target) { return Err(InvalidTransition); }
      if target == Active {
        var ids := order;
        for i := 0 to |ids|
          invariant Contents() == RetireActive(old(Contents()), ids[..i], record, id, clock)
        {
          assert ids[..i + 1][..i] == ids[..i];
          var other := ids[i];
          if other in models && SameSlot(models[other], record) && models[other].state == Active {
            UpdateState(other, Retired, AutoRetired, id);
          }
        }
        assert ids[..|ids|] == ids;
      }
      UpdateState(id, target, Requested, "");
      return Ok(models[id]);
    }

    method RollbackModel(id: string) returns (r: Result<Model, LedgerError>)
      modifies this
      ensures match Rollback(old(Contents()), id, clock)
              case Err(error) => r == Err(error) && Contents() == old(Contents())
              case Ok(l) => Contents() == l && LatestCandidate(old(Contents()), id, old(order)).Some? &&
                            LatestCandidate(old(Contents()), id, old(order)).value in models &&
                            r == Ok(models[LatestCandidate(old(Contents()), id, old(order)).value])
    {
      if id !in models { return Err(UnknownModel); }
      if models[id].state != Active { return Err(NotActive); }
      var target: Option<string> := None;
      for i := 0 to |order|
        invariant target == LatestCandidate(Contents(), id, order[..i])
      {
        assert order[..i + 1][..i] == order[..i];
        if IsCandidate(Contents(), id, order[i]) &&
           (target.None? || models[target.value].updatedAt < models[order[i]].updatedAt) {
          target := Some(order[i]);
        }
      }
      assert order[..|order|] == order;
      if target.None? { return Err(NoTarget); }
      var chosen := target.value;
      models := models[id := models[id].(state := Retired)];
      models := models[chosen := models[chosen].(state := Active)];
      var now := Now();
      models := models[id := models[id].(updatedAt := now)];
      models := models[chosen := models[chosen].(updatedAt := now)];
      assert models == old(models)[id := old(models)[id].(state := Retired, updatedAt := now)]
                                  [chosen := old(models)[chosen].(state := Active, updatedAt := now)];
      RecordHistory(Entry(id, RolledBack, Retired, chosen));
      RecordHistory(Entry(chosen, RollbackTarget, Active, id));
      return Ok(models[chosen]);
    }
  }
}
