/** What the ledger's records owe to the commands: said about whole command sequences, on the fields. */
module LifecycleRecords {
  import opened Common
  import opened Text
  import opened Lifecycle
  import opened LifecycleLaws

  /** The k-th command was carried out. */
  ghost predicate Granted(commands: seq<Command>, clock: Clock, k: nat)
    requires k < |commands|
  {
    Outcome(Play(commands[..k], clock), commands[k], clock).Ok?
  }

  lemma GrantedInPrefix(commands: seq<Command>, clock: Clock, k: nat, n: nat)
    requires k < n <= |commands|
    ensures commands[..n][k] == commands[k]
    ensures Granted(commands[..n], clock, k) <==> Granted(commands, clock, k)
  {
    assert commands[..n][..k] == commands[..k];
  }

  // ---------- Evaluations ----------

  /** The flags of the evaluations of one model that were carried out, in order. */
  ghost function Flags(commands: seq<Command>, clock: Clock, id: string): seq<bool> {
    if commands == [] then []
    else
      var n := |commands| - 1;
      var c := commands[n];
      Flags(commands[..n], clock, id) + (if c.DoEvaluate? && c.id == id && Granted(commands, clock, n) then [c.passed] else [])
  }

  function EvaluationsOf(l: Ledger, id: string): seq<bool> {
    if id in l.models then l.models[id].evaluations else []
  }

  lemma OneMoreFlag(l: Ledger, c: Command, clock: Clock, id: string)
    requires Listed(l)
    ensures EvaluationsOf(Perform(l, c, clock), id)
            == EvaluationsOf(l, id) + (if c.DoEvaluate? && c.id == id && Outcome(l, c, clock).Ok? then [c.passed] else [])
  {
    if c.DoTransition? && Outcome(l, c, clock).Ok? && id in l.models { TransitionEffect(l, c.id, c.target, clock, id); }
  }

  /** Each model stores the flags of its own evaluations, in order, and nothing else. */
  lemma {:induction false} FlagsAreStored(commands: seq<Command>, clock: Clock, id: string)
    ensures EvaluationsOf(Play(commands, clock), id) == Flags(commands, clock, id)
  {
    if commands != [] {
      var n := |commands| - 1;
      FlagsAreStored(commands[..n], clock, id);
      ReachableLedgersAreSound(commands[..n], clock);
      OneMoreFlag(Play(commands[..n], clock), commands[n], clock, id);
    }
  }

  /** The k-th command evaluated the model, and it passed. */
  ghost predicate Passes(commands: seq<Command>, clock: Clock, id: string, k: nat) {
    k < |commands| && commands[k] == DoEvaluate(id, true) && Granted(commands, clock, k)
  }

  ghost predicate EverPasses(commands: seq<Command>, clock: Clock, id: string) {
    exists k :: Passes(commands, clock, id, k)
  }

  lemma EverPassesGrows(commands: seq<Command>, clock: Clock, id: string)
    requires commands != []
    ensures EverPasses(commands, clock, id) <==>
            EverPasses(commands[..|commands| - 1], clock, id) || Passes(commands, clock, id, |commands| - 1)
  {
    var n := |commands| - 1;
    forall k | 0 <= k < n ensures Passes(commands[..n], clock, id, k) <==> Passes(commands, clock, id, k) {
      GrantedInPrefix(commands, clock, k, n);
    }
  }

  lemma {:induction false} PassIsFlag(commands: seq<Command>, clock: Clock, id: string)
    ensures true in Flags(commands, clock, id) <==> EverPasses(commands, clock, id)
  {
    if commands != [] {
      PassIsFlag(commands[..|commands| - 1], clock, id);
      EverPassesGrows(commands, clock, id);
    }
  }

  /** An approved, active or retired model has passed an evaluation that was carried out on it. */
  lemma {:induction false} PassBehindGate(commands: seq<Command>, clock: Clock, id: string)
    requires id in Play(commands, clock).models
    requires Play(commands, clock).models[id].state in {Approved, Active, Retired}
    ensures EverPasses(commands, clock, id)
  {
    ReachableLedgersAreSound(commands, clock);
    FlagsAreStored(commands, clock, id);
    PassIsFlag(commands, clock, id);
    assert HasPassed(Play(commands, clock).models[id]);
  }

  /** Approval is refused for want of a pass exactly when no evaluation of the model has passed. */
  lemma {:induction false} ApprovalNeedsPass(commands: seq<Command>, clock: Clock, id: string)
    requires id in Play(commands, clock).models
    ensures Outcome(Play(commands, clock), DoTransition(id, Approved), clock) == Err(NotPassed) <==> !EverPasses(commands, clock, id)
  {
    FlagsAreStored(commands, clock, id);
    PassIsFlag(commands, clock, id);
    var m := Play(commands, clock).models[id];
    assert HasPassed(m) <==> true in m.evaluations;
  }

  // ---------- What is granted ----------

  /** Where a model may be moved: ten pairs. */
  const EDGES: set<(State, State)> :=
    {(Candidate, Evaluated), (Candidate, Rejected),
     (Evaluated, Candidate), (Evaluated, Approved), (Evaluated, Rejected),
     (Approved, Active), (Approved, Rejected), (Active, Retired), (Rejected, Candidate), (Retired, Candidate)}

  /** Whether a command is carried out, on the records alone. */
  ghost predicate Permitted(models: map<string, Model>, c: Command) {
    match c
    case DoRegister(name, version, provider, _) =>
      && Strip(name) != "" && Strip(version) != "" && Strip(provider) != ""
      && (Strip(name) + ":" + Strip(version) in models ==>
            models[Strip(name) + ":" + Strip(version)].state in {Candidate, Rejected, Retired})
    case DoEvaluate(id, _) => id in models && models[id].state in {Candidate, Evaluated}
    case DoTransition(id, target) =>
      id in models && (target == Approved ==> true in models[id].evaluations) && (models[id].state, target) in EDGES
    case DoRollback(id) =>
      && id in models && models[id].state == Active
      && exists other :: CanReplace(models, id, other)
  }

  /** Same name and site, approved or retired, and another model. */
  predicate CanReplace(models: map<string, Model>, id: string, other: string) {
    && id in models && other in models && other != id
    && models[other].name == models[id].name && models[other].site == models[id].site
    && models[other].state in {Approved, Retired}
  }

  lemma {:induction false} CandidatesCanReplace(l: Ledger, id: string)
    requires Listed(l) && id in l.models
    ensures forall other :: CanReplace(l.models, id, other) <==> IsCandidate(l, id, other)
    ensures LatestCandidate(l, id, l.order).Some? <==> exists other :: CanReplace(l.models, id, other)
  {
    TargetIsLatest(l, id, l.order);
    assert forall other :: CanReplace(l.models, id, other) ==> other in l.order;
  }

  lemma EdgesAreAllowed(from: State, to: State)
    ensures Allowed(from, to) <==> (from, to) in EDGES
  {
  }

  /** In every reachable ledger a command is carried out exactly when the records permit it. */
  lemma {:induction false} GrantedIffPermitted(commands: seq<Command>, clock: Clock, c: Command)
    ensures Outcome(Play(commands, clock), c, clock).Ok? <==> Permitted(Play(commands, clock).models, c)
  {
    var l := Play(commands, clock);
    ReachableLedgersAreSound(commands, clock);
    match c
    case DoTransition(id, target) =>
      if id in l.models {
        EdgesAreAllowed(l.models[id].state, target);
        assert HasPassed(l.models[id]) <==> true in l.models[id].evaluations;
      }
    case DoRollback(id) => if id in l.models { CandidatesCanReplace(l, id); }
    case _ =>
  }

  // ---------- What a record is ----------

  /** The k-th command brought the model in, and the record still has its name, version and site. */
  ghost predicate Registers(commands: seq<Command>, clock: Clock, m: Model, id: string, k: nat) {
    && k < |commands| && commands[k].DoRegister? && Granted(commands, clock, k)
    && id !in Play(commands[..k], clock).models && id == m.name + ":" + m.version
    && m.name == Strip(commands[k].name) && m.version == Strip(commands[k].version) && m.site == commands[k].site
  }

  lemma IdentityIsKept(l: Ledger, c: Command, clock: Clock, id: string)
    requires Listed(l) && id in l.models
    ensures var next := Perform(l, c, clock);
            && id in next.models && next.models[id].name == l.models[id].name
            && next.models[id].version == l.models[id].version && next.models[id].site == l.models[id].site
  {
    if c.DoTransition? && Outcome(l, c, clock).Ok? { TransitionEffect(l, c.id, c.target, clock, id); }
  }

  lemma RegistersStill(commands: seq<Command>, clock: Clock, m: Model, next: Model, id: string, k: nat)
    requires commands != [] && Registers(commands[..|commands| - 1], clock, m, id, k)
    requires next.name == m.name && next.version == m.version && next.site == m.site
    ensures Registers(commands, clock, next, id, k)
  {
    var n := |commands| - 1;
    GrantedInPrefix(commands, clock, k, n);
    assert commands[..n][..k] == commands[..k];
  }

  lemma KnownComesFrom(l: Ledger, c: Command, clock: Clock, id: string)
    requires Listed(l) && id !in l.models && id in Perform(l, c, clock).models
    ensures c.DoRegister? && Outcome(l, c, clock).Ok?
    ensures var m := Perform(l, c, clock).models[id];
            && id == m.name + ":" + m.version && m.name == Strip(c.name) && m.version == Strip(c.version) && m.site == c.site
            && m.state == Candidate && m.evaluations == []
  {
    if c.DoTransition? && Outcome(l, c, clock).Ok? { TransitionEffect(l, c.id, c.target, clock, c.id); }
  }

  /** Every record was brought in by a registration of its own name, version and site ... */
  lemma {:induction false} RecordsAreRegistered(commands: seq<Command>, clock: Clock, id: string)
    requires id in Play(commands, clock).models
    ensures exists k :: Registers(commands, clock, Play(commands, clock).models[id], id, k)
  {
    if commands != [] {
      var n := |commands| - 1;
      var before := Play(commands[..n], clock);
      if id in before.models {
        RecordsAreRegistered(commands[..n], clock, id);
        var k :| Registers(commands[..n], clock, before.models[id], id, k);
        ReachableLedgersAreSound(commands[..n], clock);
        IdentityIsKept(before, commands[n], clock, id);
        RegistersStill(commands, clock, before.models[id], Play(commands, clock).models[id], id, k);
      } else {
        ReachableLedgersAreSound(commands[..n], clock);
        KnownComesFrom(before, commands[n], clock, id);
        assert Registers(commands, clock, Play(commands, clock).models[id], id, n);
      }
    }
  }

  lemma RegisteredIsKnown(l: Ledger, c: Command, clock: Clock)
    requires c.DoRegister? && Outcome(l, c, clock).Ok?
    ensures Strip(c.name) + ":" + Strip(c.version) in Perform(l, c, clock).models
  {
  }

  lemma {:induction false} KnownStaysKnown(commands: seq<Command>, clock: Clock, k: nat, id: string)
    requires k <= |commands| && id in Play(commands[..k], clock).models
    ensures id in Play(commands, clock).models
  {
    var n := |commands| - 1;
    if k <= n {
      assert commands[..n][..k] == commands[..k];
      KnownStaysKnown(commands[..n], clock, k, id);
      ReachableLedgersAreSound(commands[..n], clock);
      IdentityIsKept(Play(commands[..n], clock), commands[n], clock, id);
    } else {
      assert commands[..k] == commands;
    }
  }

  /** ... and stays known for good. */
  lemma {:induction false} RegisteredStaysKnown(commands: seq<Command>, clock: Clock, k: nat)
    requires k < |commands| && commands[k].DoRegister? && Granted(commands, clock, k)
    ensures Strip(commands[k].name) + ":" + Strip(commands[k].version) in Play(commands, clock).models
  {
    RegisteredIsKnown(Play(commands[..k], clock), commands[k], clock);
    assert commands[..k + 1][..k] == commands[..k];
    KnownStaysKnown(commands, clock, k + 1, Strip(commands[k].name) + ":" + Strip(commands[k].version));
  }

  /** A command that is carried out leaves its model in the state it names, and an entry of that; a
      registration of a known model does nothing. */
  lemma {:induction false} CommandLeaves(commands: seq<Command>, clock: Clock, c: Command)
    requires Outcome(Play(commands, clock), c, clock).Ok?
    ensures var l, next := Play(commands, clock), Play(commands + [c], clock);
            match c
            case DoRegister(name, version, _, site) =>
              var id := Strip(name) + ":" + Strip(version);
              if id in l.models then next == l else StateOf(next, id) == Some(Candidate) && LastSays(next.history, id, Candidate)
            case DoEvaluate(id, _) => StateOf(next, id) == Some(Evaluated) && LastSays(next.history, id, Evaluated)
            case DoTransition(id, target) => StateOf(next, id) == Some(target) && LastSays(next.history, id, target)
            case DoRollback(id) => StateOf(next, id) == Some(Retired)
  {
    var l := Play(commands, clock);
    ReachableLedgersAreSound(commands, clock);
    assert (commands + [c])[..|commands|] == commands;
    if c.DoTransition? { TransitionEffect(l, c.id, c.target, clock, c.id); }
  }

  predicate LastSays(history: seq<Entry>, id: string, state: State) {
    history != [] && history[|history| - 1].id == id && history[|history| - 1].state == state
  }

  /** The records are listed in the order of their registration. */
  function Arrivals(history: seq<Entry>): seq<string> {
    if history == [] then []
    else
      var last := history[|history| - 1];
      Arrivals(history[..|history| - 1]) + (if last.action == Registered then [last.id] else [])
  }

  lemma {:induction false} ArrivalsAppend(history: seq<Entry>, e: Entry)
    ensures Arrivals(history + [e]) == Arrivals(history) + (if e.action == Registered then [e.id] else [])
  {
    assert (history + [e])[..|history|] == history;
  }

  lemma {:induction false} NoArrivals(history: seq<Entry>, tail: seq<Entry>)
    requires forall i | 0 <= i < |tail| :: tail[i].action != Registered
    ensures Arrivals(history + tail) == Arrivals(history)
  {
    if tail == [] {
      assert history + tail == history;
    } else {
      var n := |tail| - 1;
      NoArrivals(history, tail[..n]);
      assert history + tail == (history + tail[..n]) + [tail[n]];
      ArrivalsAppend(history + tail[..n], tail[n]);
    }
  }

  lemma ArrivalIsListed(l: Ledger, c: Command, clock: Clock)
    requires l.order == Arrivals(l.history)
    ensures Perform(l, c, clock).order == Arrivals(Perform(l, c, clock).history)
  {
    if c.DoRegister? {
      ArrivalsAppend(l.history, Entry(ModelId(c.name, c.version), Registered, Candidate, ""));
    } else {
      var tail := CommandAppendsRecord(l, c, clock);
      NoArrivals(l.history, tail);
      OrderIsKept(l, c, clock);
    }
  }

  lemma OrderIsKept(l: Ledger, c: Command, clock: Clock)
    ensures c.DoRegister? || Perform(l, c, clock).order == l.order
  {
  }

  lemma {:induction false} ListedAsRegistered(commands: seq<Command>, clock: Clock)
    ensures Play(commands, clock).order == Arrivals(Play(commands, clock).history)
  {
    if commands != [] {
      ListedAsRegistered(commands[..|commands| - 1], clock);
      ArrivalIsListed(Play(commands[..|commands| - 1], clock), commands[|commands| - 1], clock);
    }
  }

  // ---------- What activation and rollback do ----------

  /** A command stamps the records it changes, and only those, with a reading it took itself. */
  lemma ChangedIsStamped(l: Ledger, c: Command, clock: Clock, id: string)
    requires id in Perform(l, c, clock).models
    ensures var m := Perform(l, c, clock).models[id];
            (id in l.models && m == l.models[id]) || ReadBetween(clock, l.ticks, m.updatedAt, Perform(l, c, clock).ticks)
  {
    if Outcome(l, c, clock).Ok? {
      if c.DoTransition? {
        if id in l.models { RetireActiveStamps(l, l.order, l.models[c.id], c.id, clock, id); }
        RetireActiveStamps(l, l.order, l.models[c.id], c.id, clock, c.id);
      }
    }
  }

  /** In every reachable ledger, an activation that is carried out retires exactly the other active
      models of the same name and site; all others keep their records. */
  lemma {:induction false} ActivationRetires(commands: seq<Command>, clock: Clock, id: string, other: string)
    requires var l := Play(commands, clock); Outcome(l, DoTransition(id, Active), clock).Ok? && other in l.models && other != id
    ensures var l, next := Play(commands, clock), Play(commands + [DoTransition(id, Active)], clock);
            && id in l.models && id in next.models && next.models[id].state == Active && other in next.models
            && var same := l.models[other].name == l.models[id].name && l.models[other].site == l.models[id].site;
            if same && l.models[other].state == Active then next.models[other].state == Retired
            else next.models[other] == l.models[other]
  {
    var l := Play(commands, clock);
    ReachableLedgersAreSound(commands, clock);
    assert (commands + [DoTransition(id, Active)])[..|commands|] == commands;
    TransitionEffect(l, id, Active, clock, id);
    TransitionEffect(l, id, Active, clock, other);
  }

  /** At most one model of a name and site is active. */
  lemma {:induction false} OneActive(commands: seq<Command>, clock: Clock, a: string, b: string)
    requires var models := Play(commands, clock).models;
             && a in models && b in models && models[a].name == models[b].name && models[a].site == models[b].site
             && models[a].state == Active && models[b].state == Active
    ensures a == b
  {
    ReachableLedgersAreSound(commands, clock);
    assert SameSlot(Play(commands, clock).models[a], Play(commands, clock).models[b]);
  }

  /** In every reachable ledger, a rollback that is carried out puts into service a model of the same name
      and site that was approved or retired, of all these the last updated, and retires the other. */
  lemma RollbackReplaces(commands: seq<Command>, clock: Clock, id: string) returns (target: string)
    requires Outcome(Play(commands, clock), DoRollback(id), clock).Ok?
    ensures var l, next := Play(commands, clock), Play(commands + [DoRollback(id)], clock);
            && CanReplace(l.models, id, target) && id in next.models && target in next.models
            && next.models[id].state == Retired && next.models[target].state == Active
            && (forall x | CanReplace(l.models, id, x) :: l.models[x].updatedAt <= l.models[target].updatedAt)
            && (forall x | x in l.models && x != id && x != target :: x in next.models && next.models[x] == l.models[x])
  {
    var l := Play(commands, clock);
    ReachableLedgersAreSound(commands, clock);
    assert (commands + [DoRollback(id)])[..|commands|] == commands;
    CandidatesCanReplace(l, id);
    target := LatestCandidate(l, id, l.order).value;
    TargetIsLatest(l, id, l.order);
    LatestIsNewest(l, id, target);
  }

  lemma LatestIsNewest(l: Ledger, id: string, target: string)
    requires Listed(l) && exists b :: 0 <= b < |l.order| && l.order[b] == target && IsLatest(l, id, l.order, b)
    ensures forall x | IsCandidate(l, id, x) :: l.models[x].updatedAt <= l.models[target].updatedAt
  {
    var b: nat :| b < |l.order| && l.order[b] == target && IsLatest(l, id, l.order, b);
    forall x | IsCandidate(l, id, x) ensures l.models[x].updatedAt <= l.models[target].updatedAt {
      var c: nat :| c < |l.order| && l.order[c] == x;
    }
  }

  // ---------- What the history says ----------

  predicate Routine(e: Entry) {
    (e.action == Registered || e.action == EvaluatedBy || e.action == Requested) && e.related == ""
  }

  /** Retirements on account of one model. */
  ghost predicate RetirementsFor(tail: seq<Entry>, cause: string) {
    forall i | 0 <= i < |tail| :: tail[i].action == AutoRetired && tail[i].state == Retired && tail[i].related == cause
  }

  /** What one command may append: a routine entry; retirements followed by the activation that caused
      them; or a rollback and its target, each naming the other. */
  ghost predicate OneRecord(tail: seq<Entry>) {
    || tail == []
    || (|tail| == 1 && Routine(tail[0]))
    || (|tail| > 1 && RetirementsFor(tail[..|tail| - 1], tail[|tail| - 1].id) && IsActivation(tail[|tail| - 1]))
    || (|tail| == 2 && IsRollback(tail[0], tail[1]))
  }

  predicate IsActivation(e: Entry) { e == Entry(e.id, Requested, Active, "") }

  predicate IsRollback(e: Entry, f: Entry) {
    e == Entry(e.id, RolledBack, Retired, f.id) && f == Entry(f.id, RollbackTarget, Active, e.id)
  }

  lemma {:induction false} RetirementsAreRecorded(l: Ledger, ids: seq<string>, m: Model, cause: string, clock: Clock) returns (tail: seq<Entry>)
    ensures RetireActive(l, ids, m, cause, clock).history == l.history + tail && RetirementsFor(tail, cause)
  {
    tail := [];
    if ids != [] {
      var n := |ids| - 1;
      var before := RetireActive(l, ids[..n], m, cause, clock);
      tail := RetirementsAreRecorded(l, ids[..n], m, cause, clock);
      if RetireActive(l, ids, m, cause, clock) != before { tail := tail + [Entry(ids[n], AutoRetired, Retired, cause)]; }
    }
  }

  lemma TransitionAppendsRecord(l: Ledger, id: string, target: State, clock: Clock) returns (tail: seq<Entry>)
    requires Transition(l, id, target, clock).Ok?
    ensures Transition(l, id, target, clock).value.history == l.history + tail && OneRecord(tail)
    ensures forall i | 0 <= i < |tail| :: tail[i].action != Registered
  {
    tail := [];
    if target == Active { tail := RetirementsAreRecorded(l, l.order, l.models[id], id, clock); }
    ghost var retired := tail;
    tail := retired + [Entry(id, Requested, target, "")];
    assert tail[..|tail| - 1] == retired;
  }

  lemma CommandAppendsRecord(l: Ledger, c: Command, clock: Clock) returns (tail: seq<Entry>)
    ensures Perform(l, c, clock).history == l.history + tail && OneRecord(tail)
    ensures c.DoRegister? || forall i | 0 <= i < |tail| :: tail[i].action != Registered
  {
    tail := [];
    if Outcome(l, c, clock).Ok? {
      match c
      case DoRegister(name, version, _, _) =>
        if ModelId(name, version) !in l.models { tail := [Entry(ModelId(name, version), Registered, Candidate, "")]; }
      case DoEvaluate(id, _) => tail := [Entry(id, EvaluatedBy, Evaluated, "")];
      case DoTransition(id, target) => tail := TransitionAppendsRecord(l, id, target, clock);
      case DoRollback(id) =>
        var target := LatestCandidate(l, id, l.order).value;
        tail := [Entry(id, RolledBack, Retired, target), Entry(target, RollbackTarget, Active, id)];
    }
  }

  /** The retirement at j is followed by others for the same model only, and then by its activation. */
  ghost predicate ActivatedAt(h: seq<Entry>, j: nat, k: nat) {
    j < k < |h| && RetirementsFor(h[j..k], h[j].related) && h[k] == Entry(h[j].related, Requested, Active, "")
  }

  ghost predicate Explained(h: seq<Entry>, j: nat)
    requires j < |h|
  {
    match h[j].action
    case AutoRetired => exists k :: ActivatedAt(h, j, k)
    case RolledBack => j + 1 < |h| && IsRollback(h[j], h[j + 1])
    case RollbackTarget => j > 0 && IsRollback(h[j - 1], h[j])
    case _ => h[j].related == ""
  }

  lemma ExplainedLater(h: seq<Entry>, tail: seq<Entry>, j: nat)
    requires j < |h| && Explained(h, j)
    ensures Explained(h + tail, j)
  {
    if h[j].action == AutoRetired {
      var k: nat :| ActivatedAt(h, j, k);
      assert (h + tail)[j..k] == h[j..k];
      assert ActivatedAt(h + tail, j, k);
    }
  }

  lemma RecordIsExplained(h: seq<Entry>, tail: seq<Entry>, j: nat)
    requires OneRecord(tail) && |h| <= j < |h| + |tail|
    ensures Explained(h + tail, j)
  {
    var all := h + tail;
    var k := |all| - 1;
    if all[j].action == AutoRetired {
      var retired := tail[..|tail| - 1];
      assert all[j] == retired[j - |h|];
      assert all[j..k] == retired[j - |h|..];
      assert ActivatedAt(all, j, k);
    }
  }

  /** Every automatic retirement is followed by the activation that caused it, every rollback by its
      target; the entries name each other. */
  lemma {:induction false} HistoryIsExplained(commands: seq<Command>, clock: Clock, j: nat)
    requires j < |Play(commands, clock).history|
    ensures Explained(Play(commands, clock).history, j)
  {
    if commands != [] {
      var n := |commands| - 1;
      var before := Play(commands[..n], clock);
      var tail := CommandAppendsRecord(before, commands[n], clock);
      if j < |before.history| {
        HistoryIsExplained(commands[..n], clock, j);
        ExplainedLater(before.history, tail, j);
      } else {
        RecordIsExplained(before.history, tail, j);
      }
    }
  }

  /** The history is append-only. */
  lemma {:induction false} HistoryOnlyGrows(commands: seq<Command>, clock: Clock, k: nat)
    requires k <= |commands|
    ensures Play(commands[..k], clock).history <= Play(commands, clock).history
  {
    if k < |commands| {
      var n := |commands| - 1;
      HistoryOnlyGrows(commands[..n], clock, k);
      assert commands[..n][..k] == commands[..k];
      var _ := CommandAppendsRecord(Play(commands[..n], clock), commands[n], clock);
    } else {
      assert commands[..k] == commands;
    }
  }
}
