/** The foreground supervisor: children, restart history per service and the restart budget. */
module Supervisor {
  import opened Common

  type Name = string
  type Pid = nat

  /** A detected exit: when, of which service, and whether the service was started again. */
  datatype Exit = Exit(at: real, name: Name, restarted: bool)

  type Elapsed = r: real | 0.0 <= r

  /** What the environment does at one exit: which service, the time since the last clock reading,
      a stop signal during the back-off sleep, and whether the new process starts. */
  datatype Turn = Turn(name: Name, elapsed: Elapsed, signalled: bool, launches: bool)

  /** `history[:] = [t for t in history if now - t < window]` */
  function Trim(history: seq<real>, now: real, window: real): seq<real> {
    if history == [] then []
    else
      var last := history[|history| - 1];
      Trim(history[..|history| - 1], now, window) + (if now - last < window then [last] else [])
  }

  /** The exit times of one service, oldest first. */
  function ExitTimes(log: seq<Exit>, name: Name): seq<real> {
    if log == [] then []
    else
      var last := log[|log| - 1];
      ExitTimes(log[..|log| - 1], name) + (if last.name == name then [last.at] else [])
  }

  /** How often a service was started again at a time in [from, to). */
  function Restarts(log: seq<Exit>, name: Name, from: real, to: real): nat {
    if log == [] then 0
    else
      var last := log[|log| - 1];
      Restarts(log[..|log| - 1], name, from, to) +
      (if last.name == name && last.restarted && from <= last.at < to then 1 else 0)
  }

  function RestartsInWindow(log: seq<Exit>, name: Name, from: real, window: real): nat {
    Restarts(log, name, from, from + window)
  }

  /** What is stored for a service: its exits in the window that ends with the last one, and that. */
  function WindowHistory(times: seq<real>, window: real): seq<real> {
    if times == [] then []
    else Trim(times[..|times| - 1], times[|times| - 1], window) + [times[|times| - 1]]
  }

  // ---------- Facts about the trimmed history ----------

  /** Trimming the stored history at a later time gives all exits in the window ending then. */
  lemma {:induction false} TrimNext(times: seq<real>, now: real, window: real)
    requires forall i | 0 <= i < |times| :: times[i] <= now
    ensures Trim(WindowHistory(times, window), now, window) == Trim(times, now, window)
  {
    if times != [] {
      var n := |times| - 1;
      var earlier, last := times[..n], times[n];
      assert earlier + [last] == times;
      TrimAppend(Trim(earlier, last, window), last, now, window);
      TrimAgain(earlier, last, now, window);
      TrimAppend(earlier, last, now, window);
    }
  }

  lemma {:induction false} TrimAgain(ts: seq<real>, earlier: real, now: real, window: real)
    requires earlier <= now
    ensures Trim(Trim(ts, earlier, window), now, window) == Trim(ts, now, window)
  {
    if ts != [] {
      var n := |ts| - 1;
      TrimAgain(ts[..n], earlier, now, window);
      var kept := Trim(ts[..n], earlier, window);
      assert (kept + [ts[n]])[..|kept|] == kept;
      assert kept + [] == kept;
    }
  }

  lemma {:induction false} TrimAppend(ts: seq<real>, t: real, now: real, window: real)
    ensures Trim(ts + [t], now, window) == Trim(ts, now, window) + (if now - t < window then [t] else [])
  {
    assert (ts + [t])[..|ts|] == ts;
  }

  lemma {:induction false} ExitTimesAppend(log: seq<Exit>, e: Exit, name: Name)
    ensures ExitTimes(log + [e], name) == ExitTimes(log, name) + (if e.name == name then [e.at] else [])
  {
    assert (log + [e])[..|log|] == log;
  }

  lemma {:induction false} RestartsAppend(log: seq<Exit>, e: Exit, name: Name, from: real, to: real)
    ensures Restarts(log + [e], name, from, to) ==
            Restarts(log, name, from, to) + (if e.name == name && e.restarted && from <= e.at < to then 1 else 0)
  {
    assert (log + [e])[..|log|] == log;
  }

  /** Restarts in a window that ends no later than `window` after it began are among the exits
      that a trim at any time inside the window keeps. */
  lemma {:induction false} RestartsAreKept(log: seq<Exit>, name: Name, from: real, to: real, now: real, window: real)
    requires now - from < window
    ensures Restarts(log, name, from, to) <= |Trim(ExitTimes(log, name), now, window)|
  {
    if log != [] {
      var n := |log| - 1;
      RestartsAreKept(log[..n], name, from, to, now, window);
      assert log == log[..n] + [log[n]];
      ExitTimesAppend(log[..n], log[n], name);
      TrimAppend(ExitTimes(log[..n], name), log[n].at, now, window);
      assert ExitTimes(log[..n], name) + [] == ExitTimes(log[..n], name);
    }
  }

  // ---------- The budget ----------

  /** Every restart happened while at most `maxRestarts` exits of the service, itself included,
      lay within the window that ends with it. */
  ghost predicate WithinBudget(log: seq<Exit>, window: real, maxRestarts: int) {
    forall i | 0 <= i < |log| :: RestartAllowed(log, i, window, maxRestarts)
  }

  ghost predicate RestartAllowed(log: seq<Exit>, i: nat, window: real, maxRestarts: int)
    requires i < |log|
  {
    log[i].restarted ==> |Trim(ExitTimes(log[..i + 1], log[i].name), log[i].at, window)| <= maxRestarts
  }

  lemma BudgetPrefix(log: seq<Exit>, window: real, maxRestarts: int)
    requires log != [] && WithinBudget(log, window, maxRestarts)
    ensures WithinBudget(log[..|log| - 1], window, maxRestarts)
  {
    var n := |log| - 1;
    forall i | 0 <= i < n ensures RestartAllowed(log[..n], i, window, maxRestarts) {
      assert log[..n][..i + 1] == log[..i + 1];
      assert RestartAllowed(log, i, window, maxRestarts);
    }
  }

  /** In no half-open window of the configured length is a service restarted more often than its
      budget. */
  lemma {:induction false} BudgetHolds(log: seq<Exit>, window: real, maxRestarts: int, name: Name, from: real)
    requires WithinBudget(log, window, maxRestarts)
    ensures RestartsInWindow(log, name, from, window) <= Max(0, maxRestarts)
  {
    if log != [] {
      var n := |log| - 1;
      var last := log[n];
      assert log[..n] + [last] == log;
      RestartsAppend(log[..n], last, name, from, from + window);
      if last.name == name && last.restarted && from <= last.at < from + window {
        assert log[..n + 1] == log;
        assert RestartAllowed(log, n, window, maxRestarts);
        RestartsAreKept(log, name, from, from + window, last.at, window);
      } else {
        BudgetPrefix(log, window, maxRestarts);
        BudgetHolds(log[..n], window, maxRestarts, name, from);
      }
    }
  }

  // ---------- The supervisor's state ----------

  ghost predicate Timely(log: seq<Exit>, now: real) {
    forall i | 0 <= i < |log| :: log[i].at <= now
  }

  /** Every stored history is the exits of its service in the window ending with the last one. */
  ghost predicate Tracked(log: seq<Exit>, histories: map<Name, seq<real>>, window: real) {
    forall name | name in histories :: histories[name] == WindowHistory(ExitTimes(log, name), window)
  }

  /** Children and supervised processes correspond one to one. */
  ghost predicate Paired(children: map<Name, Pid>, alive: map<Pid, Name>, nextPid: Pid) {
    && (forall name | name in children :: children[name] in alive && alive[children[name]] == name)
    && (forall pid | pid in alive :: alive[pid] in children && children[alive[pid]] == pid && pid < nextPid)
  }

  lemma {:induction false} ExitTimesBounded(log: seq<Exit>, name: Name, now: real)
    requires forall i | 0 <= i < |log| :: log[i].at <= now
    ensures forall i | 0 <= i < |ExitTimes(log, name)| :: ExitTimes(log, name)[i] <= now
  {
    if log != [] { ExitTimesBounded(log[..|log| - 1], name, now); }
  }

  /** Trimming, then appending the new exit, keeps every stored history right. */
  lemma {:induction false} ExitIsTracked(log: seq<Exit>, histories: map<Name, seq<real>>, window: real, e: Exit)
    requires Tracked(log, histories, window) && Timely(log, e.at) && e.name in histories
    ensures Tracked(log + [e], histories[e.name := Trim(histories[e.name], e.at, window) + [e.at]], window)
    ensures Trim(histories[e.name], e.at, window) == Trim(ExitTimes(log, e.name), e.at, window)
  {
    var next := histories[e.name := Trim(histories[e.name], e.at, window) + [e.at]];
    ExitTimesBounded(log, e.name, e.at);
    TrimNext(ExitTimes(log, e.name), e.at, window);
    forall name | name in next ensures next[name] == WindowHistory(ExitTimes(log + [e], name), window) {
      ExitTimesAppend(log, e, name);
      var times := ExitTimes(log, name);
      assert (times + [e.at])[..|times|] == times && times + [] == times;
    }
  }

  lemma TimelyAppend(log: seq<Exit>, e: Exit)
    requires Timely(log, e.at)
    ensures Timely(log + [e], e.at)
  {
  }

  lemma {:induction false} BudgetAppend(log: seq<Exit>, e: Exit, window: real, maxRestarts: int)
    requires WithinBudget(log, window, maxRestarts)
    requires e.restarted ==> |Trim(ExitTimes(log, e.name), e.at, window)| + 1 <= maxRestarts
    ensures WithinBudget(log + [e], window, maxRestarts)
  {
    var longer := log + [e];
    forall i | 0 <= i < |longer| ensures RestartAllowed(longer, i, window, maxRestarts) {
      if i < |log| {
        assert longer[..i + 1] == log[..i + 1];
        assert RestartAllowed(log, i, window, maxRestarts);
      } else {
        assert longer[..i + 1] == log + [e];
        ExitTimesAppend(log, e, e.name);
        TrimAppend(ExitTimes(log, e.name), e.at, e.at, window);
      }
    }
  }

  // ---------- The transitions of the state ----------

  /** `log` and `alive` are what an observer sees; the other fields are the supervisor's own. */
  datatype State = State(children: map<Name, Pid>, childOrder: seq<Name>, histories: map<Name, seq<real>>, stopRequested: bool, exitCode: int,
                         now: real, nextPid: Pid, log: seq<Exit>, alive: map<Pid, Name>)

  function Without(order: seq<Name>, name: Name): seq<Name> {
    if order == [] then []
    else Without(order[..|order| - 1], name) + (if order[|order| - 1] == name then [] else [order[|order| - 1]])
  }

  /** The keys of a dictionary in the order of their insertion. */
  ghost predicate Listed(order: seq<Name>, children: map<Name, Pid>) {
    && (forall i, j | 0 <= i < j < |order| :: order[i] != order[j])
    && forall name :: name in order <==> name in children
  }

  lemma {:induction false} WithoutElements(order: seq<Name>, name: Name)
    requires forall i, j | 0 <= i < j < |order| :: order[i] != order[j]
    ensures forall x :: x in Without(order, name) <==> x in order && x != name
    ensures forall i, j | 0 <= i < j < |Without(order, name)| :: Without(order, name)[i] != Without(order, name)[j]
  {
    if order != [] {
      var n := |order| - 1;
      WithoutElements(order[..n], name);
      assert order == order[..n] + [order[n]] && order[n] !in order[..n];
    }
  }

  function Launched(s: State, name: Name, starts: bool): State {
    if starts then s.(children := s.children[name := s.nextPid], alive := s.alive[s.nextPid := name], nextPid := s.nextPid + 1,
                      childOrder := if name in s.children then s.childOrder else s.childOrder + [name])
    else s.(exitCode := 1, stopRequested := true)
  }

  function Reaped(s: State, name: Name): State
    requires name in s.children
  {
    s.(children := s.children - {name}, childOrder := Without(s.childOrder, name), alive := s.alive - {s.children[name]})
  }

  /** The history of the service after an exit at time `now`. */
  function HistoryAfter(s: State, name: Name, now: real, window: real): seq<real>
    requires name in s.histories
  {
    Trim(s.histories[name], now, window) + [now]
  }

  function Restarted(s: State, t: Turn, window: real, maxRestarts: int): bool
    requires t.name in s.histories
  {
    |HistoryAfter(s, t.name, s.now + t.elapsed, window)| <= maxRestarts && !s.stopRequested && !t.signalled && t.launches
  }

  /** The clock advances, the history is trimmed and extended, the exit becomes known. */
  function Counted(s: State, t: Turn, window: real, maxRestarts: int): State
    requires t.name in s.histories
  {
    var now := s.now + t.elapsed;
    s.(now := now, histories := s.histories[t.name := HistoryAfter(s, t.name, now, window)],
       log := s.log + [Exit(now, t.name, Restarted(s, t, window, maxRestarts))])
  }

  /** One exit: over budget the supervision ends; otherwise the service is started again unless a
      stop was requested before the end of the back-off. */
  function AfterExit(s: State, t: Turn, window: real, maxRestarts: int): State
    requires t.name in s.children && t.name in s.histories
  {
    var counted := Counted(Reaped(s, t.name), t, window, maxRestarts);
    if |counted.histories[t.name]| > maxRestarts then counted.(exitCode := 1, stopRequested := true)
    else if s.stopRequested || t.signalled then counted.(stopRequested := true)
    else Launched(counted, t.name, t.launches)
  }

  /** An exit over budget and a failed start cut the pass short; a stop signal does not. */
  predicate Breaks(s: State, t: Turn, window: real, maxRestarts: int)
    requires t.name in s.histories
  {
    |HistoryAfter(s, t.name, s.now + t.elapsed, window)| > maxRestarts || (!s.stopRequested && !t.signalled && !t.launches)
  }

  /** One pass over the children: exits of services without a child are passed over. */
  function Swept(s: State, exits: seq<Turn>, window: real, maxRestarts: int): State
    decreases |exits|
  {
    if exits == [] then s
    else if exits[0].name !in s.children || exits[0].name !in s.histories then Swept(s, exits[1..], window, maxRestarts)
    else
      var next := AfterExit(s, exits[0], window, maxRestarts);
      if Breaks(s, exits[0], window, maxRestarts) then next else Swept(next, exits[1..], window, maxRestarts)
  }

  /** Passes are made while there are children and no stop is requested. */
  function Passed(s: State, script: seq<seq<Turn>>, window: real, maxRestarts: int): State
    decreases |script|
  {
    if script == [] || s.children == map[] || s.stopRequested then s
    else Passed(Swept(s, script[0], window, maxRestarts), script[1..], window, maxRestarts)
  }

  predicate Works(starts: map<Name, bool>, name: Name) { name in starts && starts[name] }

  /** The services are started in order, up to the first that does not start. */
  function Started(s: State, order: seq<Name>, starts: map<Name, bool>): State
    decreases |order|
  {
    if order == [] then s
    else if !Works(starts, order[0]) then Launched(s, order[0], false)
    else Started(Launched(s, order[0], true), order[1..], starts)
  }

  ghost predicate Sound(s: State, window: real, maxRestarts: int) {
    && Accounted(s.log, s.histories, s.now, window, maxRestarts)
    && Paired(s.children, s.alive, s.nextPid)
    && Listed(s.childOrder, s.children)
    && s.children.Keys <= s.histories.Keys
  }

  lemma LaunchKeepsListed(s: State, name: Name, starts: bool)
    requires Listed(s.childOrder, s.children) && name !in s.children
    ensures Listed(Launched(s, name, starts).childOrder, Launched(s, name, starts).children)
  {
    assert name !in s.childOrder;
  }

  lemma ReapKeepsListed(s: State, name: Name)
    requires Listed(s.childOrder, s.children) && name in s.children
    ensures Listed(Reaped(s, name).childOrder, Reaped(s, name).children)
  {
    WithoutElements(s.childOrder, name);
  }

  lemma ExitKeepsListed(s: State, t: Turn, window: real, maxRestarts: int)
    requires Listed(s.childOrder, s.children) && t.name in s.children && t.name in s.histories
    ensures var r := AfterExit(s, t, window, maxRestarts);
            Listed(r.childOrder, r.children)
  {
    ReapKeepsListed(s, t.name);
    LaunchKeepsListed(Counted(Reaped(s, t.name), t, window, maxRestarts), t.name, t.launches);
  }

  lemma LaunchKeepsPairs(s: State, name: Name, starts: bool)
    requires Paired(s.children, s.alive, s.nextPid) && name !in s.children
    ensures Paired(Launched(s, name, starts).children, Launched(s, name, starts).alive, Launched(s, name, starts).nextPid)
  {
  }

  lemma LaunchKeepsSound(s: State, name: Name, starts: bool, window: real, maxRestarts: int)
    requires Sound(s, window, maxRestarts) && name !in s.children && name in s.histories
    ensures Sound(Launched(s, name, starts), window, maxRestarts)
    ensures Launched(s, name, starts).children.Keys == s.children.Keys + if starts then {name} else {}
  {
    LaunchKeepsPairs(s, name, starts);
    LaunchKeepsListed(s, name, starts);
  }

  lemma ReapKeepsPairs(s: State, name: Name)
    requires Paired(s.children, s.alive, s.nextPid) && name in s.children
    ensures Paired(Reaped(s, name).children, Reaped(s, name).alive, s.nextPid)
  {
  }

  lemma {:induction false} CountKeepsBudget(log: seq<Exit>, histories: map<Name, seq<real>>, e: Exit, window: real, maxRestarts: int)
    requires Timely(log, e.at) && e.name in histories
    requires WithinBudget(log, window, maxRestarts) && Tracked(log, histories, window)
    requires e.restarted ==> |Trim(histories[e.name], e.at, window) + [e.at]| <= maxRestarts
    ensures Timely(log + [e], e.at) && WithinBudget(log + [e], window, maxRestarts)
    ensures Tracked(log + [e], histories[e.name := Trim(histories[e.name], e.at, window) + [e.at]], window)
  {
    ExitIsTracked(log, histories, window, e);
    BudgetAppend(log, e, window, maxRestarts);
    TimelyAppend(log, e);
  }

  /** The exit as an observer sees it. */
  function ExitOf(s: State, t: Turn, window: real, maxRestarts: int): Exit
    requires t.name in s.histories
  {
    Exit(s.now + t.elapsed, t.name, Restarted(s, t, window, maxRestarts))
  }

  lemma {:induction false} ExitIsLogged(s: State, t: Turn, window: real, maxRestarts: int)
    requires t.name in s.children && t.name in s.histories
    ensures var r, e := AfterExit(s, t, window, maxRestarts), ExitOf(s, t, window, maxRestarts);
            && r.now == e.at && r.log == s.log + [e]
            && r.histories == s.histories[e.name := Trim(s.histories[e.name], e.at, window) + [e.at]]
  {
  }

  lemma TimelyLater(log: seq<Exit>, now: real, later: real)
    requires Timely(log, now) && now <= later
    ensures Timely(log, later)
  {
  }

  /** The part of soundness that speaks of exits: no exit lies in the future, the budget was kept,
      and every stored history is right. */
  ghost predicate Accounted(log: seq<Exit>, histories: map<Name, seq<real>>, now: real, window: real, maxRestarts: int) {
    Timely(log, now) && WithinBudget(log, window, maxRestarts) && Tracked(log, histories, window)
  }

  lemma {:induction false} CountKeepsAccount(log: seq<Exit>, histories: map<Name, seq<real>>, now: real, e: Exit, window: real, maxRestarts: int)
    requires Accounted(log, histories, now, window, maxRestarts) && now <= e.at && e.name in histories
    requires e.restarted ==> |Trim(histories[e.name], e.at, window) + [e.at]| <= maxRestarts
    ensures Accounted(log + [e], histories[e.name := Trim(histories[e.name], e.at, window) + [e.at]], e.at, window, maxRestarts)
  {
    TimelyLater(log, now, e.at);
    CountKeepsBudget(log, histories, e, window, maxRestarts);
  }

  /** Every exit keeps the budget and the stored histories. */
  lemma ExitKeepsBudget(s: State, t: Turn, window: real, maxRestarts: int)
    requires Accounted(s.log, s.histories, s.now, window, maxRestarts)
    requires t.name in s.children && t.name in s.histories
    ensures var r := AfterExit(s, t, window, maxRestarts);
            Accounted(r.log, r.histories, r.now, window, maxRestarts) && r.histories.Keys == s.histories.Keys
  {
    ExitIsLogged(s, t, window, maxRestarts);
    CountKeepsAccount(s.log, s.histories, s.now, ExitOf(s, t, window, maxRestarts), window, maxRestarts);
  }

  /** The service runs again exactly when the exit counts as restarted, supervision goes on exactly
      then, and no other child is touched. */
  lemma ExitKeepsPairs(s: State, t: Turn, window: real, maxRestarts: int)
    requires Paired(s.children, s.alive, s.nextPid)
    requires t.name in s.children && t.name in s.histories
    ensures var r := AfterExit(s, t, window, maxRestarts);
            && Paired(r.children, r.alive, r.nextPid)
            && (t.name in r.children <==> Restarted(s, t, window, maxRestarts))
            && (r.stopRequested <==> t.name !in r.children)
            && r.children - {t.name} == s.children - {t.name}
  {
    ReapKeepsPairs(s, t.name);
    LaunchKeepsPairs(Counted(Reaped(s, t.name), t, window, maxRestarts), t.name, t.launches);
  }

  lemma ExitKeepsSound(s: State, t: Turn, window: real, maxRestarts: int)
    requires Sound(s, window, maxRestarts) && t.name in s.children
    ensures t.name in s.histories
    ensures Sound(AfterExit(s, t, window, maxRestarts), window, maxRestarts)
  {
    ExitKeepsBudget(s, t, window, maxRestarts);
    ExitKeepsPairs(s, t, window, maxRestarts);
    ExitKeepsListed(s, t, window, maxRestarts);
    var r := AfterExit(s, t, window, maxRestarts);
    assert r.children - {t.name} == s.children - {t.name};
    forall name | name in r.children ensures name in r.histories {
      if name != t.name { assert name in r.children - {t.name}; }
    }
  }

  /** Exactly the children from a position on are still running. */
  ghost predicate RunningFrom(order: seq<Name>, children: map<Name, Pid>, alive: map<Pid, Name>, from: nat) {
    && Listed(order, children)
    && (forall k | 0 <= k < |order| :: order[k] in children && (children[order[k]] in alive <==> from <= k))
    && (forall k | from <= k < |order| :: alive[children[order[k]]] == order[k])
    && forall pid | pid in alive :: alive[pid] in children && children[alive[pid]] == pid
  }

  lemma EndNext(order: seq<Name>, children: map<Name, Pid>, alive: map<Pid, Name>, i: nat)
    requires i < |order| && RunningFrom(order, children, alive, i)
    ensures order[i] in children && RunningFrom(order, children, alive - {children[order[i]]}, i + 1)
  {
    assert forall k | i < k < |order| :: order[k] != order[i];
  }

  lemma RunningAreListed(order: seq<Name>, children: map<Name, Pid>, alive: map<Pid, Name>, from: nat)
    requires RunningFrom(order, children, alive, from)
    ensures alive != map[] ==> from < |order|
  {
    if alive != map[] {
      var pid :| pid in alive;
      assert alive[pid] in order;
    }
  }

  ghost predicate StartedUpTo(started: set<Name>, order: seq<Name>, n: nat)
    requires n <= |order|
  {
    (forall k | 0 <= k < n :: order[k] in started) && forall k | n <= k < |order| :: order[k] !in started
  }

  lemma StartedGrows(started: set<Name>, order: seq<Name>, n: nat)
    requires n < |order| && StartedUpTo(started, order, n)
    requires forall i, j | 0 <= i < j < |order| :: order[i] != order[j]
    ensures StartedUpTo(started + {order[n]}, order, n + 1)
  {
  }

  // ---------- The supervisor ----------

  class Supervisor {
    const window: real
    const maxRestarts: int
    var children: map<Name, Pid>
    var childOrder: seq<Name>                     // the insertion order of `children`
    var restartHistory: map<Name, seq<real>>
    var stopRequested: bool
    var exitCode: int
    var now: real
    var nextPid: Pid
    ghost var log: seq<Exit>
    ghost var alive: map<Pid, Name>

    ghost function Contents(): State
      reads this
    {
      State(children, childOrder, restartHistory, stopRequested, exitCode, now, nextPid, log, alive)
    }

    ghost predicate Valid()
      reads this
    {
      Sound(Contents(), window, maxRestarts)
    }

    constructor (order: seq<Name>, window: real, maxRestarts: int)
      ensures Valid() && children == map[] && alive == map[] && childOrder == [] && log == [] && !stopRequested && exitCode == 0
      ensures nextPid == 0 && now == 0.0
      ensures restartHistory.Keys == (set name | name in order)
      ensures this.window == window && this.maxRestarts == maxRestarts
    {
      this.window, this.maxRestarts := window, maxRestarts;
      children, childOrder, alive, log, nextPid, now := map[], [], map[], [], 0, 0.0;
      restartHistory := map name | name in order :: [];
      stopRequested, exitCode := false, 0;
    }

    method Launch(name: Name, starts: bool) returns (ok: bool)
      modifies this`children, this`childOrder, this`alive, this`nextPid, this`exitCode, this`stopRequested
      ensures Contents() == Launched(old(Contents()), name, starts) && ok == starts
    {
      ok := starts;
      if ok {
        if name !in children { childOrder := childOrder + [name]; }
        children := children[name := nextPid];
        alive := alive[nextPid := name];
        nextPid := nextPid + 1;
      } else {
        exitCode, stopRequested := 1, true;
      }
    }

    method Reap(name: Name)
      requires name in children
      modifies this`children, this`childOrder, this`alive
      ensures Contents() == Reaped(old(Contents()), name)
    {
      alive := alive - {children[name]};
      children, childOrder := children - {name}, Without(childOrder, name);
    }

    /** The body of the supervision loop for a child whose process has ended. */
    method HandleExit(t: Turn) returns (broken: bool)
      requires t.name in children && t.name in restartHistory
      modifies this
      ensures Contents() == AfterExit(old(Contents()), t, window, maxRestarts)
      ensures broken <==> Breaks(old(Contents()), t, window, maxRestarts)
    {
      var name := t.name;
      Reap(name);
      now := now + t.elapsed;
      var history := Trim(restartHistory[name], now, window);
      history := history + [now];
      restartHistory := restartHistory[name := history];
      log := log + [Exit(now, name, |history| <= maxRestarts && !stopRequested && !t.signalled && t.launches)];
      if |history| > maxRestarts {
        exitCode, stopRequested := 1, true;
        return true;
      }
      stopRequested := stopRequested || t.signalled;
      if stopRequested { return false; }
      var ok := Launch(name, t.launches);
      broken := !ok;
    }

    /** The loop over the start order; it stops at the first service that does not start. */
    method StartAll(order: seq<Name>, starts: map<Name, bool>)
      requires Valid() && children == map[] && !stopRequested
      requires forall i, j | 0 <= i < j < |order| :: order[i] != order[j]
      requires forall name | name in order :: name in restartHistory
      modifies this`children, this`childOrder, this`alive, this`nextPid, this`exitCode, this`stopRequested
      ensures Valid() && Contents() == Started(old(Contents()), order, starts)
      ensures stopRequested <==> exists name :: name in order && !Works(starts, name)
      ensures forall k | 0 <= k < |order| :: order[k] in children <==> forall j | 0 <= j <= k :: Works(starts, order[j])
      ensures stopRequested ==> exitCode == 1
    {
      for i := 0 to |order|
        invariant Valid() && !stopRequested
        invariant StartedUpTo(children.Keys, order, i) && forall k | 0 <= k < i :: Works(starts, order[k])
        invariant Started(old(Contents()), order, starts) == Started(Contents(), order[i..], starts)
      {
        var name := order[i];
        var works := Works(starts, name);
        assert order[i..][0] == name && order[i..][1..] == order[i + 1..];
        LaunchKeepsSound(Contents(), name, works, window, maxRestarts);
        StartedGrows(children.Keys, order, i);
        var ok := Launch(name, works);
        if !ok { return; }
      }
    }

    /** One pass over the children; `exits` are those found ended, in the order of the pass. A stop
        signal does not cut the pass short; an exceeded budget or a failed start does. */
    method Sweep(exits: seq<Turn>)
      requires Valid()
      modifies this
      ensures Valid() && Contents() == Swept(old(Contents()), exits, window, maxRestarts)
    {
      for i := 0 to |exits|
        invariant Valid()
        invariant Swept(old(Contents()), exits, window, maxRestarts) == Swept(Contents(), exits[i..], window, maxRestarts)
      {
        assert exits[i..][0] == exits[i] && exits[i..][1..] == exits[i + 1..];
        if exits[i].name in children {
          ExitKeepsSound(Contents(), exits[i], window, maxRestarts);
          var broken := HandleExit(exits[i]);
          if broken { return; }
        }
      }
    }

    /** Terminates the remaining children in their order; `stubborn` are the services whose process does not
        end even after the kill. There the wait raises: the children before it are ended, it and all later
        ones are left running. */
    method Shutdown(stubborn: set<Name>) returns (ended: nat)
      requires Paired(children, alive, nextPid) && Listed(childOrder, children)
      modifies this`children, this`childOrder, this`alive
      ensures ended <= |old(childOrder)| && forall k | 0 <= k < ended :: old(childOrder)[k] !in stubborn
      ensures ended < |old(childOrder)| ==> old(childOrder)[ended] in stubborn
      ensures forall k | 0 <= k < |old(childOrder)| ::
                old(childOrder)[k] in old(children) && (old(children)[old(childOrder)[k]] in alive <==> ended <= k)
      ensures if ended < |old(childOrder)| then children == old(children) && childOrder == old(childOrder)
              else children == map[] && childOrder == [] && alive == map[]
    {
      for i := 0 to |childOrder|
        invariant children == old(children) && childOrder == old(childOrder)
        invariant RunningFrom(childOrder, children, alive, i)
        invariant forall k | 0 <= k < i :: childOrder[k] !in stubborn
      {
        if childOrder[i] in stubborn { return i; }
        EndNext(childOrder, children, alive, i);
        alive := alive - {children[childOrder[i]]};
      }
      RunningAreListed(childOrder, children, alive, |childOrder|);
      ended := |childOrder|;
      children, childOrder := map[], [];
    }

    /** The scripted passes, while there are children and no stop is requested. */
    method Watch(script: seq<seq<Turn>>)
      requires Valid()
      modifies this
      ensures Valid() && Contents() == Passed(old(Contents()), script, window, maxRestarts)
    {
      var pass := 0;
      while children != map[] && !stopRequested && pass < |script|
        invariant Valid() && pass <= |script|
        invariant Passed(old(Contents()), script, window, maxRestarts) == Passed(Contents(), script[pass..], window, maxRestarts)
        decreases |script| - pass
      {
        assert script[pass..][0] == script[pass] && script[pass..][1..] == script[pass + 1..];
        Sweep(script[pass]);
        pass := pass + 1;
      }
    }

    /** The whole supervision, ended by a stop, by the last child leaving, or by an interrupt after
        the scripted passes. No service was ever restarted more often than its budget within any window,
        and nothing is left running unless a process outlives its kill. */
    method Supervise(order: seq<Name>, starts: map<Name, bool>, script: seq<seq<Turn>>, stubborn: set<Name>) returns (ended: nat)
      requires Valid() && children == map[] && !stopRequested
      requires forall i, j | 0 <= i < j < |order| :: order[i] != order[j]
      requires forall name | name in order :: name in restartHistory
      modifies this
      ensures Contents() == Passed(Started(old(Contents()), order, starts), script, window, maxRestarts)
                              .(children := children, childOrder := childOrder, alive := alive)
      ensures children == map[] ==> alive == map[]
      ensures children != map[] ==>
                && Listed(childOrder, children) && ended < |childOrder| && childOrder[ended] in stubborn
                && forall k | 0 <= k < |childOrder| :: childOrder[k] in children && (children[childOrder[k]] in alive <==> ended <= k)
      ensures forall name, from :: RestartsInWindow(log, name, from, window) <= Max(0, maxRestarts)
    {
      StartAll(order, starts);
      Watch(script);
      forall name, from ensures RestartsInWindow(log, name, from, window) <= Max(0, maxRestarts) {
        BudgetHolds(log, window, maxRestarts, name, from);
      }
      ended := Shutdown(stubborn);
    }
  }
}
