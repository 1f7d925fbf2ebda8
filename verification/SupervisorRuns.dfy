/** What an observer sees of a supervision: the exits, their times and what became of them, told from the
    script alone. */
module SupervisorRuns {
  import opened Common
  import opened Supervisor

  // ---------- Starting ----------

  /** How many services at the front of the order start. */
  ghost predicate StartUpTo(order: seq<Name>, starts: map<Name, bool>, n: nat) {
    && n <= |order| && (forall k | 0 <= k < n :: order[k] in starts && starts[order[k]])
    && (n < |order| ==> !(order[n] in starts && starts[order[n]]))
  }

  /** Services named once each, none of them running. */
  ghost predicate AllNew(children: map<Name, Pid>, order: seq<Name>) {
    (forall i, j | 0 <= i < j < |order| :: order[i] != order[j]) && forall k | 0 <= k < |order| :: order[k] !in children
  }

  lemma NextIsNew(children: map<Name, Pid>, order: seq<Name>, pid: Pid, starts: map<Name, bool>, n: nat)
    requires 0 < n <= |order| && AllNew(children, order) && StartUpTo(order, starts, n)
    ensures AllNew(children[order[0] := pid], order[1..]) && StartUpTo(order[1..], starts, n - 1)
    ensures order[..n] == [order[0]] + order[1..][..n - 1]
    ensures order[0] in starts && starts[order[0]] && order[0] !in children
  {
  }

  /** The services before the first that does not start get children, in that order and under consecutive
      process numbers; supervision stops at once, with exit code 1, exactly when there is such a one. */
  lemma {:induction false} StartStopsAtFirstFailure(s: State, order: seq<Name>, starts: map<Name, bool>, n: nat)
    requires StartUpTo(order, starts, n) && AllNew(s.children, order) && !s.stopRequested
    ensures var r := Started(s, order, starts);
            && (r.stopRequested <==> n < |order|) && r.exitCode == (if n < |order| then 1 else s.exitCode)
            && r.childOrder == s.childOrder + order[..n] && r.nextPid == s.nextPid + n
            && r.log == s.log && r.now == s.now && r.histories == s.histories
    decreases |order|
  {
    if n > 0 {
      NextIsNew(s.children, order, s.nextPid, starts, n);
      StartStopsAtFirstFailure(Launched(s, order[0], true), order[1..], starts, n - 1);
    }
  }

  lemma {:induction false} StartKeepsSound(s: State, order: seq<Name>, starts: map<Name, bool>, window: real, maxRestarts: int, n: nat)
    requires Sound(s, window, maxRestarts) && AllNew(s.children, order) && StartUpTo(order, starts, n)
    requires forall k | 0 <= k < |order| :: order[k] in s.histories
    ensures Sound(Started(s, order, starts), window, maxRestarts)
    decreases |order|
  {
    if n > 0 {
      NextIsNew(s.children, order, s.nextPid, starts, n);
      LaunchKeepsSound(s, order[0], true, window, maxRestarts);
      assert forall k | 0 <= k < |order| - 1 :: order[1..][k] == order[k + 1];
      StartKeepsSound(Launched(s, order[0], true), order[1..], starts, window, maxRestarts, n - 1);
    } else if order != [] {
      LaunchKeepsSound(s, order[0], false, window, maxRestarts);
    }
  }

  // ---------- The observer ----------

  /** The exits so far, the time of the last, and whether a pass was cut short. */
  datatype Seen = Seen(log: seq<Exit>, now: real, failed: bool)

  const NOTHING := Seen([], 0.0, false)

  /** A service runs until an exit of it is not followed by a restart. */
  predicate Up(services: set<Name>, log: seq<Exit>, name: Name) {
    name in services && forall i | 0 <= i < |log| && log[i].name == name :: log[i].restarted
  }

  predicate Stopped(log: seq<Exit>) { exists i :: 0 <= i < |log| && !log[i].restarted }

  /** The exits of one service less than a window before a time. */
  function Recent(log: seq<Exit>, name: Name, at: real, window: real): nat {
    if log == [] then 0
    else
      var last := log[|log| - 1];
      Recent(log[..|log| - 1], name, at, window) + if last.name == name && at - last.at < window then 1 else 0
  }

  predicate Affordable(log: seq<Exit>, name: Name, at: real, window: real, maxRestarts: int) {
    Recent(log, name, at, window) + 1 <= maxRestarts
  }

  /** One exit: the service runs on when the budget allows it, nothing has stopped, no signal comes and the new
      process starts. */
  function Noticed(w: Seen, t: Turn, window: real, maxRestarts: int): Seen {
    var at := w.now + t.elapsed;
    var affordable := Affordable(w.log, t.name, at, window, maxRestarts);
    var wanted := !Stopped(w.log) && !t.signalled;
    Seen(w.log + [Exit(at, t.name, affordable && wanted && t.launches)], at, !affordable || (wanted && !t.launches))
  }

  /** One pass: the turns of running services, up to an exit over budget or a failed start. */
  function SeenInPass(services: set<Name>, w: Seen, turns: seq<Turn>, window: real, maxRestarts: int): Seen
    decreases |turns|
  {
    if turns == [] || w.failed then w
    else if !Up(services, w.log, turns[0].name) then SeenInPass(services, w, turns[1..], window, maxRestarts)
    else SeenInPass(services, Noticed(w, turns[0], window, maxRestarts), turns[1..], window, maxRestarts)
  }

  /** The passes up to the first in which something stopped. */
  function SeenInAll(services: set<Name>, w: Seen, script: seq<seq<Turn>>, window: real, maxRestarts: int): Seen
    decreases |script|
  {
    if script == [] || Stopped(w.log) then w
    else SeenInAll(services, SeenInPass(services, w, script[0], window, maxRestarts), script[1..], window, maxRestarts)
  }

  function RestartCount(log: seq<Exit>): nat {
    if log == [] then 0 else RestartCount(log[..|log| - 1]) + if log[|log| - 1].restarted then 1 else 0
  }

  // ---------- The supervisor shows the observer exactly that ----------

  ghost predicate Shows(s: State, services: set<Name>, w: Seen) {
    && s.log == w.log && s.now == w.now && s.exitCode == (if w.failed then 1 else 0)
    && (s.stopRequested <==> Stopped(w.log)) && (w.failed ==> Stopped(w.log))
    && (forall name :: name in s.children <==> Up(services, w.log, name))
    && s.nextPid == |services| + RestartCount(w.log)
  }

  lemma {:induction false} RecentIsTrimmed(log: seq<Exit>, name: Name, at: real, window: real)
    ensures Recent(log, name, at, window) == |Trim(ExitTimes(log, name), at, window)|
  {
    if log != [] {
      var n := |log| - 1;
      RecentIsTrimmed(log[..n], name, at, window);
      TrimAppend(ExitTimes(log[..n], name), log[n].at, at, window);
      assert ExitTimes(log[..n], name) + [] == ExitTimes(log[..n], name);
    }
  }

  lemma {:induction false} UpAppend(services: set<Name>, log: seq<Exit>, e: Exit, name: Name)
    ensures Up(services, log + [e], name) <==> Up(services, log, name) && (e.name == name ==> e.restarted)
    ensures Stopped(log + [e]) <==> Stopped(log) || !e.restarted
    ensures RestartCount(log + [e]) == RestartCount(log) + if e.restarted then 1 else 0
  {
    var longer := log + [e];
    assert longer[..|log|] == log && longer[|log|] == e;
    assert forall i | 0 <= i < |log| :: longer[i] == log[i];
  }

  /** The stored history allows a restart exactly when the exits seen do. */
  lemma BudgetIsSeen(s: State, t: Turn, window: real, maxRestarts: int)
    requires Accounted(s.log, s.histories, s.now, window, maxRestarts) && t.name in s.histories
    ensures |HistoryAfter(s, t.name, s.now + t.elapsed, window)| <= maxRestarts <==>
            Affordable(s.log, t.name, s.now + t.elapsed, window, maxRestarts)
  {
    var at := s.now + t.elapsed;
    TimelyLater(s.log, s.now, at);
    ExitIsTracked(s.log, s.histories, window, Exit(at, t.name, true));
    RecentIsTrimmed(s.log, t.name, at, window);
  }

  /** What an exit does to the numbers an observer can check. */
  lemma ExitNumbers(s: State, t: Turn, window: real, maxRestarts: int)
    requires t.name in s.children && t.name in s.histories
    ensures var r := AfterExit(s, t, window, maxRestarts);
            && r.exitCode == (if Breaks(s, t, window, maxRestarts) then 1 else s.exitCode)
            && r.nextPid == s.nextPid + if Restarted(s, t, window, maxRestarts) then 1 else 0
  {
  }

  lemma ExitChildren(s: State, t: Turn, window: real, maxRestarts: int, name: Name)
    requires Paired(s.children, s.alive, s.nextPid) && t.name in s.children && t.name in s.histories
    ensures name in AfterExit(s, t, window, maxRestarts).children <==>
            if name == t.name then Restarted(s, t, window, maxRestarts) else name in s.children
  {
    ExitKeepsPairs(s, t, window, maxRestarts);
    var r := AfterExit(s, t, window, maxRestarts);
    if name != t.name {
      assert name in r.children <==> name in r.children - {t.name};
      assert name in s.children <==> name in s.children - {t.name};
    }
  }

  /** The exit is restarted, and cuts the pass short, exactly when the observer says so. */
  lemma ExitIsNoticed(s: State, w: Seen, t: Turn, window: real, maxRestarts: int)
    requires Accounted(s.log, s.histories, s.now, window, maxRestarts) && t.name in s.histories
    requires s.log == w.log && s.now == w.now && (s.stopRequested <==> Stopped(w.log))
    ensures var v := Noticed(w, t, window, maxRestarts);
            && v.log == w.log + [ExitOf(s, t, window, maxRestarts)] && v.now == s.now + t.elapsed
            && (v.failed <==> Breaks(s, t, window, maxRestarts))
  {
    BudgetIsSeen(s, t, window, maxRestarts);
  }

  lemma ExitShows(s: State, services: set<Name>, w: Seen, t: Turn, window: real, maxRestarts: int)
    requires Shows(s, services, w) && Sound(s, window, maxRestarts) && t.name in s.children && t.name in s.histories && !w.failed
    ensures Shows(AfterExit(s, t, window, maxRestarts), services, Noticed(w, t, window, maxRestarts))
    ensures Breaks(s, t, window, maxRestarts) <==> Noticed(w, t, window, maxRestarts).failed
  {
    var r, v, e := AfterExit(s, t, window, maxRestarts), Noticed(w, t, window, maxRestarts), ExitOf(s, t, window, maxRestarts);
    ExitIsNoticed(s, w, t, window, maxRestarts);
    ExitIsLogged(s, t, window, maxRestarts);
    ExitKeepsPairs(s, t, window, maxRestarts);
    ExitNumbers(s, t, window, maxRestarts);
    ExitChildren(s, t, window, maxRestarts, t.name);
    UpAppend(services, w.log, e, t.name);
    forall name ensures name in r.children <==> Up(services, v.log, name) {
      UpAppend(services, w.log, e, name);
      ExitChildren(s, t, window, maxRestarts, name);
    }
  }

  lemma {:induction false} SweepShows(s: State, services: set<Name>, w: Seen, turns: seq<Turn>, window: real, maxRestarts: int)
    requires Shows(s, services, w) && Sound(s, window, maxRestarts) && !w.failed
    ensures Shows(Swept(s, turns, window, maxRestarts), services, SeenInPass(services, w, turns, window, maxRestarts))
    ensures Sound(Swept(s, turns, window, maxRestarts), window, maxRestarts)
    decreases |turns|
  {
    if turns != [] {
      if turns[0].name !in s.children {
        SweepShows(s, services, w, turns[1..], window, maxRestarts);
      } else {
        ExitKeepsSound(s, turns[0], window, maxRestarts);
        ExitShows(s, services, w, turns[0], window, maxRestarts);
        var next, v := AfterExit(s, turns[0], window, maxRestarts), Noticed(w, turns[0], window, maxRestarts);
        if !v.failed { SweepShows(next, services, v, turns[1..], window, maxRestarts); }
      }
    }
  }

  lemma {:induction false} NobodyUp(services: set<Name>, w: Seen, turns: seq<Turn>, window: real, maxRestarts: int)
    requires forall name :: !Up(services, w.log, name)
    ensures SeenInPass(services, w, turns, window, maxRestarts) == w
    decreases |turns|
  {
    if turns != [] { NobodyUp(services, w, turns[1..], window, maxRestarts); }
  }

  lemma {:induction false} NobodyUpAtAll(services: set<Name>, w: Seen, script: seq<seq<Turn>>, window: real, maxRestarts: int)
    requires forall name :: !Up(services, w.log, name)
    ensures SeenInAll(services, w, script, window, maxRestarts) == w
    decreases |script|
  {
    if script != [] {
      NobodyUp(services, w, script[0], window, maxRestarts);
      NobodyUpAtAll(services, w, script[1..], window, maxRestarts);
    }
  }

  lemma {:induction false} PassesShow(s: State, services: set<Name>, w: Seen, script: seq<seq<Turn>>, window: real, maxRestarts: int)
    requires Shows(s, services, w) && Sound(s, window, maxRestarts)
    ensures Shows(Passed(s, script, window, maxRestarts), services, SeenInAll(services, w, script, window, maxRestarts))
    decreases |script|
  {
    if s.children == map[] {
      forall name ensures !Up(services, w.log, name) { assert name !in s.children; }
      NobodyUpAtAll(services, w, script, window, maxRestarts);
    } else if script != [] && !s.stopRequested {
      SweepShows(s, services, w, script[0], window, maxRestarts);
      PassesShow(Swept(s, script[0], window, maxRestarts), services, SeenInPass(services, w, script[0], window, maxRestarts),
                 script[1..], window, maxRestarts);
    }
  }

  /** A supervisor that has not started anything. */
  ghost predicate Fresh(s: State) {
    && s.children == map[] && s.alive == map[] && s.childOrder == [] && s.log == [] && s.nextPid == 0 && s.now == 0.0
    && !s.stopRequested && s.exitCode == 0
  }

  function Services(order: seq<Name>): set<Name> { set name | name in order }

  lemma {:induction false} AllStart(s: State, order: seq<Name>, starts: map<Name, bool>)
    requires Fresh(s) && AllNew(s.children, order) && StartUpTo(order, starts, |order|)
    ensures JustStarted(Started(s, order, starts), order)
  {
    StartStopsAtFirstFailure(s, order, starts, |order|);
    assert order[..|order|] == order && s.childOrder + order == order;
  }

  predicate JustStarted(r: State, order: seq<Name>) {
    && r.childOrder == order && r.nextPid == |order| && r.log == [] && r.now == 0.0 && r.exitCode == 0 && !r.stopRequested
  }

  lemma StartedShows(r: State, order: seq<Name>)
    requires Listed(order, r.children) && JustStarted(r, order)
    ensures Shows(r, Services(order), NOTHING)
  {
    DistinctSize(order);
  }

  lemma {:induction false} DistinctSize(order: seq<Name>)
    requires forall i, j | 0 <= i < j < |order| :: order[i] != order[j]
    ensures |Services(order)| == |order|
  {
    if order != [] {
      var n := |order| - 1;
      DistinctSize(order[..n]);
      assert Services(order) == Services(order[..n]) + {order[n]};
    }
  }

  /** A supervision whose services all start shows the observer exactly the exits of the script whose service
      is running when its turn comes, in order and with their times, up to the end of the first pass in which
      something stops. */
  lemma {:induction false} SupervisionIsSeen(s: State, order: seq<Name>, starts: map<Name, bool>, script: seq<seq<Turn>>, window: real, maxRestarts: int)
    requires Fresh(s) && Sound(s, window, maxRestarts) && AllNew(s.children, order) && StartUpTo(order, starts, |order|)
    requires forall k | 0 <= k < |order| :: order[k] in s.histories
    ensures Shows(Passed(Started(s, order, starts), script, window, maxRestarts), Services(order),
                  SeenInAll(Services(order), NOTHING, script, window, maxRestarts))
  {
    StartKeepsSound(s, order, starts, window, maxRestarts, |order|);
    AllStart(s, order, starts);
    StartedShows(Started(s, order, starts), order);
    PassesShow(Started(s, order, starts), Services(order), NOTHING, script, window, maxRestarts);
  }

  /** With a service that does not start, nothing is watched and no exit is seen. */
  lemma {:induction false} NothingIsWatched(s: State, order: seq<Name>, starts: map<Name, bool>, script: seq<seq<Turn>>, window: real, maxRestarts: int, n: nat)
    requires Fresh(s) && AllNew(s.children, order) && StartUpTo(order, starts, n) && n < |order|
    ensures var r := Passed(Started(s, order, starts), script, window, maxRestarts);
            r.log == [] && r.childOrder == order[..n] && r.stopRequested && r.exitCode == 1
  {
    StartStopsAtFirstFailure(s, order, starts, n);
  }

  // ---------- Undisturbed supervision ----------

  /** The exits of the services in turn, each restarted. */
  function Expected(services: set<Name>, turns: seq<Turn>, now: real): seq<Exit>
    decreases |turns|
  {
    if turns == [] then []
    else if turns[0].name !in services then Expected(services, turns[1..], now)
    else [Exit(now + turns[0].elapsed, turns[0].name, true)] + Expected(services, turns[1..], now + turns[0].elapsed)
  }

  function Until(services: set<Name>, turns: seq<Turn>, now: real): real
    decreases |turns|
  {
    if turns == [] then now
    else Until(services, turns[1..], if turns[0].name in services then now + turns[0].elapsed else now)
  }

  function AllTurns(script: seq<seq<Turn>>): seq<Turn>
    decreases |script|
  {
    if script == [] then [] else script[0] + AllTurns(script[1..])
  }

  /** No stop signal comes and every new process starts. */
  ghost predicate Undisturbed(services: set<Name>, turns: seq<Turn>) {
    forall i | 0 <= i < |turns| && turns[i].name in services :: !turns[i].signalled && turns[i].launches
  }

  /** After `past`, the further exits stay within the budget. */
  ghost predicate StaysAffordable(log: seq<Exit>, from: nat, window: real, maxRestarts: int) {
    forall i | from <= i < |log| :: Affordable(log[..i], log[i].name, log[i].at, window, maxRestarts)
  }

  ghost predicate NothingStopped(w: Seen) { !w.failed && !Stopped(w.log) }

  lemma NoticedRestart(services: set<Name>, w: Seen, t: Turn, window: real, maxRestarts: int)
    requires NothingStopped(w) && t.name in services && !t.signalled && t.launches
    requires Affordable(w.log, t.name, w.now + t.elapsed, window, maxRestarts)
    ensures Noticed(w, t, window, maxRestarts) == Seen(w.log + [Exit(w.now + t.elapsed, t.name, true)], w.now + t.elapsed, false)
    ensures NothingStopped(Noticed(w, t, window, maxRestarts)) && Up(services, w.log, t.name)
  {
    UpAppend(services, w.log, Exit(w.now + t.elapsed, t.name, true), t.name);
  }

  /** A pass in which every exit is restarted. */
  lemma {:induction false} PassGoesThrough(services: set<Name>, w: Seen, turns: seq<Turn>, more: seq<Turn>, window: real, maxRestarts: int)
    requires NothingStopped(w) && Undisturbed(services, turns)
    requires StaysAffordable(w.log + Expected(services, turns, w.now), |w.log|, window, maxRestarts)
    ensures var v := Seen(w.log + Expected(services, turns, w.now), Until(services, turns, w.now), false);
            && NothingStopped(v)
            && SeenInPass(services, w, turns + more, window, maxRestarts) == SeenInPass(services, v, more, window, maxRestarts)
    decreases |turns|
  {
    if turns == [] {
      assert turns + more == more && w.log + [] == w.log;
    } else {
      var t := turns[0];
      assert (turns + more)[0] == t && (turns + more)[1..] == turns[1..] + more;
      assert Undisturbed(services, turns[1..]) by { assert forall i | 0 <= i < |turns| - 1 :: turns[1..][i] == turns[i + 1]; }
      if t.name !in services {
        PassGoesThrough(services, w, turns[1..], more, window, maxRestarts);
      } else {
        var e := Exit(w.now + t.elapsed, t.name, true);
        var all := w.log + Expected(services, turns, w.now);
        assert all == (w.log + [e]) + Expected(services, turns[1..], w.now + t.elapsed);
        assert all[|w.log|] == e && all[..|w.log|] == w.log;
        NoticedRestart(services, w, t, window, maxRestarts);
        PassGoesThrough(services, Noticed(w, t, window, maxRestarts), turns[1..], more, window, maxRestarts);
      }
    }
  }

  lemma {:induction false} ExpectedAppend(services: set<Name>, a: seq<Turn>, b: seq<Turn>, now: real)
    ensures Expected(services, a + b, now) == Expected(services, a, now) + Expected(services, b, Until(services, a, now))
    ensures Until(services, a + b, now) == Until(services, b, Until(services, a, now))
    decreases |a|
  {
    if a == [] {
      assert a + b == b;
    } else {
      assert (a + b)[0] == a[0] && (a + b)[1..] == a[1..] + b;
      ExpectedAppend(services, a[1..], b, if a[0].name in services then now + a[0].elapsed else now);
    }
  }

  lemma AffordableParts(log: seq<Exit>, more: seq<Exit>, from: nat, window: real, maxRestarts: int)
    requires StaysAffordable(log + more, from, window, maxRestarts) && from <= |log|
    ensures StaysAffordable(log, from, window, maxRestarts) && StaysAffordable(log + more, |log|, window, maxRestarts)
  {
    var all := log + more;
    forall i | from <= i < |log| ensures Affordable(log[..i], log[i].name, log[i].at, window, maxRestarts) {
      assert all[..i] == log[..i] && all[i] == log[i];
    }
  }

  lemma UndisturbedParts(services: set<Name>, a: seq<Turn>, b: seq<Turn>)
    requires Undisturbed(services, a + b)
    ensures Undisturbed(services, a) && Undisturbed(services, b)
  {
    assert forall i | 0 <= i < |a| :: (a + b)[i] == a[i];
    assert forall i | 0 <= i < |b| :: (a + b)[|a| + i] == b[i];
  }

  /** What the observer has seen once all exits of these turns were restarted. */
  function AllRestarted(services: set<Name>, w: Seen, turns: seq<Turn>): Seen {
    Seen(w.log + Expected(services, turns, w.now), Until(services, turns, w.now), false)
  }

  lemma {:induction false} RunGoesThrough(services: set<Name>, w: Seen, script: seq<seq<Turn>>, more: seq<seq<Turn>>, window: real, maxRestarts: int)
    requires NothingStopped(w) && Undisturbed(services, AllTurns(script))
    requires StaysAffordable(AllRestarted(services, w, AllTurns(script)).log, |w.log|, window, maxRestarts)
    ensures NothingStopped(AllRestarted(services, w, AllTurns(script)))
    ensures SeenInAll(services, w, script + more, window, maxRestarts)
            == SeenInAll(services, AllRestarted(services, w, AllTurns(script)), more, window, maxRestarts)
    decreases |script|
  {
    if script == [] {
      assert script + more == more && w.log + [] == w.log;
    } else {
      var first, rest := script[0], AllTurns(script[1..]);
      assert (script + more)[0] == first && (script + more)[1..] == script[1..] + more;
      UndisturbedParts(services, first, rest);
      ExpectedAppend(services, first, rest, w.now);
      var v := AllRestarted(services, w, first);
      assert AllRestarted(services, w, AllTurns(script)).log == v.log + Expected(services, rest, v.now);
      AffordableParts(v.log, Expected(services, rest, v.now), |w.log|, window, maxRestarts);
      PassGoesThrough(services, w, first, [], window, maxRestarts);
      assert first + [] == first;
      RunGoesThrough(services, v, script[1..], more, window, maxRestarts);
      assert AllRestarted(services, w, AllTurns(script)) == AllRestarted(services, v, rest);
    }
  }

  /** Undisturbed and within the budget, a supervision restarts every exit: the exits are those of the script,
      in order and at their times, the services all run, and there were as many starts as services and exits. */
  lemma {:induction false} UndisturbedSupervision(s: State, order: seq<Name>, starts: map<Name, bool>, script: seq<seq<Turn>>, window: real, maxRestarts: int)
    requires Fresh(s) && Sound(s, window, maxRestarts) && AllNew(s.children, order) && StartUpTo(order, starts, |order|)
    requires forall k | 0 <= k < |order| :: order[k] in s.histories
    requires Undisturbed(Services(order), AllTurns(script))
    requires StaysAffordable(Expected(Services(order), AllTurns(script), 0.0), 0, window, maxRestarts)
    ensures var r := Passed(Started(s, order, starts), script, window, maxRestarts);
            && r.log == Expected(Services(order), AllTurns(script), 0.0) && r.now == Until(Services(order), AllTurns(script), 0.0)
            && !r.stopRequested && r.exitCode == 0 && r.nextPid == |order| + |r.log|
            && forall name :: name in r.children <==> name in order
  {
    var services, turns := Services(order), AllTurns(script);
    SupervisionIsSeen(s, order, starts, script, window, maxRestarts);
    assert [] + Expected(services, turns, 0.0) == Expected(services, turns, 0.0);
    RunGoesThrough(services, NOTHING, script, [], window, maxRestarts);
    assert script + [] == script;
    AllCounted(Expected(services, turns, 0.0));
    DistinctSize(order);
  }

  lemma {:induction false} AllCounted(log: seq<Exit>)
    ensures !Stopped(log) ==> RestartCount(log) == |log|
  {
    if log != [] {
      var n := |log| - 1;
      AllCounted(log[..n]);
      assert log == log[..n] + [log[n]];
      UpAppend({}, log[..n], log[n], "");
    }
  }

  // ---------- The first stop ----------

  /** Nothing that comes after a stop is restarted, and the exits before are kept. */
  ghost predicate OnlyLeaves(w: Seen, v: Seen) {
    && w.log <= v.log && forall i | |w.log| <= i < |v.log| :: !v.log[i].restarted
  }

  lemma {:induction false} AfterStop(services: set<Name>, w: Seen, turns: seq<Turn>, window: real, maxRestarts: int)
    requires Stopped(w.log)
    ensures OnlyLeaves(w, SeenInPass(services, w, turns, window, maxRestarts))
    decreases |turns|
  {
    if turns != [] && !w.failed {
      if Up(services, w.log, turns[0].name) {
        var v := Noticed(w, turns[0], window, maxRestarts);
        UpAppend(services, w.log, v.log[|w.log|], turns[0].name);
        AfterStop(services, v, turns[1..], window, maxRestarts);
      } else {
        AfterStop(services, w, turns[1..], window, maxRestarts);
      }
    }
  }

  /** The observer's view when turn t comes, every exit so far having been restarted. */
  lemma {:induction false} SeenUpTo(services: set<Name>, before: seq<seq<Turn>>, calm: seq<Turn>, rest: seq<Turn>, after: seq<seq<Turn>>,
                 window: real, maxRestarts: int)
    requires Undisturbed(services, AllTurns(before) + calm)
    requires StaysAffordable(Expected(services, AllTurns(before) + calm, 0.0), 0, window, maxRestarts)
    ensures var v := AllRestarted(services, NOTHING, AllTurns(before) + calm);
            && NothingStopped(v)
            && SeenInAll(services, NOTHING, before + [calm + rest] + after, window, maxRestarts)
               == SeenInAll(services, SeenInPass(services, v, rest, window, maxRestarts), after, window, maxRestarts)
  {
    var w := AllRestarted(services, NOTHING, AllTurns(before));
    var pass := calm + rest;
    UndisturbedParts(services, AllTurns(before), calm);
    ExpectedAppend(services, AllTurns(before), calm, 0.0);
    assert w.log == Expected(services, AllTurns(before), 0.0);
    AffordableParts(w.log, Expected(services, calm, w.now), 0, window, maxRestarts);
    assert before + [pass] + after == before + ([pass] + after);
    RunGoesThrough(services, NOTHING, before, [pass] + after, window, maxRestarts);
    assert ([pass] + after)[0] == pass && ([pass] + after)[1..] == after;
    PassGoesThrough(services, w, calm, rest, window, maxRestarts);
    assert AllRestarted(services, w, calm) == AllRestarted(services, NOTHING, AllTurns(before) + calm);
  }

  /** Every exit up to turn t is restarted, then t's is not: over budget or with a failed start the supervision
      ends with it and exit code 1; after a signal only the rest of its pass is looked at, and nothing is
      restarted any more. */
  lemma {:induction false} FirstStop(services: set<Name>, before: seq<seq<Turn>>, calm: seq<Turn>, w: Seen, t: Turn, rest: seq<Turn>, after: seq<seq<Turn>>,
                  window: real, maxRestarts: int)
    requires Undisturbed(services, AllTurns(before) + calm) && t.name in services
    requires w == AllRestarted(services, NOTHING, AllTurns(before) + calm) && StaysAffordable(w.log, 0, window, maxRestarts)
    requires t.signalled || !t.launches || !Affordable(w.log, t.name, w.now + t.elapsed, window, maxRestarts)
    ensures var at := w.now + t.elapsed;
            var stop := Seen(w.log + [Exit(at, t.name, false)], at, !Affordable(w.log, t.name, at, window, maxRestarts) || !t.signalled);
            var seen := SeenInAll(services, NOTHING, before + [calm + ([t] + rest)] + after, window, maxRestarts);
            && OnlyLeaves(stop, seen)
            && seen == if stop.failed then stop else SeenInPass(services, stop, rest, window, maxRestarts)
  {
    assert w.log == Expected(services, AllTurns(before) + calm, 0.0);
    SeenUpTo(services, before, calm, [t] + rest, after, window, maxRestarts);
    StopInPass(services, w, t, rest, window, maxRestarts);
  }

  lemma {:induction false} StopInPass(services: set<Name>, v: Seen, t: Turn, rest: seq<Turn>, window: real, maxRestarts: int)
    requires NothingStopped(v) && t.name in services
    requires var at := v.now + t.elapsed; t.signalled || !t.launches || !Affordable(v.log, t.name, at, window, maxRestarts)
    ensures var at := v.now + t.elapsed;
            var stop := Seen(v.log + [Exit(at, t.name, false)], at, !Affordable(v.log, t.name, at, window, maxRestarts) || !t.signalled);
            var seen := SeenInPass(services, v, [t] + rest, window, maxRestarts);
            && Stopped(stop.log) && Stopped(seen.log) && OnlyLeaves(stop, seen)
            && seen == if stop.failed then stop else SeenInPass(services, stop, rest, window, maxRestarts)
  {
    var at := v.now + t.elapsed;
    var stop := Noticed(v, t, window, maxRestarts);
    assert ([t] + rest)[0] == t && ([t] + rest)[1..] == rest;
    UpAppend(services, v.log, Exit(at, t.name, false), t.name);
    assert SeenInPass(services, v, [t] + rest, window, maxRestarts) == SeenInPass(services, stop, rest, window, maxRestarts);
    AfterStop(services, stop, rest, window, maxRestarts);
    var seen := SeenInPass(services, stop, rest, window, maxRestarts);
    assert seen.log[|v.log|] == stop.log[|v.log|];
  }
}
