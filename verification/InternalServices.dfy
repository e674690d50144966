/**
 The supervisor of an internal service (isvcs/container.go): one loop that answers requests to
 start, stop and restart a container, restarts it when it exits, and keeps exactly one stats
 collector and one health checker beside it. Custom stats functions are not modelled.
 */
module InternalServices {

  /** The loop's variables, and the goroutines that its halt channels talk to. */
  datatype Supervisor = Supervisor(
    running: bool,        // svc.exited != nil
    collecting: bool,
    restartCount: nat,
    stats: nat,           // live stats collectors
    checkers: nat,        // live health checkers
    blocked: bool,        // a halt was sent that nobody receives
    responses: nat,       // answers given to requests
    attempts: nat)        // automatic restarts attempted

  /** What the loop receives; the flags are the outcomes of what it calls. */
  datatype Event =
    | Stop(stopFails: bool)
    | Start(startFails: bool, recovers: bool, secondStartFails: bool)
    | Restart(stopFails: bool, startFails: bool)
    | Exit(uptime: real, startFails: bool)

  const MINIMUM_VIABLE_LIFESPAN := 60.0
  const FLAPPING_THRESHOLD := 3

  const INITIAL := Supervisor(false, false, 0, 0, 0, false, 0, 0)

  // ---------------------------------------------------------------- the loop's building blocks

  /** Sends on the halt channels if collectors are thought to be alive; a send without a receiver blocks. */
  function HaltCollectors(s: Supervisor, hasChecks: bool): Supervisor {
    if !s.collecting then s
    else
      var lost := s.stats == 0 || (hasChecks && s.checkers == 0);
      s.(stats := if s.stats > 0 then s.stats - 1 else 0,
         checkers := if hasChecks && s.checkers > 0 then s.checkers - 1 else s.checkers,
         blocked := s.blocked || lost,
         collecting := false)
  }

  /** Spawns the collectors unless they are thought to be alive; without checks the checker returns at once. */
  function SpawnCollectors(s: Supervisor, hasChecks: bool): Supervisor {
    if s.collecting then s
    else s.(stats := s.stats + 1, checkers := if hasChecks then s.checkers + 1 else s.checkers, collecting := true)
  }

  function Respond(s: Supervisor): Supervisor {
    s.(responses := s.responses + 1)
  }

  /** `isFlapping` counts the exit before it decides. */
  function Counted(s: Supervisor, uptime: real): Supervisor {
    s.(restartCount := if uptime < MINIMUM_VIABLE_LIFESPAN then s.restartCount + 1 else 0)
  }

  function OnStop(s: Supervisor, stopFails: bool, hasChecks: bool): Supervisor {
    if !s.running then Respond(s)
    else
      var halted := HaltCollectors(s, hasChecks);
      if stopFails then Respond(halted) else Respond(halted.(running := false))
  }

  function OnStart(
    s: Supervisor, startFails: bool, recovers: bool, secondStartFails: bool, hasChecks: bool): Supervisor {
    if s.running then Respond(s)
    else
      var failed := startFails && (!recovers || secondStartFails);
      var started := s.(running := !failed);
      if failed then Respond(started) else Respond(SpawnCollectors(started, hasChecks))
  }

  function OnRestart(s: Supervisor, stopFails: bool, startFails: bool, hasChecks: bool): Supervisor {
    var halted := if s.running then HaltCollectors(s, hasChecks) else s;
    if s.running && stopFails then Respond(halted)
    else
      var started := halted.(running := !startFails);
      if startFails then Respond(started) else Respond(SpawnCollectors(started, hasChecks))
  }

  function OnExit(s: Supervisor, uptime: real, startFails: bool, hasChecks: bool): Supervisor {
    var counted := Counted(s, uptime);
    var flapping := counted.restartCount >= FLAPPING_THRESHOLD;
    var tried := if flapping then counted else counted.(running := !startFails, attempts := counted.attempts + 1);
    if flapping || startFails then HaltCollectors(tried, hasChecks).(running := false) else tried
  }

  /** An exit is only ever received from a running container. */
  predicate Enabled(s: Supervisor, e: Event) {
    !s.blocked && (e.Exit? ==> s.running)
  }

  function Step(s: Supervisor, e: Event, hasChecks: bool): Supervisor {
    match e
    case Stop(stopFails) => OnStop(s, stopFails, hasChecks)
    case Start(startFails, recovers, second) => OnStart(s, startFails, recovers, second, hasChecks)
    case Restart(stopFails, startFails) => OnRestart(s, stopFails, startFails, hasChecks)
    case Exit(uptime, startFails) => OnExit(s, uptime, startFails, hasChecks)
  }

  // ---------------------------------------------------------------- what every step keeps

  /** Collectors are alive exactly when the loop thinks so, and then the container is running. */
  predicate Consistent(s: Supervisor, hasChecks: bool) {
    && (s.collecting ==> s.running)
    && s.stats == (if s.collecting then 1 else 0)
    && s.checkers == (if s.collecting && hasChecks then 1 else 0)
    && !s.blocked
  }

  function Requests(events: seq<Event>): nat {
    if events == [] then 0 else Requests(events[..|events| - 1]) + (if events[|events| - 1].Exit? then 0 else 1)
  }

  /** The uptimes of the unexpected exits, in order. */
  function Uptimes(events: seq<Event>): seq<real> {
    if events == [] then []
    else
      var e := events[|events| - 1];
      Uptimes(events[..|events| - 1]) + if e.Exit? then [e.uptime] else []
  }

  /** How many exits at the end of the list, without interruption, came too soon. */
  function TrailingShort(uptimes: seq<real>): nat {
    if uptimes == [] || uptimes[|uptimes| - 1] >= MINIMUM_VIABLE_LIFESPAN then 0
    else 1 + TrailingShort(uptimes[..|uptimes| - 1])
  }

  function Run(events: seq<Event>, hasChecks: bool): Supervisor
    decreases |events|
  {
    if events == [] then INITIAL
    else Step(Run(events[..|events| - 1], hasChecks), events[|events| - 1], hasChecks)
  }

  ghost predicate Possible(events: seq<Event>, hasChecks: bool)
    decreases |events|
  {
    events == [] ||
    (Possible(events[..|events| - 1], hasChecks) &&
     Enabled(Run(events[..|events| - 1], hasChecks), events[|events| - 1]))
  }

  lemma {:induction false} StepConsistent(s: Supervisor, e: Event, hasChecks: bool)
    requires Consistent(s, hasChecks) && Enabled(s, e)
    ensures Consistent(Step(s, e, hasChecks), hasChecks)
    ensures Step(s, e, hasChecks).responses == s.responses + if e.Exit? then 0 else 1
  {}

  /** Docker could start the container, if need be after its data was recovered. */
  predicate Starts(e: Event)
    requires e.Start?
  {
    !e.startFails || (e.recovers && !e.secondStartFails)
  }

  /** When the container runs after a request: what the request did to it, and not what was answered. */
  lemma {:induction false} RunsAfterRequestIff(s: Supervisor, e: Event, hasChecks: bool)
    requires Consistent(s, hasChecks) && Enabled(s, e) && !e.Exit?
    ensures Step(s, e, hasChecks).running <==>
            match e
            case Start(_, _, _) => s.running || Starts(e)
            case Stop(stopFails) => s.running && stopFails
            case Restart(stopFails, startFails) => (s.running && stopFails) || !startFails
            case Exit(_, _) => true
  {}

  /** A stop or restart request whose attempt to stop the container fails. */
  predicate StopFailed(e: Event) {
    (e.Stop? || e.Restart?) && e.stopFails
  }

  /** The container is running exactly while it is watched. */
  predicate Watched(s: Supervisor) {
    s.running <==> s.collecting
  }

  /** The one way to lose sight of a container: its collectors are halted before the stop that fails. */
  lemma {:induction false} StepWatchedIff(s: Supervisor, e: Event, hasChecks: bool)
    requires Consistent(s, hasChecks) && Enabled(s, e) && Watched(s)
    ensures Watched(Step(s, e, hasChecks)) <==> !(StopFailed(e) && s.running)
    ensures StopFailed(e) && s.running ==>
              var after := Step(s, e, hasChecks); after.running && after.stats == 0 && after.checkers == 0
  {}

  /**
   In every run of requests and exits the collectors alive are exactly those the loop believes
   in, so no halt is sent without a receiver, and every request is answered exactly once.
   */
  lemma {:induction false} RunConsistent(events: seq<Event>, hasChecks: bool)
    requires Possible(events, hasChecks)
    ensures Consistent(Run(events, hasChecks), hasChecks)
    ensures Run(events, hasChecks).responses == Requests(events)
    decreases |events|
  {
    if events != [] {
      var before, e := events[..|events| - 1], events[|events| - 1];
      RunConsistent(before, hasChecks);
      StepConsistent(Run(before, hasChecks), e, hasChecks);
    }
  }

  lemma {:induction false} PossiblePrefix(events: seq<Event>, n: nat, hasChecks: bool)
    requires Possible(events, hasChecks) && n <= |events|
    ensures Possible(events[..n], hasChecks)
    decreases |events|
  {
    if n == |events| {
      assert events[..n] == events;
    } else {
      var before := events[..|events| - 1];
      PossiblePrefix(before, n, hasChecks);
      assert before[..n] == events[..n];
    }
  }

  /** The state after the first `n` events. */
  function After(events: seq<Event>, n: nat, hasChecks: bool): Supervisor
    requires n <= |events|
  {
    Run(events[..n], hasChecks)
  }

  /** The n-th event of a possible run happens in a consistent state. */
  lemma {:induction false} AfterOneMore(events: seq<Event>, n: nat, hasChecks: bool)
    requires Possible(events, hasChecks) && n < |events|
    ensures After(events, n + 1, hasChecks) == Step(After(events, n, hasChecks), events[n], hasChecks)
    ensures Consistent(After(events, n, hasChecks), hasChecks) && Enabled(After(events, n, hasChecks), events[n])
  {
    PossiblePrefix(events, n + 1, hasChecks);
    PossiblePrefix(events, n, hasChecks);
    RunConsistent(events[..n], hasChecks);
    assert events[..n + 1][..n] == events[..n];
  }

  /** A stop fails that was tried on a running container. */
  predicate LosesSight(events: seq<Event>, i: nat, hasChecks: bool)
    requires i < |events|
  {
    StopFailed(events[i]) && After(events, i, hasChecks).running
  }

  lemma {:induction false} WatchedUpTo(events: seq<Event>, n: nat, hasChecks: bool)
    requires Possible(events, hasChecks) && n <= |events|
    requires forall i | 0 <= i < n :: !LosesSight(events, i, hasChecks)
    ensures Watched(After(events, n, hasChecks))
  {
    if n == 0 {
      assert events[..0] == [];
    } else {
      WatchedUpTo(events, n - 1, hasChecks);
      AfterOneMore(events, n - 1, hasChecks);
      assert !LosesSight(events, n - 1, hasChecks);
      StepWatchedIff(After(events, n - 1, hasChecks), events[n - 1], hasChecks);
    }
  }

  /**
   Over every run the container is running exactly while it is watched, after each event, if and
   only if no stop of a running container ever fails.
   */
  lemma {:induction false} RunningIsWatchedIff(events: seq<Event>, hasChecks: bool)
    requires Possible(events, hasChecks)
    ensures (forall n | 0 <= n <= |events| :: Watched(After(events, n, hasChecks))) <==>
            (forall i | 0 <= i < |events| :: !LosesSight(events, i, hasChecks))
  {
    if forall i | 0 <= i < |events| :: !LosesSight(events, i, hasChecks) {
      forall n | 0 <= n <= |events| ensures Watched(After(events, n, hasChecks)) {
        WatchedUpTo(events, n, hasChecks);
      }
    }
    if forall n | 0 <= n <= |events| :: Watched(After(events, n, hasChecks)) {
      forall i | 0 <= i < |events| ensures !LosesSight(events, i, hasChecks) {
        assert Watched(After(events, i, hasChecks)) && Watched(After(events, i + 1, hasChecks));
        AfterOneMore(events, i, hasChecks);
        StepWatchedIff(After(events, i, hasChecks), events[i], hasChecks);
      }
    }
  }

  /** A run that ends with a container nobody watches: it was started, and the stop failed. */
  lemma {:induction false} FailedStopLeavesUnwatched(hasChecks: bool) returns (events: seq<Event>)
    ensures Possible(events, hasChecks) && Run(events, hasChecks).running && !Run(events, hasChecks).collecting
  {
    var start, stop := Start(false, false, false), Stop(true);
    events := [start, stop];
    var started := [start];
    assert started[..0] == [] && started[|started| - 1] == start;
    assert Run([], hasChecks) == INITIAL && Possible([], hasChecks) && Enabled(INITIAL, start);
    assert Possible(started, hasChecks) && Run(started, hasChecks) == Step(INITIAL, start, hasChecks);
    assert events[..|events| - 1] == started;
  }

  /** The restart counter is the number of short-lived exits at the end of the trace, whatever requests came between. */
  lemma {:induction false} RestartCountIsTrailing(events: seq<Event>, hasChecks: bool)
    ensures Run(events, hasChecks).restartCount == TrailingShort(Uptimes(events))
    decreases |events|
  {
    if events != [] {
      var before, e := events[..|events| - 1], events[|events| - 1];
      RestartCountIsTrailing(before, hasChecks);
      if e.Exit? {
        var u := Uptimes(events);
        assert u[..|u| - 1] == Uptimes(before);
      } else {
        assert Uptimes(events) == Uptimes(before);
        assert Run(events, hasChecks).restartCount == Run(before, hasChecks).restartCount;
      }
    }
  }

  /**
   After an unexpected exit a restart is attempted if and only if fewer than three consecutive
   exits ending with this one had been up for less than sixty seconds.
   */
  lemma {:induction false} RestartAttemptedIff(events: seq<Event>, uptime: real, startFails: bool, hasChecks: bool)
    requires Possible(events + [Exit(uptime, startFails)], hasChecks)
    ensures var before, after := Run(events, hasChecks), Run(events + [Exit(uptime, startFails)], hasChecks);
            var tried := TrailingShort(Uptimes(events + [Exit(uptime, startFails)])) < FLAPPING_THRESHOLD;
            && after.attempts == before.attempts + (if tried then 1 else 0)
            && (after.running <==> tried && !startFails)
  {
    var e := Exit(uptime, startFails);
    var all := events + [e];
    assert all[..|all| - 1] == events;
    RestartCountIsTrailing(all, hasChecks);
  }

  // ---------------------------------------------------------------- the loop

  class IService {
    const hasChecks: bool
    var supervisor: Supervisor

    constructor (hasChecks: bool)
      ensures this.hasChecks == hasChecks && supervisor == INITIAL
    {
      this.hasChecks, supervisor := hasChecks, INITIAL;
    }

    /** The loop, for as long as events arrive that can be received. */
    method RunLoop(events: seq<Event>)
      requires Possible(events, hasChecks) && supervisor == INITIAL
      modifies this
      ensures supervisor == Run(events, hasChecks) && Consistent(supervisor, hasChecks)
    {
      for i := 0 to |events|
        invariant supervisor == Run(events[..i], hasChecks)
      {
        assert events[..i + 1][..i] == events[..i];
        supervisor := Step(supervisor, events[i], hasChecks);
      }
      assert events[..|events|] == events;
      RunConsistent(events, hasChecks);
    }
  }
}
