/**
 The event loop of the container controller (container/controller.go): it starts the service
 process, restarts it when it exits, and winds down on a signal or when a server goes away.

 A channel that the loop has set to nil is one it no longer listens to.
 */
module Controllers {

  datatype Controller = Controller(
    service: bool,          // a child process exists
    startAfter: bool,       // a start is pending
    exitAfter: bool,        // the deadman switch is set
    prereqs: bool,          // listening for passed prerequisites
    signals: bool,          // listening for signals, the RPC server and the storage
    autorestart: bool,
    exited: bool,
    starts: nat,            // processes started
    exits: nat,             // process exits received
    healthCloses: nat)      // times the health channel was closed

  datatype Event = Shutdown | Deadline | PrereqsPassed | ServiceExited | StartTimer

  function Initial(autorestart: bool): Controller {
    Controller(false, false, false, true, true, autorestart, false, 0, 0, 0)
  }

  /** The channels the loop selects on; a process exit arrives only from a live process. */
  predicate Enabled(c: Controller, e: Event) {
    !c.exited &&
    match e
    case Shutdown => c.signals
    case Deadline => c.exitAfter
    case PrereqsPassed => c.prereqs
    case ServiceExited => c.service
    case StartTimer => c.startAfter
  }

  /** `shutdownService`: without a process or a PID file there is nobody to signal, and the loop ends. */
  function OnShutdown(c: Controller, pidFile: bool): Controller {
    var off := c.(autorestart := false);
    if pidFile || c.service then
      off.(signals := false, prereqs := false, startAfter := false, exitAfter := true,
           healthCloses := c.healthCloses + 1)
    else off.(exited := true)
  }

  function Step(c: Controller, e: Event, pidFile: bool): Controller {
    match e
    case Shutdown => OnShutdown(c, pidFile)
    case Deadline => c.(exited := true)
    case PrereqsPassed => c.(startAfter := true, prereqs := false)
    case ServiceExited =>
      var gone := c.(exits := c.exits + 1);
      if !c.autorestart then gone.(exited := true)
      else gone.(service := false, startAfter := true)
    case StartTimer => c.(service := true, starts := c.starts + 1, startAfter := false)
  }

  /** Processes started and not yet known to have exited. */
  function Live(c: Controller): int {
    c.starts - c.exits
  }

  /** Shutting down: only the deadline and the exit of the process are still listened to. */
  predicate WindingDown(c: Controller) {
    c.exitAfter && !c.signals && !c.prereqs && !c.startAfter && !c.autorestart
  }

  predicate Consistent(c: Controller) {
    && (!c.exited ==> Live(c) == if c.service then 1 else 0)
    && 0 <= Live(c) <= 1
    && (c.startAfter ==> !c.service)
    && (c.prereqs ==> !c.service && !c.startAfter)
    && (c.exitAfter ==> WindingDown(c))
    && (!c.exitAfter && !c.exited ==> c.signals)
    && c.healthCloses == (if c.exitAfter then 1 else 0)
  }

  /** One handled event. */
  predicate Linked(states: seq<Controller>, events: seq<Event>, pidFile: bool, i: nat)
    requires |states| == |events| + 1 && i < |events|
  {
    Enabled(states[i], events[i]) && states[i + 1] == Step(states[i], events[i], pidFile)
  }

  ghost predicate IsRun(states: seq<Controller>, events: seq<Event>, autorestart: bool, pidFile: bool) {
    && |states| == |events| + 1 && states[0] == Initial(autorestart)
    && forall i | 0 <= i < |events| :: Linked(states, events, pidFile, i)
  }

  lemma {:induction false} StepConsistent(c: Controller, e: Event, pidFile: bool)
    requires Consistent(c) && Enabled(c, e)
    ensures Consistent(Step(c, e, pidFile))
    ensures c.exitAfter ==> Step(c, e, pidFile).exited && Step(c, e, pidFile).starts == c.starts
    ensures e.Shutdown? ==>
              && (Step(c, e, pidFile).exitAfter || Step(c, e, pidFile).exited)
              && Step(c, e, pidFile).starts == c.starts
  {}

  lemma {:induction false} RunConsistent(
    states: seq<Controller>, events: seq<Event>, autorestart: bool, pidFile: bool, n: nat)
    requires IsRun(states, events, autorestart, pidFile) && n <= |events|
    ensures Consistent(states[n])
  {
    if n > 0 {
      RunConsistent(states, events, autorestart, pidFile, n - 1);
      assert Linked(states, events, pidFile, n - 1);
      StepConsistent(states[n - 1], events[n - 1], pidFile);
    }
  }

  /**
   Until a shutdown is requested the loop ends exactly when the process exits and is not to be
   restarted; as long as it has not ended, it waits for prerequisites, for a start or for a process.
   */
  lemma {:induction false} EndsOnlyWhenAsked(
    states: seq<Controller>, events: seq<Event>, autorestart: bool, pidFile: bool, n: nat)
    requires IsRun(states, events, autorestart, pidFile) && n <= |events|
    requires forall i | 0 <= i < n :: !events[i].Shutdown?
    ensures states[n].autorestart == autorestart && !states[n].exitAfter
    ensures states[n].exited <==> !autorestart && n > 0 && events[n - 1].ServiceExited?
    ensures !states[n].exited ==> states[n].prereqs || states[n].startAfter || states[n].service
  {
    if n > 0 {
      EndsOnlyWhenAsked(states, events, autorestart, pidFile, n - 1);
      assert Linked(states, events, pidFile, n - 1);
    }
  }

  /** In every state of every run at most one child process is live, and none while a start is pending. */
  lemma {:induction false} AtMostOneProcess(
    states: seq<Controller>, events: seq<Event>, autorestart: bool, pidFile: bool, n: nat)
    requires IsRun(states, events, autorestart, pidFile) && n <= |events|
    ensures 0 <= Live(states[n]) <= 1
    ensures states[n].startAfter && !states[n].exited ==> Live(states[n]) == 0
  {
    RunConsistent(states, events, autorestart, pidFile, n);
  }

  /**
   After a shutdown request nothing is started any more, and at most one more event is handled:
   the run ends with the request itself or with the event that follows it.
   */
  lemma {:induction false} ShutdownEndsLoop(
    states: seq<Controller>, events: seq<Event>, autorestart: bool, pidFile: bool, i: nat)
    requires IsRun(states, events, autorestart, pidFile) && i < |events| && events[i].Shutdown?
    ensures |events| <= i + 2 && (|events| == i + 2 ==> states[|events|].exited)
    ensures states[|events|].starts == states[i].starts
  {
    assert |events| > i + 2 ==> Linked(states, events, pidFile, i + 2);
    RunConsistent(states, events, autorestart, pidFile, i);
    assert Linked(states, events, pidFile, i);
    StepConsistent(states[i], events[i], pidFile);
    if |events| > i + 1 {
      assert Linked(states, events, pidFile, i + 1);
      StepConsistent(states[i + 1], events[i + 1], pidFile);
    }
  }

  /** A shutdown request that reaches somebody: a process, or whoever the PID file names. */
  predicate Signals(states: seq<Controller>, events: seq<Event>, pidFile: bool, i: nat)
    requires |states| == |events| + 1 && i < |events|
  {
    events[i].Shutdown? && (pidFile || states[i].service)
  }

  lemma {:induction false} ExitAfterIff(
    states: seq<Controller>, events: seq<Event>, autorestart: bool, pidFile: bool, n: nat)
    requires IsRun(states, events, autorestart, pidFile) && n <= |events|
    ensures states[n].exitAfter <==> exists i | 0 <= i < n :: Signals(states, events, pidFile, i)
  {
    if n > 0 {
      ExitAfterIff(states, events, autorestart, pidFile, n - 1);
      RunConsistent(states, events, autorestart, pidFile, n - 1);
      assert Linked(states, events, pidFile, n - 1);
      assert Signals(states, events, pidFile, n - 1) <==> events[n - 1].Shutdown? && (pidFile || states[n - 1].service);
    }
  }

  /**
   When a run has ended, the deferred close at the end of `Run` closes the health channel for the
   second time if and only if some shutdown request reached somebody, and for the first time
   otherwise.
   */
  lemma {:induction false} HealthChannelCloses(
    states: seq<Controller>, events: seq<Event>, autorestart: bool, pidFile: bool)
    requires IsRun(states, events, autorestart, pidFile) && states[|events|].exited
    ensures states[|events|].healthCloses + 1 ==
            if exists i | 0 <= i < |events| :: Signals(states, events, pidFile, i) then 2 else 1
  {
    RunConsistent(states, events, autorestart, pidFile, |events|);
    ExitAfterIff(states, events, autorestart, pidFile, |events|);
  }

  /** Prerequisites, start, shutdown, exit of the process: an orderly run that closes the channel twice. */
  lemma {:induction false} OrderlyShutdownClosesTwice() returns (states: seq<Controller>, events: seq<Event>)
    ensures IsRun(states, events, true, false) && states[|events|].exited && states[|events|].healthCloses + 1 == 2
  {
    events := [PrereqsPassed, StartTimer, Shutdown, ServiceExited];
    var a := Initial(true);
    var b := Step(a, PrereqsPassed, false);
    var c := Step(b, StartTimer, false);
    var d := Step(c, Shutdown, false);
    states := [a, b, c, d, Step(d, ServiceExited, false)];
    forall i | 0 <= i < |events| ensures Linked(states, events, false, i) {
      assert i == 0 || i == 1 || i == 2 || i == 3;
    }
  }

  // ---------------------------------------------------------------- the loop

  /** The events among those that arrive that are enabled when they come, and where they lead. */
  function Filtered(arriving: seq<Event>, autorestart: bool, pidFile: bool): (Controller, seq<Event>) {
    if arriving == [] then (Initial(autorestart), [])
    else
      var (c, handled) := Filtered(arriving[..|arriving| - 1], autorestart, pidFile);
      var e := arriving[|arriving| - 1];
      if Enabled(c, e) then (Step(c, e, pidFile), handled + [e]) else (c, handled)
  }

  /** The select loop over the events that arrive; those on channels set to nil are never received. */
  method RunLoop(arriving: seq<Event>, autorestart: bool, pidFile: bool) returns (c: Controller, handled: seq<Event>)
    ensures (c, handled) == Filtered(arriving, autorestart, pidFile)
    ensures exists states :: IsRun(states, handled, autorestart, pidFile) && states[|handled|] == c
    ensures Consistent(c)
  {
    c, handled := Initial(autorestart), [];
    ghost var states := [c];
    for i := 0 to |arriving|
      invariant (c, handled) == Filtered(arriving[..i], autorestart, pidFile)
      invariant IsRun(states, handled, autorestart, pidFile) && states[|handled|] == c
    {
      var e := arriving[i];
      assert arriving[..i + 1][..i] == arriving[..i];
      if Enabled(c, e) {
        ghost var states', handled' := states + [Step(c, e, pidFile)], handled + [e];
        forall j | 0 <= j < |handled'| ensures Linked(states', handled', pidFile, j) {
          assert j < |handled| ==> Linked(states, handled, pidFile, j);
        }
        c, handled, states := Step(c, e, pidFile), handled + [e], states';
      }
    }
    RunConsistent(states, handled, autorestart, pidFile, |handled|);
    assert arriving[..|arriving|] == arriving;
  }
}
