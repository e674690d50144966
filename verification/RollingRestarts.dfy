/**
 The rolling restart of a service (facade/service.go): after all instances were marked as pending,
 they are restarted one at a time, and whatever was not reached is put back on every way out.
 */
module RollingRestarts {

  datatype InstanceState = Running | PendingRestart | Restarting

  /** What the outside world does at each instance. */
  datatype World = World(
    markFails: nat -> bool,
    cancelled: nat -> bool,
    stateFails: nat -> bool,
    restartFails: nat -> bool,
    waitFails: nat -> bool)

  datatype Outcome = Completed | Cancelled | Failed | MarkingFailed

  /** The loop ends without restarting the instance. */
  predicate StopsBefore(w: World, i: nat) {
    w.cancelled(i) || w.stateFails(i) || w.restartFails(i)
  }

  predicate Stops(w: World, i: nat) {
    StopsBefore(w, i) || w.waitFails(i)
  }

  /** The outcome of a restart of `n` instances of which the first `k` were restarted. */
  ghost predicate Explains(w: World, n: nat, k: nat, outcome: Outcome) {
    && (outcome.Completed? <==> forall i | 0 <= i < n :: !Stops(w, i))
    && (outcome.Completed? ==> k == n)
    && (outcome.Cancelled? ==> k < n && w.cancelled(k))
    && (outcome.Failed? ==>
          (k < n && !w.cancelled(k) && (w.stateFails(k) || w.restartFails(k))) || (k > 0 && w.waitFails(k - 1)))
  }

  /** How many instances of `n` are restarted from `i` on. */
  function Reached(w: World, i: nat, n: nat): (k: nat)
    requires i <= n
    ensures i <= k <= n
    decreases n - i
  {
    if i == n || StopsBefore(w, i) then i
    else if w.waitFails(i) then i + 1
    else Reached(w, i + 1, n)
  }

  function UpTo(lo: nat, hi: nat): (s: seq<nat>)
    requires lo <= hi
    ensures |s| == hi - lo && forall i | 0 <= i < |s| :: s[i] == lo + i
  {
    seq(hi - lo, i requires 0 <= i < hi - lo => lo + i)
  }

  class Restarter {
    var states: seq<InstanceState>
    var restarted: seq<nat>
    var reverted: seq<nat>

    constructor (n: nat)
      ensures states == seq(n, _ => Running) && restarted == [] && reverted == []
    {
      states, restarted, reverted := seq(n, _ => Running), [], [];
    }

    method SetState(i: nat, s: InstanceState)
      requires i < |states|
      modifies this`states
      ensures states == old(states)[i := s]
    {
      states := states[i := s];
    }

    /** The deferred function: everything from `nextInstance` on is put back to running. */
    method Revert(nextInstance: nat)
      requires nextInstance <= |states| && reverted == []
      modifies this`states, this`reverted
      ensures |states| == |old(states)| && reverted == UpTo(nextInstance, |states|)
      ensures forall i | 0 <= i < nextInstance :: states[i] == old(states)[i]
      ensures forall i | nextInstance <= i < |states| :: states[i] == Running
    {
      for i := nextInstance to |states|
        invariant |states| == |old(states)| && reverted == UpTo(nextInstance, i)
        invariant forall j | 0 <= j < nextInstance :: states[j] == old(states)[j]
        invariant forall j | nextInstance <= j < i :: states[j] == Running
      {
        SetState(i, Running);
        reverted := reverted + [i];
      }
    }

    /** The restarting loop; returns how far it came. */
    method RestartEach(w: World) returns (outcome: Outcome, nextInstance: nat)
      requires restarted == [] && forall i | 0 <= i < |states| :: states[i] == PendingRestart
      modifies this`states, this`restarted
      ensures nextInstance == Reached(w, 0, |states|) && |states| == |old(states)|
      ensures restarted == UpTo(0, nextInstance)
      ensures forall i | 0 <= i < |states| :: states[i] == if i < nextInstance then Restarting else PendingRestart
      ensures !outcome.MarkingFailed? && Explains(w, |states|, nextInstance, outcome)
    {
      nextInstance := 0;
      for i := 0 to |states|
        invariant nextInstance == i && |states| == |old(states)| && restarted == UpTo(0, i)
        invariant Reached(w, 0, |states|) == Reached(w, i, |states|)
        invariant forall j | 0 <= j < |states| :: states[j] == if j < i then Restarting else PendingRestart
        invariant forall j | 0 <= j < i :: !Stops(w, j)
      {
        assert w.cancelled(i) || w.stateFails(i) || w.restartFails(i) || w.waitFails(i) <==> Stops(w, i);
        if w.cancelled(i) {
          return Cancelled, nextInstance;
        }
        if w.stateFails(i) || w.restartFails(i) {
          return Failed, nextInstance;
        }
        SetState(i, Restarting);
        restarted := restarted + [i];
        nextInstance := nextInstance + 1;
        if w.waitFails(i) {
          return Failed, nextInstance;
        }
      }
      outcome := Completed;
    }

    /**
     `rollingRestart`: once every instance is marked, restarts go exactly once each to the first
     k instances, in order, and exactly the others are put back to running.
     */
    method RollingRestart(w: World) returns (outcome: Outcome, k: nat)
      requires restarted == [] && reverted == []
      modifies this
      ensures outcome.MarkingFailed? <==> exists i | 0 <= i < |old(states)| :: w.markFails(i)
      ensures outcome.MarkingFailed? ==> restarted == [] && reverted == []
      ensures !outcome.MarkingFailed? ==>
                && |states| == |old(states)| && k == Reached(w, 0, |states|)
                && restarted == UpTo(0, k) && reverted == UpTo(k, |states|)
                && (forall i | 0 <= i < |states| :: states[i] == if i < k then Restarting else Running)
                && Explains(w, |states|, k, outcome)
    {
      k := 0;
      for i := 0 to |states|
        invariant |states| == |old(states)| && restarted == [] && reverted == []
        invariant forall j | 0 <= j < i :: states[j] == PendingRestart && !w.markFails(j)
      {
        if w.markFails(i) {
          return MarkingFailed, 0;
        }
        SetState(i, PendingRestart);
      }
      outcome, k := RestartEach(w);
      Revert(k);
    }
  }

  /**
   A run stops before the first instance that is cancelled or cannot be restarted, and right after
   one that cannot be waited for.
   */
  lemma {:induction false} ReachedIsFirstStop(w: World, i: nat, n: nat)
    requires i <= n
    ensures var k := Reached(w, i, n);
            && (forall j | i <= j < k :: !StopsBefore(w, j))
            && (forall j | i <= j < k - 1 :: !w.waitFails(j))
            && (k < n ==> StopsBefore(w, k) || (i < k && w.waitFails(k - 1)))
    decreases n - i
  {
    if i < n && !StopsBefore(w, i) && !w.waitFails(i) {
      ReachedIsFirstStop(w, i + 1, n);
    }
  }
}
