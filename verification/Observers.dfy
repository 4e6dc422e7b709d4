/** yogi-cpp's Observer: start arms an asynchronous operation, its completion
    handler re-arms it and notifies the user under a recursive mutex, stop raises
    a flag, cancels, and spins until the observer no longer runs. Completions
    arrive asynchronously, on any thread. */
module Observers {

  /** `armed`: operations that have not completed. `queued`: completions that
      have yet to take the mutex, by result. `inCallback` is true exactly while
      a handler holds the mutex. */
  datatype State = State(running: bool, stop: bool, inCallback: bool,
                         armed: nat, queuedOk: nat, queuedFailed: nat)

  datatype Event =
    | StartCalled | StopFlagged | StopReturns
    | Completes(ok: bool)
    | HandlerEnters(ok: bool) | HandlerLeaves
    | CalledInHandler

  const INITIAL := State(false, false, false, 0, 0, 0)

  /** Sections that need the mutex exclude each other. The handler's section is
      split, because the re-armed operation may complete while the user's
      callback still runs. Cancelling makes an armed operation complete; it adds
      no step of its own. */
  predicate Step(s: State, e: Event, t: State)
  {
    match e
    case StartCalled =>
      && !s.inCallback
      && t == if s.running then s else s.(armed := s.armed + 1, running := true, stop := false)
    case StopFlagged =>
      !s.inCallback && t == s.(stop := true)
    case StopReturns =>
      !s.inCallback && !s.running && t == s
    case Completes(ok) =>
      && s.armed > 0
      && t == if ok then s.(armed := s.armed - 1, queuedOk := s.queuedOk + 1)
              else s.(armed := s.armed - 1, queuedFailed := s.queuedFailed + 1)
    case HandlerEnters(ok) =>
      && !s.inCallback
      && (if ok then s.queuedOk > 0 else s.queuedFailed > 0)
      && var u := if ok then s.(queuedOk := s.queuedOk - 1) else s.(queuedFailed := s.queuedFailed - 1);
         t == if !ok || s.stop then u.(running := false) else u.(inCallback := true, armed := u.armed + 1)
    case HandlerLeaves =>
      s.inCallback && t == s.(inCallback := false)
    case CalledInHandler =>                                    // throws CalledFromHandler
      s.inCallback && t == s
  }

  predicate Notifies(s: State, e: Event) { e == HandlerEnters(true) && !s.stop }

  // -------------------------------------------------------------- the observer

  /** armed, queuedOk and queuedFailed belong to the terminal or binder behind
      the observer; each method is one section under the mutex. */
  class Observer {
    var running: bool
    var stop: bool
    var inCallback: bool
    var armed: nat
    var queuedOk: nat
    var queuedFailed: nat

    ghost function Abs(): State
      reads this
    {
      State(running, stop, inCallback, armed, queuedOk, queuedFailed)
    }

    constructor ()
      ensures Abs() == INITIAL
    {
      running, stop, inCallback, armed, queuedOk, queuedFailed := false, false, false, 0, 0, 0;
    }

    method Start() returns (threw: bool)
      modifies this
      ensures threw == old(inCallback)
      ensures Step(old(Abs()), if threw then CalledInHandler else StartCalled, Abs())
      ensures !threw && !old(running) ==> running && !stop && armed == old(armed) + 1
    {
      if inCallback {
        return true;
      }
      if !running {
        armed := armed + 1;
        running := true;
        stop := false;
      }
      return false;
    }

    /** The first section of stop. */
    method RaiseStop() returns (threw: bool)
      modifies this`stop
      ensures threw == old(inCallback)
      ensures Step(old(Abs()), if threw then CalledInHandler else StopFlagged, Abs())
    {
      if inCallback {
        return true;
      }
      stop := true;
      return false;
    }

    /** _handle_change up to the user's callback. */
    method HandleChange(ok: bool) returns (notify: bool)
      requires !inCallback && if ok then queuedOk > 0 else queuedFailed > 0
      modifies this
      ensures Step(old(Abs()), HandlerEnters(ok), Abs())
      ensures notify <==> Notifies(old(Abs()), HandlerEnters(ok))
    {
      if ok {
        queuedOk := queuedOk - 1;
      } else {
        queuedFailed := queuedFailed - 1;
      }
      if !ok || stop {
        running := false;
        return false;
      }
      inCallback := true;
      armed := armed + 1;
      return true;
    }

    method CallbackReturns()
      requires inCallback
      modifies this`inCallback
      ensures Step(old(Abs()), HandlerLeaves, Abs())
    {
      inCallback := false;
    }
  }

  // ----------------------------------------------------------------- every run

  /** Running means: one operation is armed or one completion waits. */
  predicate Inv(s: State)
  {
    && s.armed + s.queuedOk + s.queuedFailed == (if s.running then 1 else 0)
    && (s.inCallback ==> s.running)
  }

  datatype Run = Run(states: seq<State>, events: seq<Event>)

  predicate IsRun(r: Run)
  {
    && |r.states| == |r.events| + 1
    && r.states[0] == INITIAL
    && forall i :: 0 <= i < |r.events| ==> Step(r.states[i], r.events[i], r.states[i + 1])
  }

  lemma {:induction false} RunInv(r: Run, i: nat)
    requires IsRun(r) && i < |r.states|
    ensures Inv(r.states[i])
  {
    if i > 0 {
      RunInv(r, i - 1);
      assert Step(r.states[i - 1], r.events[i - 1], r.states[i]);
    }
  }

  /** Nothing is under way and nothing starts by itself. */
  predicate Quiet(s: State)
  {
    !s.running && !s.inCallback && s.armed == s.queuedOk == s.queuedFailed == 0
  }

  predicate NotStarted(r: Run, i: nat, j: nat)
    requires j <= |r.events|
  {
    forall k :: i <= k < j ==> !r.events[k].StartCalled?
  }

  lemma {:induction false} StaysQuiet(r: Run, i: nat, j: nat)
    requires IsRun(r) && i <= j <= |r.events| && Quiet(r.states[i]) && NotStarted(r, i, j)
    ensures Quiet(r.states[j])
    decreases j - i
  {
    if i < j {
      StaysQuiet(r, i, j - 1);
      assert Step(r.states[j - 1], r.events[j - 1], r.states[j]);
    }
  }

  /** Once stop has returned, no callback is running, and none is delivered
      before start is called again. */
  lemma QuietAfterStop(r: Run, i: nat, j: nat)
    requires IsRun(r) && i < j < |r.events| && r.events[i] == StopReturns && NotStarted(r, i + 1, j)
    ensures !r.states[i + 1].inCallback
    ensures !Notifies(r.states[j], r.events[j])
  {
    hide *;
    StepOf(r, i);
    RunInv(r, i);
    StopIsQuiet(r.states[i], r.states[i + 1]);
    StaysQuiet(r, i + 1, j);
    StepOf(r, j);
    QuietDoesNotNotify(r.states[j], r.events[j], r.states[j + 1]);
  }

  lemma StepOf(r: Run, i: nat)
    requires IsRun(r) && i < |r.events|
    ensures |r.states| == |r.events| + 1 && Step(r.states[i], r.events[i], r.states[i + 1])
  {
  }

  lemma StopIsQuiet(s: State, t: State)
    requires Inv(s) && Step(s, StopReturns, t)
    ensures Quiet(t) && !t.inCallback
  {
  }

  lemma QuietDoesNotNotify(s: State, e: Event, t: State)
    requires Quiet(s) && Step(s, e, t)
    ensures !Notifies(s, e)
  {
  }

  /** A start that does something: it finds the observer at rest. */
  predicate Starts(s: State, e: Event) { e.StartCalled? && !s.running }

  predicate NoStops(r: Run, i: nat, j: nat)
    requires j <= |r.events|
  {
    forall k :: i <= k < j ==> r.events[k] != StopFlagged
  }

  predicate NoStarts(r: Run, i: nat, j: nat)
    requires j <= |r.events| <= |r.states|
  {
    forall k :: i <= k < j ==> !Starts(r.states[k], r.events[k])
  }

  /** A start from rest takes the stop flag down, and it stays down until stop is
      called. */
  lemma {:induction false} StartClearsStop(r: Run, i: nat, j: nat)
    requires IsRun(r) && i < j <= |r.events| && Starts(r.states[i], r.events[i]) && NoStops(r, i, j)
    ensures !r.states[j].stop
    decreases j
  {
    assert Step(r.states[j - 1], r.events[j - 1], r.states[j]);
    if i < j - 1 {
      StartClearsStop(r, i, j - 1);
    }
  }

  /** So an observer that has been started, and not been stopped since, notifies on
      every successful completion, and re-arms. */
  lemma NotifiesAfterStart(r: Run, i: nat, j: nat)
    requires IsRun(r) && i < j < |r.events| && Starts(r.states[i], r.events[i]) && NoStops(r, i, j)
    requires r.events[j] == HandlerEnters(true)
    ensures Notifies(r.states[j], r.events[j])
    ensures r.states[j + 1].inCallback && r.states[j + 1].running && r.states[j + 1].armed == 1
  {
    StartClearsStop(r, i, j);
    RunInv(r, j);
    assert Step(r.states[j], r.events[j], r.states[j + 1]);
  }

  /** A stop raises the flag, and only a start from rest takes it down: until then
      no completion is notified. */
  lemma {:induction false} StopHolds(r: Run, i: nat, j: nat)
    requires IsRun(r) && i < j <= |r.events| && r.events[i] == StopFlagged && NoStarts(r, i + 1, j)
    ensures r.states[j].stop
    ensures j < |r.events| ==> !Notifies(r.states[j], r.events[j])
    decreases j
  {
    assert Step(r.states[j - 1], r.events[j - 1], r.states[j]);
    if i < j - 1 {
      StopHolds(r, i, j - 1);
    }
  }

  /** A handler that fails ends the observer, and a start then arms it again. */
  lemma RestartAfterFailure(r: Run, i: nat)
    requires IsRun(r) && i + 1 < |r.events|
    requires r.events[i] == HandlerEnters(false) && r.events[i + 1] == StartCalled
    ensures !r.states[i + 1].running
    ensures r.states[i + 2].running && r.states[i + 2].armed == 1 && !r.states[i + 2].stop
  {
    RunInv(r, i + 1);
    RunInv(r, i + 2);
    assert Step(r.states[i], r.events[i], r.states[i + 1]);
    assert Step(r.states[i + 1], r.events[i + 1], r.states[i + 2]);
  }

  /** Inside a callback start and stop throw and change nothing. */
  lemma CallbackIsLeftAlone(s: State, e: Event, t: State)
    requires s.inCallback && Step(s, e, t) && (e == StartCalled || e == StopFlagged || e == CalledInHandler)
    ensures e == CalledInHandler && t == s
  {
  }

  /** How far the last operation still has to go. */
  function Distance(s: State): nat
  {
    2 * s.armed + s.queuedOk + s.queuedFailed + if s.inCallback then 3 else 0
  }

  predicate Moves(e: Event) { e.Completes? || e.HandlerEnters? || e.HandlerLeaves? }

  /** The spinning loop of stop ends: while the flag is up and the observer runs,
      the operation or its handler can move; every such step brings the end
      closer and no other step but a start takes it further away. */
  lemma StopEnds(r: Run, i: nat)
    requires IsRun(r) && i < |r.states| && r.states[i].stop && r.states[i].running
    ensures var s := r.states[i];
            && (exists e, t :: Moves(e) && Step(s, e, t))
            && forall e, t :: Step(s, e, t) ==>
                 t.stop && if Moves(e) then Distance(t) < Distance(s) else t == s
  {
    RunInv(r, i);
    var s := r.states[i];
    if s.armed == 1 {
      assert Step(s, Completes(true), s.(armed := 0, queuedOk := s.queuedOk + 1));
    } else if s.inCallback {
      assert Step(s, HandlerLeaves, s.(inCallback := false));
    } else if s.queuedOk == 1 {
      assert Step(s, HandlerEnters(true), s.(queuedOk := 0, running := false));
    } else {
      assert Step(s, HandlerEnters(false), s.(queuedFailed := 0, running := false));
    }
  }
}
