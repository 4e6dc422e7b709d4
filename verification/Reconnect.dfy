/** yogi-cpp's AutoConnectingTcpClient: one mutex and one condition variable are
    shared by the reconnect thread, the connect and death handlers, start and
    the destructor. Everything between taking the mutex and releasing it (by
    leaving the block or by waiting) is one atomic step. `cv.wait` in the thread
    has no predicate, so a notification that finds nobody waiting is lost. */
module Reconnect {

  /** Where the reconnect thread is. Waiting: at the first wait of its loop,
      Delaying: at the second, timed one; Woken and DelayOver: runnable behind the
      respective wait. */
  datatype Thread = NotStarted | Waiting | Woken | Delaying | DelayOver | Returned

  /** Where the owner of the client is: outside, inside start, or inside the
      destructor. The object outlives start, so these exclude each other. */
  datatype Owner = Idle | StartBlocked | StartWoken | DtorBlocked | DtorWoken | Joining | Done

  /** The connection held: Dead once its death handler has run. */
  datatype Connection = NoConnection | Live | Dead

  datatype State = State(thread: Thread, owner: Owner, running: bool, initialised: bool,
                         connects: nat, connection: Connection, canceled: bool, validTarget: bool)

  datatype Outcome = Connected | AssignFailed | ConnectFailed | Canceled

  datatype Event =
    | ThreadBegins | ThreadResumes | DelayElapses
    | StartCalled | StartResumes
    | DtorCalled | DtorResumes | JoinReturns
    | OwnerWakesSpuriously
    | ConnectCompletes(outcome: Outcome)
    | ConnectionDies(byCancel: bool)

  predicate Init(s: State)
  {
    s == State(NotStarted, Idle, false, false, 0, NoConnection, false, s.validTarget)
  }

  predicate OwnerWaits(s: State) { s.owner == StartBlocked || s.owner == DtorBlocked }

  predicate ThreadWaits(s: State) { s.thread == Waiting || s.thread == Delaying }

  function WakeThread(s: State): State
  {
    s.(thread := if s.thread == Waiting then Woken else DelayOver)
  }

  function WakeOwner(s: State): State
  {
    s.(owner := if s.owner == StartBlocked then StartWoken else DtorWoken)
  }

  /** notify_one: one of the waiters, whichever, or nobody. */
  predicate NotifyOne(s: State, t: State)
  {
    if OwnerWaits(s) || ThreadWaits(s) then
      (OwnerWaits(s) && t == WakeOwner(s)) || (ThreadWaits(s) && t == WakeThread(s))
    else t == s
  }

  function StartConnect(s: State): State { s.(connects := s.connects + 1) }

  ghost predicate Step(s: State, e: Event, t: State)
  {
    match e
    case ThreadBegins =>
      s.thread == NotStarted &&
      exists u :: NotifyOne(s.(initialised := true), u) && t == u.(thread := Waiting)
    case ThreadResumes =>
      if s.thread == Woken then
        if !s.running then t == s.(thread := Returned)
        else t == s.(connection := NoConnection, thread := Delaying)
      else
        && s.thread == DelayOver
        && t == if !s.running then s.(thread := Returned) else StartConnect(s).(thread := Waiting)
    case DelayElapses =>
      s.thread == Delaying && t == s.(thread := DelayOver)
    case StartCalled =>
      && s.owner == Idle
      && t == if s.running || !s.validTarget then s             // throws
              else if s.initialised then StartConnect(s).(running := true)
              else s.(owner := StartBlocked)
    case StartResumes =>
      && s.owner == StartWoken
      && t == if s.initialised then StartConnect(s).(running := true, owner := Idle)
              else s.(owner := StartBlocked)
    case DtorCalled =>
      && s.owner == Idle
      && if s.initialised then NotifyOne(s.(running := false, owner := Joining), t)
         else t == s.(running := false, owner := DtorBlocked)
    case DtorResumes =>
      && s.owner == DtorWoken
      && if s.initialised then NotifyOne(s.(owner := Joining), t) else t == s.(owner := DtorBlocked)
    case JoinReturns =>
      s.owner == Joining && s.thread == Returned && t == s.(owner := Done)
    case OwnerWakesSpuriously =>
      OwnerWaits(s) && t == WakeOwner(s)
    case ConnectCompletes(o) =>
      && s.connects > 0
      && var u := s.(connects := s.connects - 1);
         if o == Canceled then t == u.(canceled := true)
         else if !s.running then t == u
         else if o == Connected then t == u.(connection := Live)
         else NotifyOne(u, t)
    case ConnectionDies(byCancel) =>
      && s.connection == Live
      && var u := s.(connection := Dead);
         if byCancel then t == u.(canceled := true)
         else if !s.running then t == u
         else NotifyOne(u, t)
  }

  // ---------------------------------------------------------------- the client

  /** thread and owner are where the two program counters stand between critical
      sections; each method below is one critical section. */
  class AutoConnectingTcpClient {
    var thread: Thread
    var owner: Owner
    var running: bool
    var threadInitialised: bool
    var connects: nat
    var connection: Connection
    ghost var canceled: bool
    const validTarget: bool

    ghost function Abs(): State
      reads this
    {
      State(thread, owner, running, threadInitialised, connects, connection, canceled, validTarget)
    }

    constructor (host: string, port: nat)
      ensures Init(Abs()) && validTarget == (host != "" && 0 < port <= 65535)
    {
      thread, owner, running, threadInitialised := NotStarted, Idle, false, false;
      connects, connection, canceled := 0, NoConnection, false;
      validTarget := host != "" && 0 < port <= 65535;
    }

    /** condition_variable::notify_one. */
    method NotifyOneWaiter()
      modifies this`thread, this`owner
      ensures NotifyOne(old(Abs()), Abs())
    {
      var ownerWaits := owner == StartBlocked || owner == DtorBlocked;
      var threadWaits := thread == Waiting || thread == Delaying;
      var preferOwner := *;
      if ownerWaits && (preferOwner || !threadWaits) {
        owner := if owner == StartBlocked then StartWoken else DtorWoken;
      } else if threadWaits {
        thread := if thread == Waiting then Woken else DelayOver;
      }
    }

    method BeginStartConnect()
      modifies this`connects
      ensures Abs() == StartConnect(old(Abs()))
    {
      connects := connects + 1;
    }

    /** reconnect_thread_fn up to its first wait. */
    method ThreadEnters()
      requires thread == NotStarted
      modifies this
      ensures Step(old(Abs()), ThreadBegins, Abs())
    {
      threadInitialised := true;
      ghost var s := Abs();
      NotifyOneWaiter();
      ghost var u := Abs();
      thread := Waiting;
      assert NotifyOne(s, u);
    }

    /** From one wait of the loop to the next. */
    method ThreadLoops()
      requires thread == Woken || thread == DelayOver
      modifies this
      ensures Step(old(Abs()), ThreadResumes, Abs())
    {
      if !running {
        thread := Returned;
        return;
      }
      if thread == Woken {
        connection := NoConnection;
        thread := Delaying;
      } else {
        BeginStartConnect();
        thread := Waiting;
      }
    }

    /** start up to its wait, which is left at once when the thread runs. */
    method Start() returns (started: bool)
      requires owner == Idle
      modifies this
      ensures Step(old(Abs()), StartCalled, Abs())
      ensures started <==> !old(running) && running
    {
      started := false;
      if running || !validTarget {
        return;
      }
      if threadInitialised {
        BeginStartConnect();
        running := true;
        started := true;
      } else {
        owner := StartBlocked;
      }
    }

    method StartContinues()
      requires owner == StartWoken
      modifies this
      ensures Step(old(Abs()), StartResumes, Abs())
    {
      if threadInitialised {
        BeginStartConnect();
        running := true;
        owner := Idle;
      } else {
        owner := StartBlocked;
      }
    }

    /** The destructor up to its wait. */
    method Destroy()
      requires owner == Idle
      modifies this
      ensures Step(old(Abs()), DtorCalled, Abs())
    {
      running := false;
      if threadInitialised {
        owner := Joining;
        NotifyOneWaiter();
      } else {
        owner := DtorBlocked;
      }
    }

    method DestroyContinues()
      requires owner == DtorWoken
      modifies this
      ensures Step(old(Abs()), DtorResumes, Abs())
    {
      if threadInitialised {
        owner := Joining;
        NotifyOneWaiter();
      } else {
        owner := DtorBlocked;
      }
    }

    method OnConnectCompleted(outcome: Outcome)
      requires connects > 0
      modifies this
      ensures Step(old(Abs()), ConnectCompletes(outcome), Abs())
    {
      connects := connects - 1;
      if outcome == Canceled {
        canceled := true;
        return;
      }
      if !running {
        return;
      }
      if outcome == Connected {
        connection := Live;
        return;
      }
      NotifyOneWaiter();
    }

    method OnConnectionDied(byCancel: bool)
      requires connection == Live
      modifies this
      ensures Step(old(Abs()), ConnectionDies(byCancel), Abs())
    {
      connection := Dead;
      if byCancel {
        canceled := true;
        return;
      }
      if !running {
        return;
      }
      NotifyOneWaiter();
    }
  }

  // ---------------------------------------------------------------- invariant

  function Count(b: bool): nat { if b then 1 else 0 }

  /** The things that can bring the client its next connection. */
  function Activities(s: State): nat
  {
    Count(s.connects > 0) + Count(s.connection == Live)
    + Count(s.thread == Woken) + Count(s.thread == Delaying) + Count(s.thread == DelayOver)
  }

  predicate Inv(s: State)
  {
    && s.connects <= 1
    && (s.thread == NotStarted <==> !s.initialised)
    && (OwnerWaits(s) ==> !s.initialised)
    && (s.owner in {StartBlocked, StartWoken, DtorBlocked, DtorWoken} ==>
          !s.running && s.thread in {NotStarted, Waiting})
    && (s.owner in {StartBlocked, StartWoken} ==> s.connects == 0 && s.connection == NoConnection)
    && (s.owner in {Joining, Done} ==> !s.running && s.thread in {Woken, DelayOver, Returned})
    && (s.owner == Done ==> s.thread == Returned)
    && (s.owner == Idle && !s.running ==>
          s.connects == 0 && s.connection == NoConnection && s.thread in {NotStarted, Waiting} && !s.canceled)
    && (s.running ==>
          && s.owner == Idle && s.initialised && s.thread != Returned
          && Activities(s) <= 1
          && (!s.canceled ==> Activities(s) == 1)
          && (s.connection != NoConnection ==> s.connects == 0)
          && (s.thread in {Delaying, DelayOver} ==> s.connection == NoConnection))
  }

  lemma InitInv(s: State)
    requires Init(s)
    ensures Inv(s)
  {
  }

  lemma ThreadStepInv(s: State, e: Event, t: State)
    requires Inv(s) && Step(s, e, t) && (e.ThreadBegins? || e.ThreadResumes? || e.DelayElapses?)
    ensures Inv(t)
  {
    if e == ThreadBegins {
      var u :| NotifyOne(s.(initialised := true), u) && t == u.(thread := Waiting);
      assert u == s.(initialised := true) || u == WakeOwner(s.(initialised := true));
    }
  }

  lemma StartStepInv(s: State, e: Event, t: State)
    requires Inv(s) && Step(s, e, t) && (e.StartCalled? || e.StartResumes? || e.OwnerWakesSpuriously?)
    ensures Inv(t)
  {
  }

  lemma DtorStepInv(s: State, e: Event, t: State)
    requires Inv(s) && Step(s, e, t) && (e.DtorCalled? || e.DtorResumes? || e.JoinReturns?)
    ensures Inv(t)
  {
  }

  lemma HandlerStepInv(s: State, e: Event, t: State)
    requires Inv(s) && Step(s, e, t) && (e.ConnectCompletes? || e.ConnectionDies?)
    ensures Inv(t)
  {
  }

  lemma StepInv(s: State, e: Event, t: State)
    requires Inv(s) && Step(s, e, t)
    ensures Inv(t)
  {
    hide Inv, Step;
    if e.ThreadBegins? || e.ThreadResumes? || e.DelayElapses? {
      ThreadStepInv(s, e, t);
    } else if e.ConnectCompletes? || e.ConnectionDies? {
      HandlerStepInv(s, e, t);
    } else if e.StartCalled? || e.StartResumes? || e.OwnerWakesSpuriously? {
      StartStepInv(s, e, t);
    } else {
      DtorStepInv(s, e, t);
    }
  }

  // --------------------------------------------------------------------- runs

  datatype Run = Run(states: seq<State>, events: seq<Event>)

  ghost predicate IsRun(r: Run)
  {
    && |r.states| == |r.events| + 1
    && Init(r.states[0])
    && forall i :: 0 <= i < |r.events| ==> Step(r.states[i], r.events[i], r.states[i + 1])
  }

  lemma {:induction false} RunInv(r: Run, i: nat)
    requires IsRun(r) && i < |r.states|
    ensures Inv(r.states[i])
  {
    if i == 0 {
      InitInv(r.states[0]);
    } else {
      RunInv(r, i - 1);
      StepInv(r.states[i - 1], r.events[i - 1], r.states[i]);
    }
  }

  /** Never two connects in flight, and none is started while a connection is
      held. */
  lemma OneConnectAtATime(r: Run, i: nat)
    requires IsRun(r) && i < |r.events|
    ensures r.states[i + 1].connects <= 1
    ensures r.states[i + 1].connects > r.states[i].connects ==>
              r.states[i].connects == 0 && r.states[i].connection == NoConnection
  {
    RunInv(r, i);
    RunInv(r, i + 1);
    if r.states[i + 1].connects > r.states[i].connects {
      StartsOnlyIdle(r.states[i], r.events[i], r.states[i + 1]);
    }
  }

  lemma StartsOnlyIdle(s: State, e: Event, t: State)
    requires Inv(s) && Step(s, e, t) && t.connects > s.connects
    ensures s.connects == 0 && s.connection == NoConnection
  {
  }

  /** No wakeup is lost: a connect that fails, or a connection that dies, while
      the client is running finds the thread waiting and wakes it. */
  lemma NoWakeupLost(r: Run, i: nat)
    requires IsRun(r) && i < |r.events| && r.states[i].running
    requires r.events[i] in {ConnectCompletes(AssignFailed), ConnectCompletes(ConnectFailed), ConnectionDies(false)}
    ensures r.states[i].thread == Waiting && r.states[i + 1].thread == Woken
  {
    RunInv(r, i);
    assert Step(r.states[i], r.events[i], r.states[i + 1]);
    assert Activities(r.states[i]) <= 1;
  }

  /** While the client is running and nothing was cancelled, exactly one thing is
      under way: a connect, a live connection, or the thread on its way to the
      next connect. */
  lemma AlwaysReconnecting(r: Run, i: nat)
    requires IsRun(r) && i < |r.states| && r.states[i].running && !r.states[i].canceled
    ensures Activities(r.states[i]) == 1
  {
    RunInv(r, i);
  }

  /** Once the destructor joins, the thread has returned or its next step
      returns, and no other step takes that away: join cannot hang. */
  lemma JoinCannotHang(r: Run, i: nat)
    requires IsRun(r) && i < |r.states| && r.states[i].owner == Joining
    ensures r.states[i].thread == Returned || Step(r.states[i], ThreadResumes, r.states[i].(thread := Returned))
    ensures forall e, t :: Step(r.states[i], e, t) ==>
              t.thread == Returned || t.thread == r.states[i].thread
  {
    RunInv(r, i);
  }

  /** start and the destructor wait only for a thread that has yet to begin, and
      its first step wakes exactly them. */
  lemma OwnerIsWoken(r: Run, i: nat)
    requires IsRun(r) && i < |r.states| && OwnerWaits(r.states[i])
    ensures var s := r.states[i];
            && s.thread == NotStarted
            && (exists t :: Step(s, ThreadBegins, t))
            && forall t :: Step(s, ThreadBegins, t) ==> t == WakeOwner(s).(initialised := true, thread := Waiting)
  {
    RunInv(r, i);
    var s := r.states[i];
    var u := s.(initialised := true);
    assert NotifyOne(u, WakeOwner(u));
    assert Step(s, ThreadBegins, WakeOwner(u).(thread := Waiting));
  }

  /** Once the client has been stopped, a handler that still runs keeps nothing and
      wakes nobody. */
  lemma StoppedHandlersDoNothing(s: State, e: Event, t: State)
    requires Step(s, e, t) && !s.running && (e.ConnectCompletes? || e.ConnectionDies?)
    ensures t.thread == s.thread && t.owner == s.owner && !t.running
    ensures t.connects <= s.connects && (t.connection == s.connection || t.connection == Dead)
  {
  }

  /** Nor does one that is told that its operation was cancelled. */
  lemma CanceledHandlersDoNothing(s: State, e: Event, t: State)
    requires Step(s, e, t) && (e == ConnectCompletes(Canceled) || e == ConnectionDies(true))
    ensures t.thread == s.thread && t.owner == s.owner && t.running == s.running && t.canceled
    ensures t.connects <= s.connects && (t.connection == s.connection || t.connection == Dead)
  {
  }

  /** A client without a valid target never starts. */
  lemma {:induction false} InvalidTargetNeverConnects(r: Run, i: nat)
    requires IsRun(r) && i < |r.states| && !r.states[0].validTarget
    ensures var s := r.states[i];
      && !s.validTarget && !s.running && s.connects == 0 && s.connection == NoConnection
      && s.owner !in {StartBlocked, StartWoken}
  {
    if i > 0 {
      InvalidTargetNeverConnects(r, i - 1);
      NeverStarts(r.states[i - 1], r.events[i - 1], r.states[i]);
    }
  }

  lemma NeverStarts(s: State, e: Event, t: State)
    requires Step(s, e, t) && !s.validTarget && !s.running && s.connects == 0 && s.connection == NoConnection
    requires s.owner !in {StartBlocked, StartWoken}
    ensures !t.validTarget && !t.running && t.connects == 0 && t.connection == NoConnection
    ensures t.owner !in {StartBlocked, StartWoken}
  {
  }

  /** Apart from start, connects are begun by the thread only, behind its delay. */
  lemma ReconnectsAfterDelay(s: State, e: Event, t: State)
    requires Step(s, e, t) && t.connects > s.connects
    ensures t.connects == s.connects + 1
    ensures e == StartCalled || e == StartResumes || (e == ThreadResumes && s.thread == DelayOver)
  {
  }

  /** It comes to that from its delay only, and delays only when it has been woken,
      with the old connection gone. */
  lemma DelaysWhenWoken(s: State, e: Event, t: State)
    requires Step(s, e, t)
    ensures t.thread == DelayOver ==> s.thread == DelayOver || s.thread == Delaying
    ensures t.thread == Delaying && s.thread != Delaying ==> s.thread == Woken && t.connection == NoConnection
  {
  }

  /** A start that does not throw connects, at once or when the thread has begun. */
  lemma StartConnects(r: Run, i: nat)
    requires IsRun(r) && i < |r.events|
    requires r.events[i] == StartCalled || r.events[i] == StartResumes
    requires !r.states[i].running && r.states[i].validTarget
    ensures var t := r.states[i + 1];
      (t.running && t.connects == 1) || (t.owner == StartBlocked && t.thread == NotStarted)
  {
    RunInv(r, i);
    RunInv(r, i + 1);
    assert Step(r.states[i], r.events[i], r.states[i + 1]);
  }

  // -------------------------------------------------------- spurious wakeups

  /** Owners check their condition again, and waking from the delay early is like
      waking from it in time; so the only wait a spurious wakeup can hurt is the
      thread's first one. */
  predicate ThreadWakesSpuriously(s: State, t: State)
  {
    s.thread == Waiting && t == s.(thread := Woken)
  }

  /** A state without what the client guarantees: something is bringing the next
      connection, and join comes to an end. */
  predicate BrokenState(s: State)
  {
    || (s.running && !s.canceled && Activities(s) != 1)
    || (s.owner == Joining && s.thread !in {Woken, DelayOver, Returned})
  }

  /** A step that should not happen: it starts a connect beside another one or
      beside a connection, drops a live connection, or fails to wake the thread. */
  predicate BrokenStep(s: State, e: Event, t: State)
  {
    || (t.connects > s.connects && !(s.connects == 0 && s.connection == NoConnection))
    || (s.connection == Live && t.connection == NoConnection)
    || (s.running && !(s.thread == Waiting && t.thread == Woken)
        && e in {ConnectCompletes(AssignFailed), ConnectCompletes(ConnectFailed), ConnectionDies(false)})
  }

  /** A run that goes on from a state, without further spurious wakeups of the
      thread. */
  ghost predicate Continues(s: State, r: Run)
  {
    && |r.states| == |r.events| + 1
    && r.states[0] == s
    && forall i :: 0 <= i < |r.events| ==> Step(r.states[i], r.events[i], r.states[i + 1])
  }

  predicate Breaks(r: Run)
  {
    && |r.states| == |r.events| + 1
    && ((exists i :: 0 <= i < |r.states| && BrokenState(r.states[i]))
        || exists i :: 0 <= i < |r.events| && BrokenStep(r.states[i], r.events[i], r.states[i + 1]))
  }

  /** From this state the client may break one of its guarantees. */
  ghost predicate Harmful(s: State)
  {
    exists r: Run :: Continues(s, r) && Breaks(r)
  }

  /** The thread returns, or has, and the client is not started any more. */
  predicate Finishing(s: State)
  {
    && !s.running && s.initialised && s.thread in {Woken, Returned}
    && (s.owner in {DtorWoken, Joining, Done} || (s.owner == Idle && !s.validTarget))
  }

  lemma InvDoesNotBreak(s: State, e: Event, t: State)
    requires Inv(s) && Step(s, e, t)
    ensures !BrokenState(s) && !BrokenStep(s, e, t)
  {
    hide Step;
    if t.connects > s.connects {
      StartsOnlyIdle(s, e, t);
    }
    if s.connection == Live {
      KeepsLive(s, e, t);
    }
    if s.running && e in {ConnectCompletes(AssignFailed), ConnectCompletes(ConnectFailed), ConnectionDies(false)} {
      FailureWakes(s, e, t);
    }
  }

  lemma KeepsLive(s: State, e: Event, t: State)
    requires Inv(s) && Step(s, e, t) && s.connection == Live
    ensures t.connection != NoConnection
  {
  }

  lemma FailureWakes(s: State, e: Event, t: State)
    requires Inv(s) && Step(s, e, t) && s.running
    requires e in {ConnectCompletes(AssignFailed), ConnectCompletes(ConnectFailed), ConnectionDies(false)}
    ensures s.thread == Waiting && t.thread == Woken
  {
    assert Activities(s) <= 1;
  }

  lemma FinishingStays(s: State, e: Event, t: State)
    requires Finishing(s) && Step(s, e, t)
    ensures Finishing(t) && !BrokenStep(s, e, t)
  {
  }

  predicate Safe(s: State) { Inv(s) || Finishing(s) }

  lemma {:induction false} SafeForever(start: State, r: Run, n: nat)
    requires Continues(start, r) && n <= |r.events| && Safe(start)
    ensures Safe(r.states[n]) && !BrokenState(r.states[n])
    ensures n > 0 ==> !BrokenStep(r.states[n - 1], r.events[n - 1], r.states[n])
  {
    hide Inv, Step, BrokenStep, BrokenState, Finishing;
    if n == 0 {
      SafeIsNotBroken(start);
    } else {
      SafeForever(start, r, n - 1);
      var s, e, t := r.states[n - 1], r.events[n - 1], r.states[n];
      if Inv(s) {
        StepInv(s, e, t);
        InvDoesNotBreak(s, e, t);
      } else {
        FinishingStays(s, e, t);
      }
      SafeIsNotBroken(t);
    }
  }

  lemma SafeIsNotBroken(s: State)
    requires Safe(s)
    ensures !BrokenState(s)
  {
  }

  lemma SafeRun(s: State, r: Run)
    requires Continues(s, r) && Safe(s)
    ensures !Breaks(r)
  {
    hide Step, BrokenState, BrokenStep, Safe;
    forall i | 0 <= i < |r.states| ensures !BrokenState(r.states[i]) { SafeForever(s, r, i); }
    forall i | 0 <= i < |r.events| ensures !BrokenStep(r.states[i], r.events[i], r.states[i + 1]) {
      SafeForever(s, r, i + 1);
    }
  }

  lemma SafeIsHarmless(s: State)
    requires Safe(s)
    ensures !Harmful(s)
  {
    hide Continues, Breaks, Safe;
    forall r: Run | Continues(s, r) ensures !Breaks(r) {
      SafeRun(s, r);
    }
  }

  /** A woken thread drops the connection, waits, and connects, whether or not a
      connect is in flight. */
  lemma WokenWhileBusy(s: State)
    requires s.running && s.thread == Woken && (s.connects > 0 || s.connection == Live)
    ensures Harmful(s)
  {
    var s1 := s.(connection := NoConnection, thread := Delaying);
    var s2 := s1.(thread := DelayOver);
    var s3 := StartConnect(s2).(thread := Waiting);
    var r := Run([s, s1, s2, s3], [ThreadResumes, DelayElapses, ThreadResumes]);
    assert Step(s, ThreadResumes, s1) && Step(s1, DelayElapses, s2) && Step(s2, ThreadResumes, s3);
    assert Continues(s, r);
    if s.connection == Live {
      assert BrokenStep(r.states[0], r.events[0], r.states[1]);
    } else {
      assert BrokenStep(r.states[2], r.events[2], r.states[3]);
    }
  }

  lemma HarmfulBefore(s: State, e: Event, t: State)
    requires Step(s, e, t) && Harmful(t)
    ensures Harmful(s)
  {
    hide Step, BrokenState, BrokenStep;
    var r: Run :| Continues(t, r) && Breaks(r);
    var longer := Run([s] + r.states, [e] + r.events);
    forall i | 0 <= i < |longer.events|
      ensures Step(longer.states[i], longer.events[i], longer.states[i + 1])
    {
      if i > 0 {
        assert Step(r.states[i - 1], r.events[i - 1], r.states[i]);
      }
    }
    if i :| 0 <= i < |r.states| && BrokenState(r.states[i]) {
      assert BrokenState(longer.states[i + 1]);
    } else {
      var i :| 0 <= i < |r.events| && BrokenStep(r.states[i], r.events[i], r.states[i + 1]);
      assert BrokenStep(longer.states[i + 1], longer.events[i + 1], longer.states[i + 2]);
    }
    assert Continues(s, longer) && Breaks(longer);
  }

  /** Where the thread must not wake: while a connect is in flight or a connection
      is live, and while the client can still be started. */
  predicate Exposed(s: State)
  {
    || (s.running && (s.connects > 0 || s.connection == Live))
    || s.owner == StartWoken
    || (s.owner == Idle && !s.running && s.validTarget)
  }

  /** One spurious wakeup of the thread is followed by a broken guarantee in some
      run if and only if it hits an exposed state. Otherwise the thread was to wake
      anyway, or nobody will start the client any more. */
  lemma SpuriousWakeupHarmfulIff(s: State, t: State)
    requires Inv(s) && ThreadWakesSpuriously(s, t)
    ensures Harmful(t) <==> Exposed(s)
  {
    hide Step, Harmful;
    if Exposed(s) {
      ExposedIsHarmful(s, t);
    } else {
      UnexposedIsSafe(s, t);
      SafeIsHarmless(t);
    }
  }

  lemma UnexposedIsSafe(s: State, t: State)
    requires Inv(s) && ThreadWakesSpuriously(s, t) && !Exposed(s)
    ensures Safe(t)
  {
  }

  lemma ExposedIsHarmful(s: State, t: State)
    requires Inv(s) && ThreadWakesSpuriously(s, t) && Exposed(s)
    ensures Harmful(t)
  {
    hide Harmful;
    if s.running {
      WokenWhileBusy(t);
    } else {
      var u := StartConnect(t).(running := true, owner := Idle);
      if s.owner == StartWoken {
        assert Step(t, StartResumes, u);
        WokenWhileBusy(u);
        HarmfulBefore(t, StartResumes, u);
      } else {
        assert Step(t, StartCalled, u);
        WokenWhileBusy(u);
        HarmfulBefore(t, StartCalled, u);
      }
    }
  }

  /** Right after start, one spurious wakeup of the thread leads to two connects
      in flight. */
  lemma SpuriousWakeupBreaksIt() returns (r: Run, woken: State, delaying: State, over: State, end: State)
    ensures IsRun(r) && r.events == [ThreadBegins, StartCalled]
    ensures ThreadWakesSpuriously(r.states[2], woken)
    ensures Step(woken, ThreadResumes, delaying) && Step(delaying, DelayElapses, over)
    ensures Step(over, ThreadResumes, end) && end.connects == 2
  {
    var s0 := State(NotStarted, Idle, false, false, 0, NoConnection, false, true);
    var s1 := s0.(initialised := true, thread := Waiting);
    var s2 := s1.(connects := 1, running := true);
    r := Run([s0, s1, s2], [ThreadBegins, StartCalled]);
    assert NotifyOne(s0.(initialised := true), s0.(initialised := true));
    assert Step(s0, ThreadBegins, s1) && Step(s1, StartCalled, s2);
    woken := s2.(thread := Woken);
    delaying := woken.(thread := Delaying);
    over := delaying.(thread := DelayOver);
    end := over.(thread := Waiting, connects := 2);
  }

  /** Before start, it has the thread return; the client then connects once, and
      a connect that fails finds nobody to wake. */
  lemma SpuriousWakeupEndsThread() returns (r: Run, woken: State, returned: State, started: State, failed: State)
    ensures IsRun(r) && r.events == [ThreadBegins]
    ensures ThreadWakesSpuriously(r.states[1], woken)
    ensures Step(woken, ThreadResumes, returned) && Step(returned, StartCalled, started)
    ensures Step(started, ConnectCompletes(ConnectFailed), failed)
    ensures failed.running && !failed.canceled && Activities(failed) == 0 && failed.thread == Returned
  {
    var s0 := State(NotStarted, Idle, false, false, 0, NoConnection, false, true);
    var s1 := s0.(initialised := true, thread := Waiting);
    r := Run([s0, s1], [ThreadBegins]);
    assert NotifyOne(s0.(initialised := true), s0.(initialised := true));
    assert Step(s0, ThreadBegins, s1);
    woken := s1.(thread := Woken);
    returned := woken.(thread := Returned);
    started := returned.(connects := 1, running := true);
    failed := started.(connects := 0);
  }
}
