/** yogi-supervisor keeps a service running: it runs the service's execution
    command, runs it again some time after it has finished, and kills it and runs
    it at once when a watched file has changed. */
module ServiceLoop {

  // ----------------------------------------------------------------- commands

  datatype ExitStatus = SUCCESS | FAILURE | TIMEOUT | CANCELED | KILLED | STARTUP_FAILURE

  /** What waitpid says of a child that is gone. */
  datatype WaitStatus = Exited(code: nat) | Signaled

  /** Waiting: the child runs or has not been reaped. Completing: the completion
      handler is queued. */
  datatype Phase = Waiting | Completing(status: ExitStatus) | Done

  /** hasChild: the process id is not 0; a failed fork leaves -1 there. */
  datatype Execution = Execution(phase: Phase, hasChild: bool, killed: bool, timedOut: bool)

  function Started(forked: bool): Execution
  {
    Execution(if forked then Waiting else Completing(STARTUP_FAILURE), true, false, false)
  }

  function Killed(r: Execution): Execution { if r.hasChild then r.(killed := true) else r }

  function Classify(r: Execution, w: WaitStatus): ExitStatus
  {
    if r.killed && !r.timedOut then KILLED
    else match w
      case Exited(code) => if code == 0 then SUCCESS else FAILURE
      case Signaled => if r.timedOut then TIMEOUT else CANCELED
  }

  function Reaped(r: Execution, w: WaitStatus): Execution
  {
    r.(phase := Completing(Classify(r, w)), hasChild := false)
  }

  /** What can happen to a run before its child is reaped. */
  datatype Signal = KillCalled | TimerFired

  function Signalled(r: Execution, signals: seq<Signal>): Execution
  {
    if signals == [] then r
    else
      var before := Signalled(r, signals[..|signals| - 1]);
      if signals[|signals| - 1].KillCalled? then Killed(before) else Killed(before).(timedOut := true)
  }

  lemma {:induction false} SignalledIs(signals: seq<Signal>)
    ensures Signalled(Started(true), signals) == Execution(Waiting, true, signals != [], TimerFired in signals)
  {
    if signals != [] {
      var n := |signals| - 1;
      SignalledIs(signals[..n]);
      assert signals == signals[..n] + [signals[n]];
    }
  }

  lemma SomeSignal(signals: seq<Signal>)
    ensures signals != [] <==> KillCalled in signals || TimerFired in signals
  {
    if signals != [] {
      assert signals[0] in signals && (signals[0] == KillCalled || signals[0] == TimerFired);
    }
  }

  /** A run counts as killed when it was killed and did not time out, in whatever
      order the two came; as timed out only if the signal ended it; and as
      cancelled when the signal was somebody else's. */
  lemma StatusAfterSignals(signals: seq<Signal>, w: WaitStatus)
    ensures var status := Classify(Signalled(Started(true), signals), w);
      && (status == KILLED <==> KillCalled in signals && TimerFired !in signals)
      && (status == TIMEOUT <==> TimerFired in signals && w.Signaled?)
      && (status == CANCELED <==> signals == [] && w.Signaled?)
      && (status == SUCCESS <==> (signals == [] || TimerFired in signals) && w == Exited(0))
      && status != STARTUP_FAILURE
  {
    hide Signalled;
    SignalledIs(signals);
    SomeSignal(signals);
  }

  /** A fork that has failed completes as just that, whoever kills the run. */
  lemma {:induction false} FailedFork(signals: seq<Signal>)
    ensures Signalled(Started(false), signals).phase == Completing(STARTUP_FAILURE)
  {
    if signals != [] {
      FailedFork(signals[..|signals| - 1]);
    }
  }

  /** A child that has been reaped is not killed any more: its process id may be
      somebody else's. */
  lemma ReapedIsLeftAlone(r: Execution, w: WaitStatus)
    ensures Killed(Reaped(r, w)) == Reaped(r, w)
    ensures Reaped(r, w).phase == Completing(Classify(r, w)) && !Reaped(r, w).hasChild
  {
  }

  /** One run of a command. */
  class Command {
    var phase: Phase
    var childPid: int
    var killed: bool
    var timedOut: bool

    ghost function Abs(): Execution
      reads this
    {
      Execution(phase, childPid != 0, killed, timedOut)
    }

    /** The constructor and async_run: pid is what fork returned to the parent. */
    constructor (pid: int)
      requires pid == -1 || pid > 0
      ensures Abs() == Started(pid > 0)
    {
      childPid, killed, timedOut := pid, false, false;
      phase := if pid == -1 then Completing(STARTUP_FAILURE) else Waiting;
    }

    /** kill_child. */
    method Kill()
      modifies this`killed
      ensures Abs() == Killed(old(Abs()))
    {
      if childPid != 0 && !killed {
        killed := true;
      }
    }

    method OnTimeout()
      modifies this`killed, this`timedOut
      ensures Abs() == Killed(old(Abs())).(timedOut := true)
    {
      Kill();
      timedOut := true;
    }

    /** The signal handler once waitpid has reaped the child. */
    method OnChildTerminated(w: WaitStatus)
      requires phase.Waiting?
      modifies this
      ensures Abs() == Reaped(old(Abs()), w)
    {
      var es := match w
        case Exited(code) => if code == 0 then SUCCESS else FAILURE
        case Signaled => if timedOut then TIMEOUT else CANCELED;
      if killed && !timedOut {
        es := KILLED;
      }
      childPid := 0;
      phase := Completing(es);
    }

    method Complete() returns (es: ExitStatus)
      requires phase.Completing?
      modifies this`phase
      ensures es == old(phase).status && Abs() == old(Abs()).(phase := Done)
    {
      es := phase.status;
      phase := Done;
    }
  }

  // ------------------------------------------------------------------ services

  /** runs: every run of the execution command, the current one last. armed: the
      restart timer is running. queued: expirations of the timer whose handlers
      wait to be called, which arming the timer again does not take back. */
  datatype State = State(runs: seq<Execution>, armed: bool, queued: nat, finiteDelay: bool)

  datatype Event =
    | ChildTerminated(i: nat, w: WaitStatus)
    | CommandFinished(i: nat)
    | TimerExpired
    | TimerHandler(forked: bool)
    | FileChanged(forked: bool)

  function KillCurrent(runs: seq<Execution>): seq<Execution>
  {
    if runs == [] then [] else runs[|runs| - 1 := Killed(runs[|runs| - 1])]
  }

  predicate Enabled(s: State, e: Event)
  {
    match e
    case ChildTerminated(i, _) => i < |s.runs| && s.runs[i].phase.Waiting?
    case CommandFinished(i) => i < |s.runs| && s.runs[i].phase.Completing?
    case TimerExpired => s.armed
    case TimerHandler(_) => s.queued > 0
    case FileChanged(_) => s.runs != []
  }

  function After(s: State, e: Event): State
    requires Enabled(s, e)
  {
    match e
    case ChildTerminated(i, w) => s.(runs := s.runs[i := Reaped(s.runs[i], w)])
    case CommandFinished(i) =>
      s.(runs := s.runs[i := s.runs[i].(phase := Done)],
         armed := s.armed || (s.finiteDelay && s.runs[i].phase.status != KILLED))
    case TimerExpired => s.(armed := false, queued := s.queued + 1)
    case TimerHandler(forked) => s.(runs := s.runs + [Started(forked)], queued := s.queued - 1)
    case FileChanged(forked) => s.(runs := KillCurrent(s.runs) + [Started(forked)])
  }

  /** The startup command has succeeded and the execution command been run. */
  function Initial(forked: bool, finiteDelay: bool): State { State([Started(forked)], false, 0, finiteDelay) }

  class Service {
    var runs: seq<Command>
    var armed: bool
    var queued: nat
    const finiteDelay: bool

    ghost predicate Valid()
      reads this
    {
      runs != [] && forall i, j :: 0 <= i < j < |runs| ==> runs[i] != runs[j]
    }

    ghost function Abs(): State
      reads this, runs
    {
      State(seq(|runs|, i requires 0 <= i < |runs| reads this, runs => runs[i].Abs()), armed, queued, finiteDelay)
    }

    /** on_startup_command_finished_successfully. */
    constructor (pid: int, finite: bool)
      requires pid == -1 || pid > 0
      ensures Valid() && fresh(runs) && Abs() == Initial(pid > 0, finite)
    {
      armed, queued, finiteDelay := false, 0, finite;
      var c := new Command(pid);
      runs := [c];
      new;
      assert Abs().runs == Initial(pid > 0, finite).runs;
    }

    method RunExecutionCommand(pid: int)
      requires Valid() && (pid == -1 || pid > 0)
      modifies this`runs
      ensures Valid() && Abs() == old(Abs()).(runs := old(Abs()).runs + [Started(pid > 0)])
      ensures |runs| == |old(runs)| + 1 && runs[..|runs| - 1] == old(runs) && fresh(runs[|runs| - 1])
    {
      var c := new Command(pid);
      ghost var before := Abs().runs;
      runs := runs + [c];
      assert Abs().runs == before + [Started(pid > 0)];
    }

    method OnWatchedFileChanged(pid: int)
      requires Valid() && (pid == -1 || pid > 0)
      modifies this`runs, runs[|runs| - 1]
      ensures Valid() && Abs() == After(old(Abs()), FileChanged(pid > 0))
    {
      ghost var before := Abs().runs;
      runs[|runs| - 1].Kill();
      assert Abs().runs == KillCurrent(before);
      RunExecutionCommand(pid);
    }

    method OnChildTerminated(i: nat, w: WaitStatus)
      requires Valid() && i < |runs| && runs[i].phase.Waiting?
      modifies runs[i]
      ensures Valid() && Abs() == After(old(Abs()), ChildTerminated(i, w))
    {
      ghost var before := Abs().runs;
      runs[i].OnChildTerminated(w);
      assert Abs().runs == before[i := Reaped(before[i], w)];
    }

    /** on_execution_command_finished and start_restart_timer. */
    method OnExecutionCommandFinished(i: nat)
      requires Valid() && i < |runs| && runs[i].phase.Completing?
      modifies this`armed, runs[i]
      ensures Valid() && Abs() == After(old(Abs()), CommandFinished(i))
    {
      ghost var before := Abs().runs;
      var exitStatus := runs[i].Complete();
      if exitStatus != KILLED {
        if finiteDelay {
          armed := true;
        }
      }
      assert Abs().runs == before[i := before[i].(phase := Done)];
    }

    method OnRestartTimerTimedOut(pid: int)
      requires Valid() && queued > 0 && (pid == -1 || pid > 0)
      modifies this`runs, this`queued
      ensures Valid() && Abs() == After(old(Abs()), TimerHandler(pid > 0))
    {
      queued := queued - 1;
      RunExecutionCommand(pid);
    }
  }

  // -------------------------------------------------- what keeps a service going

  /** A run that nobody has killed keeps the service going until its completion
      handler has been called. */
  predicate KeepsGoing(r: Execution)
  {
    (r.phase.Waiting? && !r.killed) || (r.phase.Completing? && r.phase.status != KILLED)
  }

  function Unkilled(runs: seq<Execution>): nat
  {
    if runs == [] then 0
    else Unkilled(runs[..|runs| - 1]) + if KeepsGoing(runs[|runs| - 1]) then 1 else 0
  }

  function One(b: bool): nat { if b then 1 else 0 }

  /** Unkilled runs, and pending restarts. */
  function Pending(s: State): nat { Unkilled(s.runs) + One(s.armed) + s.queued }

  /** A file change is late when it does not find the current command running
      unkilled: it adds a run to the restart that is under way. */
  predicate Late(s: State, e: Event)
  {
    e.FileChanged? && s.runs != [] && !(s.runs[|s.runs| - 1].phase.Waiting? && KeepsGoing(s.runs[|s.runs| - 1]))
  }

  /** An unkilled run that finishes leads to a restart of its own unless the
      timer is armed already, or never runs at all. */
  predicate Dropped(s: State, e: Event)
  {
    e.CommandFinished? && e.i < |s.runs| && KeepsGoing(s.runs[e.i]) && (s.armed || !s.finiteDelay)
  }

  /** The facts about single runs the account rests on: execution commands have
      no timeout, only killed ones finish as killed, and a failed fork leaves a
      run that can be marked as killed but completes all the same. */
  predicate ExecutionValid(r: Execution)
  {
    && !r.timedOut
    && (r.phase.Waiting? ==> r.hasChild)
    && (r.phase == Completing(KILLED) ==> r.killed)
  }

  predicate AllValid(runs: seq<Execution>) { forall i :: 0 <= i < |runs| ==> ExecutionValid(runs[i]) }

  ghost predicate Valid(s: State)
  {
    && s.runs != [] && AllValid(s.runs)
    && (!s.finiteDelay ==> !s.armed && s.queued == 0)
  }

  lemma {:induction false} UnkilledUpdate(runs: seq<Execution>, i: nat, r: Execution)
    requires i < |runs|
    ensures Unkilled(runs[i := r]) + One(KeepsGoing(runs[i])) == Unkilled(runs) + One(KeepsGoing(r))
  {
    hide KeepsGoing;
    var n := |runs| - 1;
    if i == n {
      assert runs[i := r][..n] == runs[..n];
    } else {
      assert runs[i := r][..n] == runs[..n][i := r];
      UnkilledUpdate(runs[..n], i, r);
    }
  }

  lemma UnkilledStarted(runs: seq<Execution>, forked: bool)
    ensures Unkilled(runs + [Started(forked)]) == Unkilled(runs) + 1
  {
    assert (runs + [Started(forked)])[..|runs|] == runs;
  }

  /** What the events do to single runs. */
  lemma ReapedExecution(r: Execution, w: WaitStatus)
    requires ExecutionValid(r) && r.phase.Waiting?
    ensures ExecutionValid(Reaped(r, w)) && KeepsGoing(Reaped(r, w)) == KeepsGoing(r)
  {
  }

  lemma DoneExecution(r: Execution)
    requires ExecutionValid(r) && r.phase.Completing?
    ensures ExecutionValid(r.(phase := Done)) && !KeepsGoing(r.(phase := Done))
    ensures KeepsGoing(r) == (r.phase.status != KILLED)
  {
  }

  lemma KilledStops(r: Execution)
    requires ExecutionValid(r)
    ensures ExecutionValid(Killed(r)) && KeepsGoing(Killed(r)) == (KeepsGoing(r) && !r.phase.Waiting?)
  {
  }

  /** The account of one step: a late file change puts one in, a dropped
      completion takes one out, and everything else hands one on. */
  lemma OneStep(s: State, e: Event)
    requires Valid(s) && Enabled(s, e)
    ensures Valid(After(s, e)) && After(s, e).finiteDelay == s.finiteDelay
    ensures Pending(After(s, e)) == Pending(s) + One(Late(s, e)) - One(Dropped(s, e))
    ensures s.finiteDelay && Dropped(s, e) ==> Pending(After(s, e)) > 0
  {
    hide ExecutionValid, KeepsGoing, Unkilled, Killed, Reaped, Started;
    match e
    case ChildTerminated(i, w) =>
      ReapedExecution(s.runs[i], w);
      UnkilledUpdate(s.runs, i, Reaped(s.runs[i], w));
    case CommandFinished(i) =>
      DoneExecution(s.runs[i]);
      UnkilledUpdate(s.runs, i, s.runs[i].(phase := Done));
    case TimerExpired =>
    case TimerHandler(forked) =>
      StartedValid(forked);
      UnkilledStarted(s.runs, forked);
    case FileChanged(forked) =>
      var n := |s.runs| - 1;
      StartedValid(forked);
      KilledStops(s.runs[n]);
      UnkilledUpdate(s.runs, n, Killed(s.runs[n]));
      UnkilledStarted(KillCurrent(s.runs), forked);
  }

  lemma StartedValid(forked: bool)
    ensures ExecutionValid(Started(forked))
  {
  }

  // -------------------------------------------------------------------- every run

  predicate Begins(s: State) { s == Initial(true, s.finiteDelay) || s == Initial(false, s.finiteDelay) }

  ghost predicate IsRun(states: seq<State>, events: seq<Event>)
  {
    && |states| == |events| + 1
    && Begins(states[0])
    && forall i :: 0 <= i < |events| ==> Enabled(states[i], events[i]) && states[i + 1] == After(states[i], events[i])
  }

  function LateChanges(states: seq<State>, events: seq<Event>, n: nat): nat
    requires n <= |events| <= |states|
  {
    if n == 0 then 0 else LateChanges(states, events, n - 1) + One(Late(states[n - 1], events[n - 1]))
  }

  function DroppedCompletions(states: seq<State>, events: seq<Event>, n: nat): nat
    requires n <= |events| <= |states|
  {
    if n == 0 then 0 else DroppedCompletions(states, events, n - 1) + One(Dropped(states[n - 1], events[n - 1]))
  }

  /** In every run the unkilled commands and pending restarts add up to one, plus
      the late file changes, less the dropped completions; and with a finite
      restart delay there is always at least one. */
  lemma {:induction false} ServiceKeepsGoing(states: seq<State>, events: seq<Event>, n: nat)
    requires IsRun(states, events) && n <= |events|
    ensures Valid(states[n]) && states[n].finiteDelay == states[0].finiteDelay
    ensures Pending(states[n]) == 1 + LateChanges(states, events, n) - DroppedCompletions(states, events, n)
    ensures states[0].finiteDelay ==> Pending(states[n]) >= 1
  {
    hide After, Late, Dropped;
    if n == 0 {
      var forked := states[0] == Initial(true, states[0].finiteDelay);
      assert [] + [Started(forked)] == states[0].runs;
      UnkilledStarted([], forked);
    } else {
      hide Valid, Pending;
      ServiceKeepsGoing(states, events, n - 1);
      OneStep(states[n - 1], events[n - 1]);
    }
  }

  lemma {:induction false} NoneLate(states: seq<State>, events: seq<Event>, n: nat)
    requires n <= |events| <= |states|
    requires forall i :: 0 <= i < n ==> !Late(states[i], events[i])
    ensures LateChanges(states, events, n) == 0
  {
    if n > 0 {
      NoneLate(states, events, n - 1);
    }
  }

  /** If files change only while the current command runs, there are never two
      unkilled commands. */
  lemma OneCommandAtATime(states: seq<State>, events: seq<Event>, n: nat)
    requires IsRun(states, events) && n <= |events| && states[0].finiteDelay
    requires forall i :: 0 <= i < n ==> !Late(states[i], events[i])
    ensures Pending(states[n]) == 1 && Unkilled(states[n].runs) <= 1
  {
    ServiceKeepsGoing(states, events, n);
    NoneLate(states, events, n);
  }

  lemma LateIsNotDropped(s: State, e: Event)
    requires Late(s, e)
    ensures !Dropped(s, e)
  {
  }

  /** With a finite delay, exactly one unkilled command or pending restart exists
      all the time if and only if no file change is late. */
  lemma OneCommandAtATimeIff(states: seq<State>, events: seq<Event>)
    requires IsRun(states, events) && states[0].finiteDelay
    ensures (forall n :: 0 <= n <= |events| ==> Pending(states[n]) == 1) <==>
            (forall i :: 0 <= i < |events| ==> !Late(states[i], events[i]))
  {
    hide Pending, Late, Valid;
    if forall i :: 0 <= i < |events| ==> !Late(states[i], events[i]) {
      forall n | 0 <= n <= |events| ensures Pending(states[n]) == 1 {
        OneCommandAtATime(states, events, n);
      }
    } else {
      var i :| 0 <= i < |events| && Late(states[i], events[i]);
      ServiceKeepsGoing(states, events, i);
      LateIsNotDropped(states[i], events[i]);
      OneStep(states[i], events[i]);
      assert Pending(states[i + 1]) == Pending(states[i]) + 1;
    }
  }

  lemma TwoRunning(done: Execution, started: Execution)
    requires !KeepsGoing(done) && KeepsGoing(started)
    ensures Unkilled([done, started, started]) == 2
  {
    var r := [done, started, started];
    assert r[..2] == [done, started] && [done, started][..1] == [done] && [done][..0] == [];
    assert Unkilled([done]) == 0;
    assert Unkilled([done, started]) == 1;
  }

  /** A file that changes while the restart timer is armed leads to two commands
      that run side by side. */
  lemma LateChangeRunsTwo()
    ensures exists states: seq<State>, events: seq<Event> ::
      IsRun(states, events) && states[0].finiteDelay && Unkilled(states[|events|].runs) == 2
  {
    hide Unkilled;
    var done := Execution(Done, false, false, false);
    var e0 := ChildTerminated(0, Exited(1));
    var s0 := Initial(true, true);
    var s1 := State([Execution(Completing(FAILURE), false, false, false)], false, 0, true);
    var s2 := State([done], true, 0, true);
    var s3 := State([done, Started(true)], true, 0, true);
    var s4 := State([done, Started(true)], false, 1, true);
    var s5 := State([done, Started(true), Started(true)], false, 0, true);
    assert After(s0, e0) == s1 && After(s1, CommandFinished(0)) == s2;
    assert After(s2, FileChanged(true)) == s3 && After(s3, TimerExpired) == s4;
    assert After(s4, TimerHandler(true)) == s5;
    var states := [s0, s1, s2, s3, s4, s5];
    var events := [e0, CommandFinished(0), FileChanged(true), TimerExpired, TimerHandler(true)];
    hide After;
    assert IsRun(states, events);
    TwoRunning(done, Started(true));
  }

  /** With an infinite delay the timer never runs, in any run; and once no
      unkilled command is left, none is run before a file changes. */
  lemma {:induction false} InfiniteDelayEnds(states: seq<State>, events: seq<Event>, m: nat, n: nat)
    requires IsRun(states, events) && m <= n <= |events| && !states[0].finiteDelay
    requires forall i :: m <= i < n ==> !events[i].FileChanged?
    ensures !states[n].armed && states[n].queued == 0
    ensures |states[n].runs| == |states[m].runs|
    ensures Unkilled(states[m].runs) == 0 ==> Unkilled(states[n].runs) == 0
    decreases n - m
  {
    hide Unkilled, Reaped, AllValid;
    ServiceKeepsGoing(states, events, n);
    if m < n {
      InfiniteDelayEnds(states, events, m, n - 1);
      ServiceKeepsGoing(states, events, n - 1);
      OneStep(states[n - 1], events[n - 1]);
    }
  }
}
