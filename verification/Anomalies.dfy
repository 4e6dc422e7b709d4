/** yogi-cpp's process interface: errors and warnings can be set, with or
    without a duration, and cleared; a thread removes the expired ones. The lists
    of active errors and warnings are published whenever they change. */
module Anomalies {

  /** Expiration times; Never is time_point::max(). */
  datatype Time = At(t: int) | Never

  predicate Expired(x: Time, now: int) { x.At? && x.t <= now }

  predicate AtMost(x: Time, y: Time) { y.Never? || (x.At? && x.t <= y.t) }

  function Earlier(x: Time, y: Time): Time { if AtMost(x, y) then x else y }

  datatype Kind = Error | Warning

  /** An anomaly's constant part; its expiration time is kept apart. */
  datatype Anomaly = Anomaly(id: nat, kind: Kind, message: string)

  type Expiry = map<Anomaly, Time>

  function Expiration(x: Expiry, a: Anomaly): Time { if a in x then x[a] else Never }

  predicate NoDuplicates(s: seq<Anomaly>) { forall i, j :: 0 <= i < j < |s| ==> s[i] != s[j] }

  /** The messages of one kind, in activation order. */
  function Messages(s: seq<Anomaly>, k: Kind): seq<string>
  {
    if s == [] then []
    else Messages(s[..|s| - 1], k) + if s[|s| - 1].kind == k then [s[|s| - 1].message] else []
  }

  /** What a pass keeps, and the next expiration among it. */
  function Kept(s: seq<Anomaly>, x: Expiry, now: int): seq<Anomaly>
  {
    if s == [] then []
    else Kept(s[..|s| - 1], x, now) + if Expired(Expiration(x, s[|s| - 1]), now) then [] else [s[|s| - 1]]
  }

  function NextExpiration(s: seq<Anomaly>, x: Expiry): (t: Time)
    ensures forall a <- s :: AtMost(t, Expiration(x, a))
    ensures t.At? ==> exists a <- s :: t == Expiration(x, a)
  {
    if s == [] then Never
    else Earlier(NextExpiration(s[..|s| - 1], x), Expiration(x, s[|s| - 1]))
  }

  // --------------------------------------------- the process and its expiry thread

  /** What the expiry thread is doing: on its way to a pass, or waiting on the
      condition variable until a deadline. */
  datatype Thread = Awake | Asleep(deadline: Time, notified: bool)

  /** setters: the calls of Anomaly::set that have assigned the expiration time
      but do not hold the mutex yet. */
  datatype State = State(active: seq<Anomaly>, errors: seq<string>, warnings: seq<string>,
                         expiry: Expiry, setters: multiset<Anomaly>, thread: Thread, now: int)

  datatype Event =
    | AssignTime(a: Anomaly, t: Time)
    | SetLocked(a: Anomaly)
    | Clear(a: Anomaly)
    | Wake
    | Pass
    | Tick

  function Notified(t: Thread): Thread { if t.Asleep? then t.(notified := true) else t }

  predicate Publishes(s: State, t: State, errors: bool, warnings: bool)
  {
    && t.errors == (if errors then Messages(t.active, Error) else s.errors)
    && t.warnings == (if warnings then Messages(t.active, Warning) else s.warnings)
  }

  predicate SomeExpired(s: seq<Anomaly>, k: Kind, x: Expiry, now: int)
  {
    exists a <- s :: a.kind == k && Expired(Expiration(x, a), now)
  }

  predicate Removed(s: seq<Anomaly>, a: Anomaly, t: seq<Anomaly>)
  {
    exists i :: 0 <= i < |s| && s[i] == a && t == s[..i] + s[i + 1..]
  }

  ghost predicate Step(s: State, e: Event, t: State)
  {
    match e
    // Anomaly::set, before it takes the mutex
    case AssignTime(a, x) =>
      t == s.(expiry := s.expiry[a := x], setters := s.setters + multiset{a})
    // ProcessInterface::_set_anomaly
    case SetLocked(a) =>
      && a in s.setters
      && t.active == s.active + (if a in s.active then [] else [a])
      && Publishes(s, t, a !in s.active && a.kind == Error, a !in s.active && a.kind == Warning)
      && t.expiry == s.expiry && t.setters == s.setters - multiset{a} && t.now == s.now
      && t.thread == Notified(s.thread)
    // ProcessInterface::_clear_anomaly
    case Clear(a) =>
      if a in s.active then
        && Removed(s.active, a, t.active)
        && Publishes(s, t, a.kind == Error, a.kind == Warning)
        && t.expiry == s.expiry && t.setters == s.setters && t.now == s.now
        && t.thread == Notified(s.thread)
      else
        t == s
    // a notification, the deadline, or a spurious wakeup
    case Wake =>
      s.thread.Asleep? && t == s.(thread := Awake)
    // update_active_anomalies and the wait that follows, all under the mutex
    case Pass =>
      && s.thread.Awake?
      && t.active == Kept(s.active, s.expiry, s.now)
      && Publishes(s, t, SomeExpired(s.active, Error, s.expiry, s.now),
           SomeExpired(s.active, Warning, s.expiry, s.now))
      && t.expiry == s.expiry && t.setters == s.setters && t.now == s.now
      && t.thread == Asleep(NextExpiration(t.active, t.expiry), false)
    case Tick =>
      t.now > s.now && t == s.(now := t.now)
  }

  ghost predicate Initial(s: State)
  {
    s.active == [] && s.errors == [] && s.warnings == [] && s.setters == multiset{} && s.thread == Awake
  }

  ghost predicate UpToDate(s: State)
  {
    && NoDuplicates(s.active)
    && s.errors == Messages(s.active, Error)
    && s.warnings == Messages(s.active, Warning)
  }

  // --------------------------------------------------------------- the interface

  class ProcessInterface {
    var activeAnomalies: seq<Anomaly>
    var publishedErrors: seq<string>
    var publishedWarnings: seq<string>
    var expirationTimes: Expiry
    var clock: int
    ghost var setters: multiset<Anomaly>
    ghost var thread: Thread

    ghost function Abs(): State
      reads this
    {
      State(activeAnomalies, publishedErrors, publishedWarnings, expirationTimes, setters, thread, clock)
    }

    /** The constructor starts the thread and publishes both empty lists. */
    constructor (now: int)
      ensures UpToDate(Abs()) && Initial(Abs())
    {
      activeAnomalies, publishedErrors, publishedWarnings := [], [], [];
      expirationTimes, clock, setters, thread := map[], now, multiset{}, Awake;
    }

    method PublishAnomalies(kind: Kind)
      modifies this`publishedErrors, this`publishedWarnings
      ensures Publishes(old(Abs()), Abs(), kind == Error, kind == Warning)
    {
      var msg := [];
      for i := 0 to |activeAnomalies|
        invariant msg == Messages(activeAnomalies[..i], kind)
      {
        assert activeAnomalies[..i + 1][..i] == activeAnomalies[..i];
        if activeAnomalies[i].kind == kind {
          msg := msg + [activeAnomalies[i].message];
        }
      }
      assert activeAnomalies[..|activeAnomalies|] == activeAnomalies;
      if kind == Error {
        publishedErrors := msg;
      } else {
        publishedWarnings := msg;
      }
    }

    /** Anomaly::set without a duration, as far as it goes without the mutex. */
    method SetTime(a: Anomaly)
      modifies this`expirationTimes, this`setters
      ensures Step(old(Abs()), AssignTime(a, Never), Abs())
      ensures a in expirationTimes && expirationTimes[a].Never?
    {
      AssignExpirationTime(a, Never);
    }

    /** Anomaly::set with a duration, as far as it goes without the mutex. */
    method SetTimeFor(a: Anomaly, duration: int)
      modifies this`expirationTimes, this`setters
      ensures Step(old(Abs()), AssignTime(a, At(clock + duration)), Abs())
      ensures a in expirationTimes && expirationTimes[a] == At(clock + duration)
    {
      AssignExpirationTime(a, At(clock + duration));
    }

    method AssignExpirationTime(a: Anomaly, t: Time)
      modifies this`expirationTimes, this`setters
      ensures Step(old(Abs()), AssignTime(a, t), Abs())
    {
      expirationTimes := expirationTimes[a := t];
      setters := setters + multiset{a};
    }

    /** _set_anomaly: setting an active anomaly again leaves the list alone. */
    method SetAnomaly(a: Anomaly)
      requires UpToDate(Abs()) && a in setters
      modifies this
      ensures UpToDate(Abs()) && Step(old(Abs()), SetLocked(a), Abs())
    {
      ghost var s := Abs();
      if a !in activeAnomalies {
        activeAnomalies := activeAnomalies + [a];
        PublishAnomalies(a.kind);
      }
      setters := setters - multiset{a};
      thread := Notified(thread);
      SetKeepsUpToDate(s, a, Abs());
    }

    /** _clear_anomaly: clearing takes one anomaly out and keeps the order. */
    method ClearAnomaly(a: Anomaly)
      requires UpToDate(Abs())
      modifies this
      ensures UpToDate(Abs()) && Step(old(Abs()), Clear(a), Abs())
    {
      hide UpToDate, Messages;
      ghost var s := Abs();
      var i := 0;
      while i < |activeAnomalies| && activeAnomalies[i] != a
        invariant 0 <= i <= |activeAnomalies| && a !in activeAnomalies[..i]
      {
        i := i + 1;
      }
      if i < |activeAnomalies| {
        activeAnomalies := activeAnomalies[..i] + activeAnomalies[i + 1..];
        PublishAnomalies(a.kind);
        thread := Notified(thread);
        assert Removed(s.active, a, activeAnomalies);
        ClearKeepsUpToDate(s, a, Abs());
      } else {
        assert activeAnomalies[..i] == activeAnomalies;
      }
    }

    /** The erase-while-iterating loop of update_active_anomalies: takes out
        exactly the expired anomalies and keeps the others in order. */
    method EraseExpired() returns (next: Time, updateErrors: bool, updateWarnings: bool)
      modifies this`activeAnomalies
      ensures activeAnomalies == Kept(old(activeAnomalies), expirationTimes, clock)
      ensures next == NextExpiration(activeAnomalies, expirationTimes)
      ensures updateErrors == SomeExpired(old(activeAnomalies), Error, expirationTimes, clock)
      ensures updateWarnings == SomeExpired(old(activeAnomalies), Warning, expirationTimes, clock)
    {
      hide Messages, Kept, NextExpiration, Expired, Expiration, Earlier, AtMost, SomeExpired;
      ghost var all := activeAnomalies;
      updateErrors, updateWarnings := false, false;
      next := Never;
      var it := 0;
      ghost var seen := 0;
      Empty(expirationTimes, clock);
      while it < |activeAnomalies|
        invariant it <= |activeAnomalies| && seen <= |all|
        invariant activeAnomalies[it..] == all[seen..]
        invariant activeAnomalies[..it] == Kept(all[..seen], expirationTimes, clock)
        invariant next == NextExpiration(activeAnomalies[..it], expirationTimes)
        invariant updateErrors == SomeExpired(all[..seen], Error, expirationTimes, clock)
        invariant updateWarnings == SomeExpired(all[..seen], Warning, expirationTimes, clock)
        decreases |activeAnomalies| - it
      {
        var anomaly := activeAnomalies[it];
        FirstOf(activeAnomalies, it, all, seen);
        Snoc(all[..seen], anomaly, expirationTimes, clock);
        if !Expired(Expiration(expirationTimes, anomaly), clock) {
          next := Earlier(next, Expiration(expirationTimes, anomaly));
          Snoc(activeAnomalies[..it], anomaly, expirationTimes, clock);
          it := it + 1;
        } else {
          if anomaly.kind == Error {
            updateErrors := true;
          } else {
            updateWarnings := true;
          }
          activeAnomalies := activeAnomalies[..it] + activeAnomalies[it + 1..];
        }
        seen := seen + 1;
      }
      assert activeAnomalies[..it] == activeAnomalies && all[..seen] == all;
    }

    /** update_active_anomalies, and the deadline the thread then waits for: it
        republishes what has changed. */
    method UpdateActiveAnomalies() returns (next: Time)
      requires UpToDate(Abs()) && thread.Awake?
      modifies this
      ensures UpToDate(Abs()) && Step(old(Abs()), Pass, Abs())
      ensures thread == Asleep(next, false)
    {
      hide Messages, Kept, NextExpiration, SomeExpired, UpToDate;
      ghost var s := Abs();
      var updateErrors, updateWarnings;
      next, updateErrors, updateWarnings := EraseExpired();
      if updateErrors {
        PublishAnomalies(Error);
      }
      if updateWarnings {
        PublishAnomalies(Warning);
      }
      thread := Asleep(next, false);
      PassKeepsUpToDate(s, Abs());
    }
  }

  // ----------------------------------------------------------- every pass and call

  lemma Empty(x: Expiry, now: int)
    ensures Kept([], x, now) == [] && NextExpiration([], x) == Never
    ensures !SomeExpired([], Error, x, now) && !SomeExpired([], Warning, x, now)
    ensures Messages([], Error) == [] && Messages([], Warning) == []
  {
  }

  lemma Snoc(s: seq<Anomaly>, a: Anomaly, x: Expiry, now: int)
    ensures Kept(s + [a], x, now) == Kept(s, x, now) + if Expired(Expiration(x, a), now) then [] else [a]
    ensures NextExpiration(s + [a], x) == Earlier(NextExpiration(s, x), Expiration(x, a))
    ensures forall k: Kind :: SomeExpired(s + [a], k, x, now) <==>
      SomeExpired(s, k, x, now) || (a.kind == k && Expired(Expiration(x, a), now))
    ensures forall k: Kind :: Messages(s + [a], k) == Messages(s, k) + if a.kind == k then [a.message] else []
  {
    assert (s + [a])[..|s|] == s;
  }

  lemma FirstOf(s: seq<Anomaly>, i: nat, t: seq<Anomaly>, j: nat)
    requires i < |s| && j <= |t| && s[i..] == t[j..]
    ensures j < |t| && s[i] == t[j] && s[i + 1..] == t[j + 1..]
    ensures t[..j + 1] == t[..j] + [s[i]] && s[..i + 1] == s[..i] + [s[i]]
    ensures var e := s[..i] + s[i + 1..]; e[..i] == s[..i] && e[i..] == s[i + 1..]
  {
    assert s[i..][0] == t[j..][0];
    assert s[i..][1..] == s[i + 1..] && t[j..][1..] == t[j + 1..];
  }

  /** Taking one anomaly out leaves the messages of the other kind alone. */
  lemma {:induction false} MessagesWithout(s: seq<Anomaly>, i: nat)
    requires i < |s|
    ensures forall k: Kind :: k != s[i].kind ==> Messages(s[..i] + s[i + 1..], k) == Messages(s, k)
  {
    var n := |s| - 1;
    var t := s[..i] + s[i + 1..];
    if i == n {
      assert t == s[..n];
    } else {
      MessagesWithout(s[..n], i);
      assert t[..n - 1] == s[..n][..i] + s[..n][i + 1..];
      assert t[n - 1] == s[n];
    }
  }

  /** A pass removes exactly the anomalies whose time has come. */
  lemma {:induction false} PassRemovesExactlyTheExpired(s: seq<Anomaly>, x: Expiry, now: int)
    ensures forall a :: a in Kept(s, x, now) <==> a in s && !Expired(Expiration(x, a), now)
  {
    hide Expired, Expiration;
    if s != [] {
      var n := |s| - 1;
      PassRemovesExactlyTheExpired(s[..n], x, now);
      assert s == s[..n] + [s[n]];
    }
  }

  /** In other words: those with an expiration time that is not later than now. */
  lemma PassKeepsLater(s: seq<Anomaly>, x: Expiry, now: int)
    ensures forall a :: a in s && a in x && x[a].At? ==> (a in Kept(s, x, now) <==> now < x[a].t)
    ensures forall a :: a in s && (a !in x || x[a].Never?) ==> a in Kept(s, x, now)
    ensures forall a :: a in Kept(s, x, now) ==> a in s
  {
    PassRemovesExactlyTheExpired(s, x, now);
  }

  lemma MessageOfOne(a: Anomaly, k: Kind)
    ensures Messages([a], k) == if a.kind == k then [a.message] else []
  {
    assert [a][..0] == [];
  }

  lemma MessagesSnoc(s: seq<Anomaly>, a: Anomaly, k: Kind)
    ensures Messages(s + [a], k) == Messages(s, k) + if a.kind == k then [a.message] else []
  {
    assert (s + [a])[..|s|] == s;
  }

  /** Each part of the list has its own messages, in the same order. */
  lemma {:induction false} MessagesInOrder(s: seq<Anomaly>, t: seq<Anomaly>, k: Kind)
    ensures Messages(s + t, k) == Messages(s, k) + Messages(t, k)
  {
    if t == [] {
      assert s + t == s;
    } else {
      hide Messages;
      var n := |t| - 1;
      MessagesInOrder(s, t[..n], k);
      assert s + t == (s + t[..n]) + [t[n]] && t == t[..n] + [t[n]];
      MessagesSnoc(s + t[..n], t[n], k);
      MessagesSnoc(t[..n], t[n], k);
    }
  }

  lemma {:induction false} KeptHasNoDuplicates(s: seq<Anomaly>, x: Expiry, now: int)
    requires NoDuplicates(s)
    ensures NoDuplicates(Kept(s, x, now))
  {
    if s != [] {
      var n := |s| - 1;
      PassRemovesExactlyTheExpired(s[..n], x, now);
      KeptHasNoDuplicates(s[..n], x, now);
      hide Expired, Expiration;
      var k := Kept(s[..n], x, now);
      forall j | 0 <= j < |k| ensures k[j] != s[n] {
        assert k[j] in s[..n];
      }
    }
  }

  /** A pass that expires none of a kind leaves that kind's messages alone. */
  lemma {:induction false} NothingExpired(s: seq<Anomaly>, x: Expiry, now: int, k: Kind)
    requires forall a <- s :: a.kind == k ==> !Expired(Expiration(x, a), now)
    ensures Messages(Kept(s, x, now), k) == Messages(s, k)
  {
    hide *;
    if s != [] {
      var n := |s| - 1;
      var a := s[n];
      assert a in s && forall b <- s[..n] :: b in s;
      NothingExpired(s[..n], x, now, k);
      assert s == s[..n] + [a];
      Snoc(s[..n], a, x, now);
      if !Expired(Expiration(x, a), now) {
        Snoc(Kept(s[..n], x, now), a, x, now);
      } else {
        assert Kept(s, x, now) == Kept(s[..n], x, now);
        assert Messages(s, k) == Messages(s[..n], k);
      }
    } else {
      Empty(x, now);
      assert s == [];
    }
  }

  lemma WithoutOne(s: seq<Anomaly>, i: nat)
    requires i < |s| && NoDuplicates(s)
    ensures NoDuplicates(s[..i] + s[i + 1..])
    ensures forall a <- s[..i] + s[i + 1..] :: a in s
  {
  }

  lemma ClearKeepsUpToDate(s: State, a: Anomaly, t: State)
    requires UpToDate(s) && a in s.active && Step(s, Clear(a), t)
    ensures UpToDate(t)
    ensures forall b <- t.active :: b in s.active
  {
    var i :| 0 <= i < |s.active| && s.active[i] == a && t.active == s.active[..i] + s.active[i + 1..];
    MessagesWithout(s.active, i);
    WithoutOne(s.active, i);
  }

  lemma SetKeepsUpToDate(s: State, a: Anomaly, t: State)
    requires UpToDate(s) && Step(s, SetLocked(a), t)
    ensures UpToDate(t)
  {
    if a !in s.active {
      Snoc(s.active, a, s.expiry, s.now);
      assert t.active == s.active + [a];
    } else {
      assert t.active == s.active;
    }
  }

  lemma PassKeepsUpToDate(s: State, t: State)
    requires UpToDate(s) && Step(s, Pass, t)
    ensures UpToDate(t)
    ensures forall a :: a in t.active <==> a in s.active && !Expired(Expiration(s.expiry, a), s.now)
  {
    KeptHasNoDuplicates(s.active, s.expiry, s.now);
    PassRemovesExactlyTheExpired(s.active, s.expiry, s.now);
    if !SomeExpired(s.active, Error, s.expiry, s.now) { NothingExpired(s.active, s.expiry, s.now, Error); }
    if !SomeExpired(s.active, Warning, s.expiry, s.now) { NothingExpired(s.active, s.expiry, s.now, Warning); }
  }

  // ------------------------------------------------------------------- every run

  ghost predicate IsRun(run: seq<State>, events: seq<Event>)
  {
    && |run| == |events| + 1
    && Initial(run[0])
    && forall i :: 0 <= i < |events| ==> Step(run[i], events[i], run[i + 1])
  }

  /** A sleeping thread that nobody is going to notify wakes up in time, and for
      the sake of an active anomaly only. */
  ghost predicate WakesInTime(s: State)
  {
    s.thread.Asleep? && !s.thread.notified ==>
      && (forall a <- s.active :: a in s.setters || AtMost(s.thread.deadline, Expiration(s.expiry, a)))
      && (s.thread.deadline.At? ==>
            exists a <- s.active :: a in s.setters || s.thread.deadline == Expiration(s.expiry, a))
  }

  ghost predicate Inv(s: State) { UpToDate(s) && WakesInTime(s) }

  lemma StepInv(s: State, e: Event, t: State)
    requires Inv(s) && Step(s, e, t)
    ensures Inv(t)
  {
    match e
    case AssignTime(_, _) =>
    case SetLocked(a) => SetKeepsUpToDate(s, a, t);
    case Clear(a) => if a in s.active { ClearKeepsUpToDate(s, a, t); }
    case Wake =>
    case Pass => PassKeepsUpToDate(s, t);
    case Tick =>
  }

  /** Whatever the interleaving, no anomaly is active twice, what was published
      last is the active messages in activation order, and the thread's deadline
      is never later than an active expiration unless a notification is due. */
  lemma {:induction false} RunInv(run: seq<State>, events: seq<Event>, n: nat)
    requires IsRun(run, events) && n <= |events|
    ensures Inv(run[n])
  {
    if n > 0 {
      RunInv(run, events, n - 1);
      StepInv(run[n - 1], events[n - 1], run[n]);
    }
  }

  /** So an anomaly that is active past its time has the thread awake, woken,
      or past its deadline, or is just being set again. */
  lemma ExpiryIsNoticed(run: seq<State>, events: seq<Event>, n: nat, a: Anomaly)
    requires IsRun(run, events) && n <= |events|
    requires a in run[n].active && Expired(Expiration(run[n].expiry, a), run[n].now)
    ensures var s := run[n];
      s.thread.Awake? || s.thread.notified || Expired(s.thread.deadline, s.now) || a in s.setters
  {
    RunInv(run, events, n);
  }

  /** The thread does not wake up for nothing: a deadline nobody will cancel is the
      expiration of an active anomaly, or one that is just being set again. */
  lemma DeadlineIsNeeded(run: seq<State>, events: seq<Event>, n: nat)
    requires IsRun(run, events) && n <= |events|
    requires run[n].thread.Asleep? && !run[n].thread.notified && run[n].thread.deadline.At?
    ensures var s := run[n];
      exists a <- s.active :: a in s.setters || (a in s.expiry && s.expiry[a] == s.thread.deadline)
  {
    RunInv(run, events, n);
  }

  /** And the pass that follows removes it. */
  lemma NothingExpiredAfterPass(run: seq<State>, events: seq<Event>, n: nat)
    requires IsRun(run, events) && n < |events| && events[n] == Pass
    ensures forall a <- run[n].active ::
      a in run[n + 1].active <==> !Expired(Expiration(run[n].expiry, a), run[n].now)
    ensures run[n + 1].expiry == run[n].expiry
  {
    RunInv(run, events, n);
    assert Step(run[n], events[n], run[n + 1]);
    PassRemovesExactlyTheExpired(run[n].active, run[n].expiry, run[n].now);
  }

  /** Which anomalies are active after a step: the one set, not the one cleared, not
      the expired after a pass, and otherwise those that were. */
  lemma ActiveAfter(s: State, e: Event, t: State, b: Anomaly)
    requires Inv(s) && Step(s, e, t)
    ensures e == SetLocked(b) ==> b in t.active
    ensures e == Clear(b) ==> b !in t.active
    ensures e == Pass ==>
      (b in t.active <==> b in s.active && (b !in s.expiry || s.expiry[b].Never? || s.now < s.expiry[b].t))
    ensures e != SetLocked(b) && e != Clear(b) && e != Pass ==> (b in t.active <==> b in s.active)
  {
    match e
    case Clear(a) =>
      if a in s.active {
        var i :| 0 <= i < |s.active| && s.active[i] == a && t.active == s.active[..i] + s.active[i + 1..];
        OnlyOneRemoved(s.active, i, b);
      }
    case Pass => PassKeepsLater(s.active, s.expiry, s.now);
    case SetLocked(_) =>
    case AssignTime(_, _) =>
    case Wake =>
    case Tick =>
  }

  lemma OnlyOneRemoved(s: seq<Anomaly>, i: nat, b: Anomaly)
    requires i < |s| && NoDuplicates(s)
    ensures b in s[..i] + s[i + 1..] <==> b in s && b != s[i]
  {
    if b in s && b != s[i] {
      var k :| 0 <= k < |s| && s[k] == b;
      assert if k < i then s[..i][k] == b else s[i + 1..][k - i - 1] == b;
    }
  }

  // ------------------------------------------------------------- activation order

  /** When an anomaly was last activated: the number of events up to that one. */
  function Activated(run: seq<State>, events: seq<Event>, n: nat, a: Anomaly): nat
    requires n <= |events| <= |run|
  {
    if n == 0 then 0
    else if events[n - 1] == SetLocked(a) && a !in run[n - 1].active then n
    else Activated(run, events, n - 1, a)
  }

  lemma {:induction false} ActivatedBefore(run: seq<State>, events: seq<Event>, n: nat, a: Anomaly)
    requires n <= |events| <= |run|
    ensures Activated(run, events, n, a) <= n
  {
    if n > 0 {
      ActivatedBefore(run, events, n - 1, a);
    }
  }

  ghost predicate InOrder(run: seq<State>, events: seq<Event>, n: nat, s: seq<Anomaly>)
    requires n <= |events| <= |run|
  {
    forall i, j :: 0 <= i < j < |s| ==> Activated(run, events, n, s[i]) < Activated(run, events, n, s[j])
  }

  /** A list in the order of another one, with elements left out. */
  predicate Subsequence(t: seq<Anomaly>, s: seq<Anomaly>)
  {
    t == [] || (s != [] && if t[|t| - 1] == s[|s| - 1] then Subsequence(t[..|t| - 1], s[..|s| - 1])
                           else Subsequence(t, s[..|s| - 1]))
  }

  lemma {:induction false} SubsequenceElements(t: seq<Anomaly>, s: seq<Anomaly>)
    requires Subsequence(t, s)
    ensures forall a <- t :: a in s
    decreases |s|
  {
    if t != [] {
      if t[|t| - 1] == s[|s| - 1] {
        SubsequenceElements(t[..|t| - 1], s[..|s| - 1]);
        assert t == t[..|t| - 1] + [t[|t| - 1]];
      } else {
        SubsequenceElements(t, s[..|s| - 1]);
      }
    }
  }

  lemma {:induction false} SubsequenceInOrder(run: seq<State>, events: seq<Event>, n: nat,
                                              t: seq<Anomaly>, s: seq<Anomaly>)
    requires n <= |events| <= |run| && Subsequence(t, s) && InOrder(run, events, n, s)
    ensures InOrder(run, events, n, t)
    decreases |s|
  {
    if t != [] {
      var k, m := |s| - 1, |t| - 1;
      if t[m] == s[k] {
        SubsequenceInOrder(run, events, n, t[..m], s[..k]);
        SubsequenceElements(t[..m], s[..k]);
        forall i | 0 <= i < m ensures Activated(run, events, n, t[i]) < Activated(run, events, n, t[m]) {
          assert t[..m][i] in s[..k];
        }
      } else {
        SubsequenceInOrder(run, events, n, t, s[..k]);
      }
    }
  }

  lemma {:induction false} SameSubsequence(s: seq<Anomaly>)
    ensures Subsequence(s, s)
  {
    if s != [] {
      SameSubsequence(s[..|s| - 1]);
    }
  }

  lemma {:induction false} KeptIsSubsequence(s: seq<Anomaly>, x: Expiry, now: int)
    ensures Subsequence(Kept(s, x, now), s)
  {
    hide Expired, Expiration;
    if s != [] {
      var n := |s| - 1;
      var before := Kept(s[..n], x, now);
      KeptIsSubsequence(s[..n], x, now);
      PassRemovesExactlyTheExpired(s[..n], x, now);
      if Expired(Expiration(x, s[n]), now) {
        assert Kept(s, x, now) == before;
        assert before != [] ==> before[|before| - 1] in before && before[|before| - 1] != s[n];
      } else {
        assert Kept(s, x, now) == before + [s[n]] && (before + [s[n]])[..|before|] == before;
      }
    }
  }

  lemma {:induction false} RemovedIsSubsequence(s: seq<Anomaly>, i: nat)
    requires i < |s| && NoDuplicates(s)
    ensures Subsequence(s[..i] + s[i + 1..], s)
  {
    var n := |s| - 1;
    var t := s[..i] + s[i + 1..];
    if i == n {
      assert t == s[..n];
      SameSubsequence(s[..n]);
      if t != [] {
        assert t[|t| - 1] != s[n];
      }
    } else {
      RemovedIsSubsequence(s[..n], i);
      assert t[..n - 1] == s[..n][..i] + s[..n][i + 1..] && t[n - 1] == s[n];
    }
  }

  lemma NotActivatedNow(run: seq<State>, events: seq<Event>, n: nat, s: seq<Anomaly>)
    requires 0 < n <= |events| <= |run| && InOrder(run, events, n - 1, s)
    requires forall a <- s :: !(events[n - 1] == SetLocked(a) && a !in run[n - 1].active)
    ensures InOrder(run, events, n, s)
  {
    forall i, j | 0 <= i < j < |s| ensures Activated(run, events, n, s[i]) < Activated(run, events, n, s[j]) {
      assert s[i] in s && s[j] in s;
    }
  }

  lemma StepLeavesSubsequence(s: State, e: Event, t: State)
    requires NoDuplicates(s.active) && Step(s, e, t) && !e.SetLocked?
    ensures Subsequence(t.active, s.active)
  {
    hide Kept, Subsequence, Publishes;
    SameSubsequence(s.active);
    match e
    case Clear(a) =>
      if a in s.active {
        var i :| 0 <= i < |s.active| && s.active[i] == a && t.active == s.active[..i] + s.active[i + 1..];
        RemovedIsSubsequence(s.active, i);
      }
    case Pass => KeptIsSubsequence(s.active, s.expiry, s.now);
    case AssignTime(_, _) =>
    case Wake =>
    case Tick =>
  }

  lemma UpToDateHasNoDuplicates(s: State)
    requires Inv(s)
    ensures NoDuplicates(s.active)
  {
  }

  /** In every run the active anomalies, and so the published messages, are in the
      order in which they were last activated; setting an active anomaly again does
      not move it. */
  lemma {:induction false} InActivationOrder(run: seq<State>, events: seq<Event>, n: nat)
    requires IsRun(run, events) && n <= |events|
    ensures InOrder(run, events, n, run[n].active)
  {
    hide Step, Inv, Initial, NoDuplicates, Subsequence, Activated;
    if n == 0 {
      NothingActive(run[0]);
    } else {
      InActivationOrder(run, events, n - 1);
      RunInv(run, events, n - 1);
      UpToDateHasNoDuplicates(run[n - 1]);
      hide InOrder;
      if events[n - 1].SetLocked? {
        OrderAfterSet(run, events, n, events[n - 1].a);
      } else {
        OldOnesNotActivated(run, events, n);
        NotActivatedNow(run, events, n, run[n - 1].active);
        StepLeavesSubsequence(run[n - 1], events[n - 1], run[n]);
        SubsequenceInOrder(run, events, n, run[n].active, run[n - 1].active);
      }
    }
  }

  lemma NothingActive(s: State)
    requires Initial(s)
    ensures s.active == []
  {
  }

  lemma OldOnesNotActivated(run: seq<State>, events: seq<Event>, n: nat)
    requires 0 < n <= |events| <= |run|
    ensures forall a <- run[n - 1].active :: !(events[n - 1] == SetLocked(a) && a !in run[n - 1].active)
  {
  }

  lemma OrderAfterSet(run: seq<State>, events: seq<Event>, n: nat, a: Anomaly)
    requires 0 < n <= |events| < |run| && InOrder(run, events, n - 1, run[n - 1].active)
    requires events[n - 1] == SetLocked(a) && Step(run[n - 1], events[n - 1], run[n])
    ensures InOrder(run, events, n, run[n].active)
  {
    var s, t := run[n - 1].active, run[n].active;
    OldOnesNotActivated(run, events, n);
    NotActivatedNow(run, events, n, s);
    if a in s {
      assert t == s;
    } else {
      assert t == s + [a] && Activated(run, events, n, a) == n;
      forall i | 0 <= i < |s| ensures Activated(run, events, n, t[i]) < n {
        assert t[i] == s[i] && s[i] in s;
        ActivatedBefore(run, events, n - 1, s[i]);
      }
    }
  }
}
