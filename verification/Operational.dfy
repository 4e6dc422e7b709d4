/** yogi-cpp's process interface: a process is operational while every operational
    condition is met. Changing a condition's flag and telling the process
    interface about it are two separate steps, in whatever threads; the stored
    state is published and handed to the operational observers. */
module Operational {

  type Condition = nat
  type Observer = nat

  /** An observer's callback: how many states had been published before the one
      it was registered with, and every value it has been called with since. */
  datatype Registration = Registration(since: nat, received: seq<bool>)

  /** pending: the condition changes whose notification does not hold the mutex
      yet. published: every state published so far. */
  datatype State = State(conditions: seq<Condition>, isSet: map<Condition, bool>, operational: bool,
                         published: seq<bool>, observers: map<Observer, Registration>,
                         pending: multiset<Condition>)

  datatype Event =
    | AddCondition(c: Condition)
    | RemoveCondition(c: Condition)
    | Flip(c: Condition, value: bool)
    | Notify(c: Condition)
    | AddObserver(o: Observer)
    | RemoveObserver(o: Observer)

  predicate IsMet(isSet: map<Condition, bool>, c: Condition) { c in isSet && isSet[c] }

  predicate AllMet(conditions: seq<Condition>, isSet: map<Condition, bool>)
  {
    forall c <- conditions :: IsMet(isSet, c)
  }

  function Delivered(observers: map<Observer, Registration>, value: bool): map<Observer, Registration>
  {
    map o <- observers :: observers[o].(received := observers[o].received + [value])
  }

  /** update_operational_state on values. */
  function Update(s: State): State
  {
    var operational := AllMet(s.conditions, s.isSet);
    if operational == s.operational then s
    else s.(operational := operational, published := s.published + [operational],
            observers := Delivered(s.observers, operational))
  }

  ghost predicate Step(s: State, e: Event, t: State)
  {
    match e
    // the condition's constructor clears its flag and registers it
    case AddCondition(c) =>
      && c !in s.conditions
      && t == Update(s.(conditions := s.conditions + [c], isSet := s.isSet[c := false]))
    // its destructor
    case RemoveCondition(c) =>
      exists i :: 0 <= i < |s.conditions| && s.conditions[i] == c
        && t == Update(s.(conditions := s.conditions[..i] + s.conditions[i + 1..]))
    // _set and _clear, up to the notification
    case Flip(c, value) =>
      && c in s.conditions
      && t == if IsMet(s.isSet, c) == value then s
              else s.(isSet := s.isSet[c := value], pending := s.pending + multiset{c})
    // _notify_operational_condition_change
    case Notify(c) =>
      && c in s.pending
      && t == Update(s.(pending := s.pending - multiset{c}))
    // _add_operational_observer replaces a callback that is already there
    case AddObserver(o) =>
      && s.published != []
      && t == s.(observers := s.observers[o := Registration(|s.published| - 1, [s.operational])])
    case RemoveObserver(o) =>
      t == s.(observers := s.observers - {o})
  }

  /** The process interface's constructor publishes true. */
  function Initial(): State { State([], map[], true, [true], map[], multiset{}) }

  // -------------------------------------------------------------- the invariant

  /** What is published alternates, starting with true, and ends with the
      stored state. */
  ghost predicate PublishedIsCurrent(s: State)
  {
    && s.published != []
    && (forall i :: 0 <= i < |s.published| ==> s.published[i] == (i % 2 == 0))
    && s.published[|s.published| - 1] == s.operational
  }

  /** An observer has received exactly what was published since it registered,
      beginning with the state at that time. */
  ghost predicate ReceivesWhatIsPublished(s: State)
  {
    forall o <- s.observers ::
      && s.observers[o].since < |s.published|
      && s.observers[o].received == s.published[s.observers[o].since..]
  }

  ghost predicate Inv(s: State)
  {
    && PublishedIsCurrent(s)
    && ReceivesWhatIsPublished(s)
    && (s.pending == multiset{} ==> s.operational == AllMet(s.conditions, s.isSet))
  }

  lemma PublishOne(p: seq<bool>, value: bool, since: nat)
    requires since < |p|
    ensures (p + [value])[since..] == p[since..] + [value]
  {
  }

  lemma PublishedStaysCurrent(s: State)
    requires PublishedIsCurrent(s)
    ensures PublishedIsCurrent(Update(s))
  {
    hide AllMet, Delivered;
  }

  lemma ReceivedStaysPublished(s: State)
    requires ReceivesWhatIsPublished(s)
    ensures ReceivesWhatIsPublished(Update(s))
  {
    hide AllMet;
    var t := Update(s);
    if t != s {
      forall o | o in t.observers
        ensures t.observers[o].since < |t.published|
        ensures t.observers[o].received == t.published[t.observers[o].since..]
      {
        PublishOne(s.published, t.operational, s.observers[o].since);
      }
    }
  }

  lemma UpdateSettles(s: State)
    requires PublishedIsCurrent(s) && ReceivesWhatIsPublished(s)
    ensures Inv(Update(s))
  {
    hide PublishedIsCurrent, ReceivesWhatIsPublished, AllMet, Delivered;
    PublishedStaysCurrent(s);
    ReceivedStaysPublished(s);
  }

  /** Whatever a critical section did to the conditions, the update at its end
      makes up for it. */
  lemma UpdateAfter(s: State, u: State)
    requires Inv(s) && u.published == s.published && u.operational == s.operational && u.observers == s.observers
    ensures Inv(Update(u))
  {
    UpdateSettles(u);
  }

  lemma FlipKeepsInv(s: State, c: Condition, value: bool, t: State)
    requires Inv(s) && Step(s, Flip(c, value), t)
    ensures Inv(t)
  {
    if t != s { assert c in t.pending; }
  }

  lemma AddObserverKeepsInv(s: State, o: Observer)
    requires Inv(s)
    ensures Inv(s.(observers := s.observers[o := Registration(|s.published| - 1, [s.operational])]))
  {
    hide AllMet;
    var p := s.published;
    var t := s.(observers := s.observers[o := Registration(|p| - 1, [s.operational])]);
    assert p[|p| - 1..] == [s.operational];
    assert ReceivesWhatIsPublished(t) && PublishedIsCurrent(t);
  }

  lemma RemoveObserverKeepsInv(s: State, o: Observer)
    requires Inv(s)
    ensures Inv(s.(observers := s.observers - {o}))
  {
    hide AllMet;
  }

  lemma StepInv(s: State, e: Event, t: State)
    requires Inv(s) && Step(s, e, t)
    ensures Inv(t)
  {
    hide Update, Inv, IsMet;
    match e
    case AddCondition(c) =>
      UpdateAfter(s, s.(conditions := s.conditions + [c], isSet := s.isSet[c := false]));
    case RemoveCondition(c) =>
      var i :| 0 <= i < |s.conditions| && s.conditions[i] == c
        && t == Update(s.(conditions := s.conditions[..i] + s.conditions[i + 1..]));
      UpdateAfter(s, s.(conditions := s.conditions[..i] + s.conditions[i + 1..]));
    case Notify(c) => UpdateAfter(s, s.(pending := s.pending - multiset{c}));
    case Flip(c, value) => FlipKeepsInv(s, c, value, t);
    case AddObserver(o) => AddObserverKeepsInv(s, o);
    case RemoveObserver(o) => RemoveObserverKeepsInv(s, o);
  }

  ghost predicate IsRun(run: seq<State>, events: seq<Event>)
  {
    && |run| == |events| + 1
    && run[0] == Initial()
    && forall i :: 0 <= i < |events| ==> Step(run[i], events[i], run[i + 1])
  }

  lemma {:induction false} RunInv(run: seq<State>, events: seq<Event>, n: nat)
    requires IsRun(run, events) && n <= |events|
    ensures Inv(run[n]) && PublishedIsCurrent(run[n]) && ReceivesWhatIsPublished(run[n])
  {
    if n > 0 {
      RunInv(run, events, n - 1);
      StepInv(run[n - 1], events[n - 1], run[n]);
    }
  }

  // ---------------------------------------------------------- in terms of the events

  /** Registered: constructed, and not destroyed since. */
  function Registered(events: seq<Event>, n: nat, c: Condition): bool
    requires n <= |events|
  {
    if n == 0 then false
    else if events[n - 1] == AddCondition(c) then true
    else if events[n - 1] == RemoveCondition(c) then false
    else Registered(events, n - 1, c)
  }

  /** The flag: false when constructed, then what it was last set to. */
  function Flag(events: seq<Event>, n: nat, c: Condition): bool
    requires n <= |events|
  {
    if n == 0 then false
    else match events[n - 1]
      case AddCondition(d) => if c == d then false else Flag(events, n - 1, c)
      case Flip(d, value) => if c == d then value else Flag(events, n - 1, c)
      case _ => Flag(events, n - 1, c)
  }

  /** Observing: added, and not removed since. */
  function Observing(events: seq<Event>, n: nat, o: Observer): bool
    requires n <= |events|
  {
    if n == 0 then false
    else if events[n - 1] == AddObserver(o) then true
    else if events[n - 1] == RemoveObserver(o) then false
    else Observing(events, n - 1, o)
  }

  predicate Distinct(conditions: seq<Condition>)
  {
    forall i, j :: 0 <= i < j < |conditions| ==> conditions[i] != conditions[j]
  }

  lemma UpdateKeepsConditions(s: State)
    ensures Update(s).conditions == s.conditions && Update(s).isSet == s.isSet
    ensures Update(s).observers.Keys == s.observers.Keys
  {
  }

  lemma OneLess(s: seq<Condition>, i: nat, c: Condition)
    requires i < |s| && Distinct(s)
    ensures Distinct(s[..i] + s[i + 1..])
    ensures c in s[..i] + s[i + 1..] <==> c in s && c != s[i]
  {
    if c in s && c != s[i] {
      var k :| 0 <= k < |s| && s[k] == c;
      assert if k < i then s[..i][k] == c else s[i + 1..][k - i - 1] == c;
    }
  }

  lemma StepConditions(s: State, e: Event, t: State, c: Condition)
    requires Distinct(s.conditions) && Step(s, e, t)
    ensures Distinct(t.conditions)
    ensures c in t.conditions <==>
      e == AddCondition(c) || (c in s.conditions && e != RemoveCondition(c))
  {
    hide Update;
    match e
    case AddCondition(d) =>
      UpdateKeepsConditions(s.(conditions := s.conditions + [d], isSet := s.isSet[d := false]));
    case RemoveCondition(d) =>
      var i :| 0 <= i < |s.conditions| && s.conditions[i] == d
        && t == Update(s.(conditions := s.conditions[..i] + s.conditions[i + 1..]));
      UpdateKeepsConditions(s.(conditions := s.conditions[..i] + s.conditions[i + 1..]));
      OneLess(s.conditions, i, c);
    case Notify(d) => UpdateKeepsConditions(s.(pending := s.pending - multiset{d}));
    case Flip(_, _) =>
    case AddObserver(_) =>
    case RemoveObserver(_) =>
  }

  lemma StepFlags(s: State, e: Event, t: State, c: Condition)
    requires Step(s, e, t)
    ensures IsMet(t.isSet, c) ==
      match e
      case AddCondition(d) => if c == d then false else IsMet(s.isSet, c)
      case Flip(d, value) => if c == d then value else IsMet(s.isSet, c)
      case _ => IsMet(s.isSet, c)
  {
    hide Update;
    match e
    case AddCondition(d) =>
      UpdateKeepsConditions(s.(conditions := s.conditions + [d], isSet := s.isSet[d := false]));
    case RemoveCondition(d) =>
      var i :| 0 <= i < |s.conditions| && s.conditions[i] == d
        && t == Update(s.(conditions := s.conditions[..i] + s.conditions[i + 1..]));
      UpdateKeepsConditions(s.(conditions := s.conditions[..i] + s.conditions[i + 1..]));
    case Notify(d) => UpdateKeepsConditions(s.(pending := s.pending - multiset{d}));
    case Flip(_, _) =>
    case AddObserver(_) =>
    case RemoveObserver(_) =>
  }

  lemma StepObservers(s: State, e: Event, t: State, o: Observer)
    requires Step(s, e, t)
    ensures o in t.observers <==> e == AddObserver(o) || (o in s.observers && e != RemoveObserver(o))
  {
    hide Update;
    match e
    case AddCondition(d) =>
      UpdateKeepsConditions(s.(conditions := s.conditions + [d], isSet := s.isSet[d := false]));
    case RemoveCondition(d) =>
      var i :| 0 <= i < |s.conditions| && s.conditions[i] == d
        && t == Update(s.(conditions := s.conditions[..i] + s.conditions[i + 1..]));
      UpdateKeepsConditions(s.(conditions := s.conditions[..i] + s.conditions[i + 1..]));
    case Notify(d) => UpdateKeepsConditions(s.(pending := s.pending - multiset{d}));
    case Flip(_, _) =>
    case AddObserver(_) =>
    case RemoveObserver(_) =>
  }

  /** The registered conditions, their flags and the observers are what the events
      have made them. */
  lemma {:induction false} ConditionsFromEvents(run: seq<State>, events: seq<Event>, n: nat, c: Condition)
    requires IsRun(run, events) && n <= |events|
    ensures Distinct(run[n].conditions)
    ensures c in run[n].conditions <==> Registered(events, n, c)
  {
    hide Step, Distinct;
    if n > 0 {
      ConditionsFromEvents(run, events, n - 1, c);
      StepConditions(run[n - 1], events[n - 1], run[n], c);
    } else {
      NothingRegistered();
    }
  }

  lemma NothingRegistered()
    ensures Distinct(Initial().conditions)
  {
  }

  lemma {:induction false} FlagsFromEvents(run: seq<State>, events: seq<Event>, n: nat, c: Condition)
    requires IsRun(run, events) && n <= |events|
    ensures IsMet(run[n].isSet, c) == Flag(events, n, c)
  {
    if n > 0 {
      hide Step, IsMet;
      FlagsFromEvents(run, events, n - 1, c);
      StepFlags(run[n - 1], events[n - 1], run[n], c);
    }
  }

  lemma {:induction false} ObserversFromEvents(run: seq<State>, events: seq<Event>, n: nat, o: Observer)
    requires IsRun(run, events) && n <= |events|
    ensures o in run[n].observers <==> Observing(events, n, o)
  {
    hide Step;
    if n > 0 {
      ObserversFromEvents(run, events, n - 1, o);
      StepObservers(run[n - 1], events[n - 1], run[n], o);
    }
  }

  /** Once every notification has been made, the process is operational exactly
      when every condition that is registered was last set. */
  lemma OperationalIsConjunction(run: seq<State>, events: seq<Event>, n: nat)
    requires IsRun(run, events) && n <= |events| && run[n].pending == multiset{}
    ensures run[n].operational <==> forall c: Condition :: Registered(events, n, c) ==> Flag(events, n, c)
  {
    hide Step, IsMet, Inv, Registered, Flag;
    var s := run[n];
    RunInv(run, events, n);
    PendingSettled(s);
    if s.operational {
      forall c: Condition | Registered(events, n, c) ensures Flag(events, n, c) {
        ConditionsFromEvents(run, events, n, c);
        FlagsFromEvents(run, events, n, c);
      }
    } else {
      var c :| c in s.conditions && !IsMet(s.isSet, c);
      ConditionsFromEvents(run, events, n, c);
      FlagsFromEvents(run, events, n, c);
      assert Registered(events, n, c) && !Flag(events, n, c);
    }
  }

  lemma PendingSettled(s: State)
    requires Inv(s) && s.pending == multiset{}
    ensures s.operational == AllMet(s.conditions, s.isSet)
  {
  }

  /** At all times the last published value and the last value of every observer
      are the stored state, and nobody is told the same state twice. */
  lemma EveryoneIsUpToDate(run: seq<State>, events: seq<Event>, n: nat, o: Observer)
    requires IsRun(run, events) && n <= |events| && o in run[n].observers
    ensures var s := run[n]; var r := s.observers[o].received;
      && s.published != [] && r != []
      && s.published[|s.published| - 1] == s.operational == r[|r| - 1]
      && forall i :: 0 < i < |r| ==> r[i] != r[i - 1]
  {
    RunInv(run, events, n);
    ToldOnChangesOnly(run[n], o);
  }

  lemma ToldOnChangesOnly(s: State, o: Observer)
    requires PublishedIsCurrent(s) && ReceivesWhatIsPublished(s) && o in s.observers
    ensures var r := s.observers[o].received;
      && r != [] && r[|r| - 1] == s.published[|s.published| - 1]
      && forall i :: 0 < i < |r| ==> r[i] != r[i - 1]
  {
    Alternating(s.published, s.observers[o].since);
  }

  lemma Alternating(published: seq<bool>, since: nat)
    requires since < |published| && forall i :: 0 <= i < |published| ==> published[i] == (i % 2 == 0)
    ensures var r := published[since..]; r[|r| - 1] == published[|published| - 1]
    ensures var r := published[since..]; forall i :: 0 < i < |r| ==> r[i] != r[i - 1]
  {
    var r := published[since..];
    forall i | 0 < i < |r| ensures r[i] != r[i - 1] {
      assert r[i] == published[since + i] && r[i - 1] == published[since + i - 1];
    }
  }

  /** A flag that has flipped without its notification can leave the state
      behind: the conjunction alone is not an invariant. */
  lemma StaleBetweenTheSteps()
    ensures exists run: seq<State>, events: seq<Event> ::
      IsRun(run, events) && var s := run[|events|]; s.operational != AllMet(s.conditions, s.isSet)
  {
    var s0 := Initial();
    var s1 := Update(s0.(conditions := [7], isSet := map[7 := false]));
    assert IsMet(map[7 := false], 7) == false && 7 in [7];
    assert s1.isSet == map[7 := false] && s1.conditions == [7] && !s1.operational;
    var s2 := s1.(isSet := s1.isSet[7 := true], pending := s1.pending + multiset{7});
    var run := [s0, s1, s2];
    var events := [AddCondition(7), Flip(7, true)];
    assert s0.conditions + [7] == [7] && s0.isSet[7 := false] == map[7 := false];
    assert Step(s0, events[0], s1) && Step(s1, events[1], s2);
    assert IsRun(run, events);
  }

  // ---------------------------------------------------------- the process interface

  class ProcessInterface {
    var operationalConditions: seq<Condition>
    var isSet: map<Condition, bool>
    var operationalState: bool
    var published: seq<bool>
    var operationalObservers: map<Observer, Registration>
    ghost var pending: multiset<Condition>

    ghost function Abs(): State
      reads this
    {
      State(operationalConditions, isSet, operationalState, published, operationalObservers, pending)
    }

    constructor ()
      ensures Abs() == Initial()
    {
      operationalConditions, isSet, operationalObservers := [], map[], map[];
      operationalState, published := true, [true];
      pending := multiset{};
    }

    /** update_operational_state: looks no further than the first condition that
        is not met, and calls the observers one after the other. */
    method UpdateOperationalState() returns (changed: bool)
      modifies this
      ensures Abs() == Update(old(Abs()))
      ensures changed == (operationalState != old(operationalState))
    {
      var operational := true;
      var i := 0;
      while i < |operationalConditions|
        invariant 0 <= i <= |operationalConditions|
        invariant operational
        invariant forall j :: 0 <= j < i ==> IsMet(isSet, operationalConditions[j])
      {
        if operationalConditions[i] !in isSet || !isSet[operationalConditions[i]] {
          assert !IsMet(isSet, operationalConditions[i]);
          operational := false;
          break;
        }
        i := i + 1;
      }
      assert operational == AllMet(operationalConditions, isSet);
      changed := operational != operationalState;
      if changed {
        operationalState := operational;
        published := published + [operational];
        DeliverToObservers(operational);
      }
    }

    method DeliverToObservers(value: bool)
      modifies this`operationalObservers
      ensures operationalObservers == Delivered(old(operationalObservers), value)
    {
      ghost var before := operationalObservers;
      var todo := operationalObservers.Keys;
      while todo != {}
        invariant todo <= operationalObservers.Keys == before.Keys
        invariant forall o <- before ::
          operationalObservers[o] == if o in todo then before[o] else Delivered(before, value)[o]
        decreases |todo|
      {
        var o :| o in todo;
        var r := operationalObservers[o];
        operationalObservers := operationalObservers[o := r.(received := r.received + [value])];
        todo := todo - {o};
      }
    }

    method AddOperationalCondition(c: Condition)
      requires c !in operationalConditions
      modifies this
      ensures Step(old(Abs()), AddCondition(c), Abs()) && !operationalState
    {
      isSet := isSet[c := false];
      operationalConditions := operationalConditions + [c];
      assert c in operationalConditions && !IsMet(isSet, c);
      var _ := UpdateOperationalState();
    }

    method RemoveOperationalCondition(c: Condition)
      requires c in operationalConditions
      modifies this
      ensures Step(old(Abs()), RemoveCondition(c), Abs())
    {
      var i := 0;
      while operationalConditions[i] != c
        invariant 0 <= i < |operationalConditions| && c in operationalConditions[i..]
        decreases |operationalConditions| - i
      {
        i := i + 1;
      }
      operationalConditions := operationalConditions[..i] + operationalConditions[i + 1..];
      var _ := UpdateOperationalState();
    }

    /** OperationalCondition::_set and _clear, before the notification. */
    method FlipCondition(c: Condition, value: bool) returns (notify: bool)
      requires c in operationalConditions && c in isSet
      modifies this`isSet, this`pending
      ensures Step(old(Abs()), Flip(c, value), Abs())
      ensures notify <==> pending == old(pending) + multiset{c}
    {
      assert (pending + multiset{c})[c] == pending[c] + 1;
      notify := isSet[c] != value;
      if notify {
        isSet := isSet[c := value];
        pending := pending + multiset{c};
      }
    }

    method NotifyOperationalConditionChange(c: Condition)
      requires c in pending
      modifies this
      ensures Step(old(Abs()), Notify(c), Abs())
    {
      pending := pending - multiset{c};
      var _ := UpdateOperationalState();
    }

    method AddOperationalObserver(o: Observer)
      requires published != []
      modifies this`operationalObservers
      ensures Step(old(Abs()), AddObserver(o), Abs())
    {
      operationalObservers := operationalObservers[o := Registration(|published| - 1, [operationalState])];
    }

    method RemoveOperationalObserver(o: Observer)
      modifies this`operationalObservers
      ensures Step(old(Abs()), RemoveObserver(o), Abs())
    {
      operationalObservers := operationalObservers - {o};
    }
  }
}
