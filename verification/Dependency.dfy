/** yogi-cpp's Dependency, an operational condition that is met while none of its
    binding and subscription observers is known not to be ready. Each observer
    reports whether it is ready, and then reports every change; the dependency
    keeps one unsigned counter, which wraps around at 2^64. */
module Dependency {

  const SIZE: nat := 0x1_0000_0000_0000_0000

  datatype Report = Report(observer: nat, ready: bool)

  /** The last and the first report of every observer that has made one. */
  function Last(reports: seq<Report>): map<nat, bool>
  {
    if reports == [] then map[]
    else
      var r := reports[|reports| - 1];
      Last(reports[..|reports| - 1])[r.observer := r.ready]
  }

  function First(reports: seq<Report>): map<nat, bool>
  {
    if reports == [] then map[]
    else
      var r := reports[|reports| - 1];
      var f := First(reports[..|reports| - 1]);
      if r.observer in f then f else f[r.observer := r.ready]
  }

  /** An observer reports changes only. */
  predicate Alternates(reports: seq<Report>)
  {
    reports != [] ==>
      var r := reports[|reports| - 1];
      var before := reports[..|reports| - 1];
      Alternates(before) && (r.observer in Last(before) ==> Last(before)[r.observer] != r.ready)
  }

  function With(m: map<nat, bool>, value: bool): set<nat> { set o <- m | m[o] == value }

  /** How many observers said last that they are not ready, and how many said in
      their first report that they are. */
  function NotReady(reports: seq<Report>): nat { |With(Last(reports), false)| }

  function ReadyAtFirst(reports: seq<Report>): nat { |With(First(reports), true)| }

  function Wrapped(reports: seq<Report>): nat { (NotReady(reports) - ReadyAtFirst(reports)) % SIZE }

  lemma {:induction false} SameObservers(reports: seq<Report>)
    ensures Last(reports).Keys == First(reports).Keys
  {
    if reports != [] {
      SameObservers(reports[..|reports| - 1]);
    }
  }

  lemma WithUpdated(m: map<nat, bool>, o: nat, value: bool)
    requires o in m ==> m[o] != value
    ensures With(m[o := value], value) == With(m, value) + {o} && o !in With(m, value)
    ensures With(m[o := value], !value) == With(m, !value) - {o}
    ensures o in m <==> o in With(m, !value)
  {
  }

  /** One more report moves the difference by one, whichever report it is. */
  lemma OneReport(reports: seq<Report>, r: Report)
    requires Alternates(reports + [r])
    ensures Alternates(reports)
    ensures NotReady(reports + [r]) - ReadyAtFirst(reports + [r])
         == NotReady(reports) - ReadyAtFirst(reports) + if r.ready then -1 else 1
  {
    assert (reports + [r])[..|reports|] == reports;
    SameObservers(reports);
    WithUpdated(Last(reports), r.observer, r.ready);
    if r.observer !in First(reports) {
      WithUpdated(First(reports), r.observer, r.ready);
      assert With(First(reports), false) - {r.observer} == With(First(reports), false);
      assert With(First(reports), true) - {r.observer} == With(First(reports), true);
      assert With(Last(reports), !r.ready) - {r.observer} == With(Last(reports), !r.ready);
    }
  }

  /** The flag after these reports. */
  predicate Met(reports: seq<Report>) { reports != [] && Wrapped(reports) == 0 }

  function Counted(counter: nat, ready: bool): nat
  {
    if ready then (if counter == 0 then SIZE - 1 else counter - 1)
    else if counter == SIZE - 1 then 0 else counter + 1
  }

  lemma CountedWraps(d: int, ready: bool)
    ensures Counted(d % SIZE, ready) == (d + if ready then -1 else 1) % SIZE
  {
    var m := d % SIZE;
    var q := d / SIZE;
    assert d == q * SIZE + m;
    var e := if ready then m - 1 else m + 1;
    if e == -1 {
      ModIs(q - 1, SIZE - 1);
    } else if e == SIZE {
      ModIs(q + 1, 0);
    } else {
      ModIs(q, e);
    }
  }

  lemma ModIs(q: int, r: nat)
    requires r < SIZE
    ensures (q * SIZE + r) % SIZE == r
  {
  }

  class Dependency {
    var nonReadyObservers: nat
    var isSet: bool
    ghost var reports: seq<Report>

    ghost predicate Valid()
      reads this
    {
      && Alternates(reports)
      && nonReadyObservers == Wrapped(reports)
      && isSet == Met(reports)
    }

    constructor ()
      ensures Valid() && reports == []
    {
      nonReadyObservers, isSet, reports := 0, false, [];
    }

    /** _on_state_changed. */
    method OnStateChanged(r: Report) returns (notify: bool)
      requires Valid() && Alternates(reports + [r])
      modifies this
      ensures Valid() && reports == old(reports) + [r]
      ensures notify == (isSet != old(isSet))
    {
      hide Alternates, NotReady, ReadyAtFirst;
      OneReport(reports, r);
      CountedWraps(NotReady(reports) - ReadyAtFirst(reports), r.ready);
      nonReadyObservers := if r.ready
        then if nonReadyObservers == 0 then SIZE - 1 else nonReadyObservers - 1
        else if nonReadyObservers == SIZE - 1 then 0 else nonReadyObservers + 1;
      reports := reports + [r];
      if nonReadyObservers != 0 {
        notify := isSet;
        isSet := false;
      } else {
        notify := !isSet;
        isSet := true;
      }
    }
  }

  // ----------------------------------------------------------- what the counter says

  predicate AmongFirst(reports: seq<Report>, n: nat)
  {
    forall r <- reports :: r.observer < n
  }

  lemma {:induction false} ObserversAmongFirst(reports: seq<Report>, n: nat)
    requires AmongFirst(reports, n)
    ensures forall o <- Last(reports) :: o < n
  {
    if reports != [] {
      assert reports[|reports| - 1] in reports;
      assert forall r <- reports[..|reports| - 1] :: r in reports;
      ObserversAmongFirst(reports[..|reports| - 1], n);
    }
  }

  lemma {:induction false} AtMost(s: set<nat>, n: nat)
    requires forall o <- s :: o < n
    ensures |s| <= n
  {
    if n == 0 {
      assert s == {};
    } else {
      AtMost(s - {n - 1}, n - 1);
      assert |s - {n - 1}| >= |s| - 1;
    }
  }

  lemma CountsAreSmall(reports: seq<Report>, n: nat)
    requires AmongFirst(reports, n)
    ensures NotReady(reports) <= n && ReadyAtFirst(reports) <= n
  {
    ObserversAmongFirst(reports, n);
    SameObservers(reports);
    AtMost(With(Last(reports), false), n);
    AtMost(With(First(reports), true), n);
  }

  /** The counter is the number of observers that are not ready exactly when no
      observer's first report was that it is ready; one that starts out ready
      takes the counter below zero, that is, around to 2^64 - 1. */
  lemma CountsNotReadyIff(reports: seq<Report>, n: nat)
    requires Alternates(reports) && AmongFirst(reports, n) && n < SIZE
    ensures Wrapped(reports) == NotReady(reports) <==> ReadyAtFirst(reports) == 0
  {
    CountsAreSmall(reports, n);
    var a, k := NotReady(reports), ReadyAtFirst(reports);
    assert (a - k) % SIZE == if a >= k then a - k else a - k + SIZE;
  }

  ghost predicate AllReady(reports: seq<Report>, n: nat)
  {
    forall o: nat | o < n :: o in Last(reports) && Last(reports)[o]
  }

  lemma NoneNotReady(reports: seq<Report>, n: nat)
    requires AmongFirst(reports, n) && forall o: nat | o < n :: o in Last(reports)
    ensures NotReady(reports) == 0 <==> AllReady(reports, n)
  {
    ObserversAmongFirst(reports, n);
    var w := With(Last(reports), false);
    if AllReady(reports, n) {
      assert forall o <- w :: o < n;
      assert w == {};
    }
    if w == {} {
      forall o: nat | o < n ensures Last(reports)[o] {
        assert o !in w;
      }
    }
  }

  /** The condition is met exactly when as many observers are not ready now as
      were ready at first. */
  lemma MetIffBalanced(reports: seq<Report>, n: nat)
    requires Alternates(reports) && AmongFirst(reports, n) && n < SIZE && reports != []
    ensures Met(reports) <==> NotReady(reports) == ReadyAtFirst(reports)
  {
    hide NotReady, ReadyAtFirst;
    CountsAreSmall(reports, n);
    var a, k := NotReady(reports), ReadyAtFirst(reports);
    if a >= k {
      ModIs(0, a - k);
    } else {
      ModIs(-1, a - k + SIZE);
    }
  }

  predicate AllReported(reports: seq<Report>, n: nat) { forall o: nat | o < n :: o in Last(reports) }

  lemma AppendOne(reports: seq<Report>, r: Report)
    ensures Last(reports + [r]) == Last(reports)[r.observer := r.ready]
    ensures r.observer in First(reports) ==> First(reports + [r]) == First(reports)
    ensures Alternates(reports + [r]) <==>
      Alternates(reports) && (r.observer in Last(reports) ==> Last(reports)[r.observer] != r.ready)
  {
    assert (reports + [r])[..|reports|] == reports;
  }

  /** First reports stay what they are. */
  lemma {:induction false} FirstStays(reports: seq<Report>, more: seq<Report>, n: nat)
    requires AllReported(reports, n) && AmongFirst(reports + more, n)
    ensures First(reports + more) == First(reports) && AllReported(reports + more, n)
  {
    if more == [] {
      assert reports + more == reports;
    } else {
      var k := |more| - 1;
      assert reports + more == (reports + more[..k]) + [more[k]];
      assert more[k] in reports + more;
      assert forall r <- reports + more[..k] :: r in reports + more;
      FirstStays(reports, more[..k], n);
      SameObservers(reports + more[..k]);
      AppendOne(reports + more[..k], more[k]);
    }
  }

  /** From any point on, all observers can become ready. */
  lemma {:induction false} CanBecomeReady(reports: seq<Report>, n: nat) returns (more: seq<Report>)
    requires Alternates(reports) && AmongFirst(reports, n) && AllReported(reports, n)
    ensures Alternates(reports + more) && AmongFirst(reports + more, n) && AllReady(reports + more, n)
    decreases NotReady(reports)
  {
    var w := With(Last(reports), false);
    NoneNotReady(reports, n);
    if w == {} {
      more := [];
      assert reports + more == reports;
    } else {
      ObserversAmongFirst(reports, n);
      var o :| o in w;
      var r := Report(o, true);
      AppendOne(reports, r);
      WithUpdated(Last(reports), o, true);
      assert forall x <- reports + [r] :: x in reports || x == r;
      assert With(Last(reports + [r]), false) == w - {o};
      var rest := CanBecomeReady(reports + [r], n);
      more := [r] + rest;
      assert reports + more == reports + [r] + rest;
    }
  }

  ghost predicate RightFromHere(reports: seq<Report>, n: nat)
  {
    forall more: seq<Report> :: Alternates(reports + more) && AmongFirst(reports + more, n) ==>
      (Met(reports + more) <==> AllReady(reports + more, n))
  }

  /** Once all n observers have reported, the condition is met exactly when all
      are ready, whatever they report from then on, if and only if none of them
      was ready at first. */
  lemma MetIffAllReady(reports: seq<Report>, n: nat)
    requires 0 < n < SIZE && Alternates(reports) && AmongFirst(reports, n) && AllReported(reports, n)
    ensures RightFromHere(reports, n) <==> ReadyAtFirst(reports) == 0
  {
    hide Alternates, Met, AllReady, NotReady;
    assert 0 in Last(reports) && reports != [];
    if ReadyAtFirst(reports) == 0 {
      forall more: seq<Report> | Alternates(reports + more) && AmongFirst(reports + more, n)
        ensures Met(reports + more) <==> AllReady(reports + more, n)
      {
        FirstStays(reports, more, n);
        MetIffBalanced(reports + more, n);
        NoneNotReady(reports + more, n);
      }
    } else {
      var more := CanBecomeReady(reports, n);
      FirstStays(reports, more, n);
      MetIffBalanced(reports + more, n);
      NoneNotReady(reports + more, n);
      assert !Met(reports + more) && AllReady(reports + more, n);
    }
  }

  /** One observer that is ready from the start keeps the dependency unmet while
      it is ready, and has it met once it is not. */
  lemma ReadyFromTheStart()
    ensures var r := [Report(0, true)]; Alternates(r) && AllReady(r, 1) && Wrapped(r) == SIZE - 1
    ensures var r := [Report(0, true), Report(0, false)]; Alternates(r) && !AllReady(r, 1) && Wrapped(r) == 0
  {
    var e: seq<Report> := [];
    var a := [Report(0, true)];
    var b := [Report(0, true), Report(0, false)];
    assert e + [Report(0, true)] == a && a + [Report(0, false)] == b;
    assert a[..0] == e && b[..1] == a;
    assert With(map[], false) == {} && With(map[], true) == {};
    assert Last(a) == map[0 := true] && First(a) == map[0 := true];
    assert Last(b) == map[0 := false];
    OneReport(e, Report(0, true));
    OneReport(a, Report(0, false));
    assert NotReady(e) == 0 && ReadyAtFirst(e) == 0;
  }
}
