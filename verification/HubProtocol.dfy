/** The session together with a hub that answers the requests it receives once
    each and in order, and sends notifications whenever it likes. Messages reach
    the session in batches; either side may close the socket at any time. */
module HubProtocol {
  import opened Bytes
  import opened Seqs
  import opened HubSession

  /** A message on its way to the session. The request a response belongs to is
      not part of the message. */
  datatype InFlight = Response(id: nat, msg: Message) | Notification(msg: Message)

  /** `hub`: requests on their way to the hub or waiting there. `answers`: what
      the hub has answered so far. */
  datatype System = System(view: View, wire: seq<InFlight>, hub: seq<nat>, answers: map<nat, Message>, next: nat)

  datatype Event =
    | Requests
    | Answers(msg: Message)
    | Notifies(msg: Message)
    | Delivers(k: nat)
    | Closes
    | SocketCloses

  ghost predicate Init(s: System)
  {
    s == System(Snapshot(true, false, [], [], [], s.view.code), [], [], map[], 0)
  }

  /** Every answer starts with one of the thirteen RES_ statuses. */
  predicate AnswerMessage(m: Message) { m != [] && 0 <= m[0] <= 12 && |m| < TWO32 }

  predicate NotificationMessage(m: Message) { m != [] && NotificationStatus(m[0]) && |m| < TWO32 }

  function Contents(wire: seq<InFlight>): (ms: seq<Message>)
    ensures |ms| == |wire| && forall i :: 0 <= i < |wire| ==> ms[i] == wire[i].msg
  {
    seq(|wire|, i requires 0 <= i < |wire| => wire[i].msg)
  }

  ghost predicate Step(s: System, e: Event, t: System)
  {
    match e
    case Requests =>
      t == s.(view := Request(s.view, s.next), next := s.next + 1,
              hub := if s.view.alive && !s.view.closing then s.hub + [s.next] else s.hub)
    case Answers(m) =>
      && s.hub != [] && AnswerMessage(m)
      && t == s.(wire := s.wire + [Response(s.hub[0], m)], hub := s.hub[1..], answers := s.answers[s.hub[0] := m])
    case Notifies(m) =>
      NotificationMessage(m) && t == s.(wire := s.wire + [Notification(m)])
    case Delivers(k) =>
      && s.view.alive && !s.view.closing && k <= |s.wire|
      && (forall m <- Contents(s.wire[..k]) :: |m| < TWO32)
      && t == s.(view := HandleBatch(s.view, Encode(Contents(s.wire[..k]))), wire := s.wire[k..])
    case Closes =>
      s.view.alive && t == s.(view := s.view.(closing := true))
    case SocketCloses =>
      s.view.alive && t == s.(view := SocketClosed(s.view))
  }

  /** The requests whose responses are on the wire, in order. */
  function Answered(wire: seq<InFlight>): seq<nat>
  {
    if wire == [] then [] else (if wire[0].Response? then [wire[0].id] else []) + Answered(wire[1..])
  }

  function CallIds(calls: seq<Call>): multiset<nat>
  {
    if calls == [] then multiset{} else CallIds(calls[..|calls| - 1]) + multiset{calls[|calls| - 1].id}
  }

  function Numbers(n: nat): multiset<nat>
  {
    if n == 0 then multiset{} else Numbers(n - 1) + multiset{n - 1}
  }

  /** Waiting or told: where every request is. */
  function Accounted(v: View): multiset<nat> { multiset(v.queue) + CallIds(v.calls) }

  /** An answer the session has a case for: not 1 and not 8. */
  predicate Handleable(m: Message) { m != [] && ResponseStatus(m[0]) }

  predicate GoodCall(s: System, c: Call)
  {
    || (!s.view.alive && c.outcome in {Rejected(CLOSED), Rejected(NOT_OPEN)})
    || (c.id in s.answers && Handleable(s.answers[c.id]) && c.outcome == Told(s.view.code, c.id, s.answers[c.id]))
  }

  predicate GoodWire(s: System, w: InFlight)
  {
    match w
    case Response(id, m) => AnswerMessage(m) && id in s.answers && s.answers[id] == m
    case Notification(m) => NotificationMessage(m)
  }

  predicate Inv(s: System)
  {
    && (s.view.alive && !s.view.closing ==> s.view.queue == Answered(s.wire) + s.hub)
    && (!s.view.alive ==> s.view.queue == [])
    && Accounted(s.view) == Numbers(s.next)
    && (forall c <- s.view.calls :: GoodCall(s, c))
    && (forall w <- s.wire :: GoodWire(s, w))
    && (forall id <- s.hub :: id !in s.answers && id < s.next)
    && (forall id <- s.answers.Keys :: id < s.next)
    && (forall i, j :: 0 <= i < j < |s.hub| ==> s.hub[i] != s.hub[j])
  }

  // -------------------------------------------------- nothing is lost or told twice

  lemma CallIdsAppend(calls: seq<Call>, c: Call)
    ensures CallIds(calls + [c]) == CallIds(calls) + multiset{c.id}
  {
    assert (calls + [c])[..|calls|] == calls;
  }

  lemma RejectLast(ids: seq<nat>)
    requires ids != []
    ensures var n := |ids| - 1;
      && RejectAll(ids) == RejectAll(ids[..n]) + [Call(ids[n], Rejected(CLOSED))]
      && multiset(ids) == multiset(ids[..n]) + multiset{ids[n]}
  {
    var n := |ids| - 1;
    assert ids == ids[..n] + [ids[n]];
  }

  lemma {:induction false} CallIdsRejectAll(calls: seq<Call>, ids: seq<nat>)
    ensures CallIds(calls + RejectAll(ids)) == CallIds(calls) + multiset(ids)
    decreases |ids|
  {
    hide CallIds, RejectAll;
    if ids == [] {
      RejectNone();
      assert calls + RejectAll(ids) == calls;
    } else {
      var n := |ids| - 1;
      var c := Call(ids[n], Rejected(CLOSED));
      RejectLast(ids);
      CallIdsRejectAll(calls, ids[..n]);
      CallIdsAppend(calls + RejectAll(ids[..n]), c);
      Assoc(calls, RejectAll(ids[..n]), [c]);
    }
  }

  lemma RejectNone()
    ensures RejectAll([]) == []
  {
  }

  /** Whatever message arrives, every request stays accounted for exactly once. */
  lemma HandleConserves(v: View, msg: Message)
    ensures Accounted(HandleMessage(v, msg).view) == Accounted(v)
  {
    hide Told, CallIds;
    if msg != [] && ResponseStatus(msg[0]) && v.queue != [] {
      Shift(v, Told(v.code, v.queue[0], msg));
    }
  }

  lemma Shift(v: View, o: Outcome)
    requires v.queue != []
    ensures Accounted(v.(queue := v.queue[1..], calls := v.calls + [Call(v.queue[0], o)])) == Accounted(v)
  {
    hide CallIds;
    CallIdsAppend(v.calls, Call(v.queue[0], o));
    assert v.queue == [v.queue[0]] + v.queue[1..];
  }

  lemma {:induction false} HandleAllConserves(v: View, msgs: seq<Message>)
    ensures Accounted(HandleAll(v, msgs).view) == Accounted(v)
    decreases |msgs|
  {
    hide Accounted, HandleMessage;
    if msgs != [] {
      HandleConserves(v, msgs[0]);
      if !HandleMessage(v, msgs[0]).threw {
        HandleAllConserves(HandleMessage(v, msgs[0]).view, msgs[1..]);
      }
    }
  }

  /** Also for arbitrary bytes: no batch makes a callback run twice or get lost. */
  lemma BatchConserves(v: View, data: seq<byte>)
    ensures Accounted(HandleBatch(v, data)) == Accounted(v)
  {
    HandleAllConserves(v, Decode(data).msgs);
  }

  // --------------------------------------------------------------- one delivery

  /** A message that makes its handling throw: a status without a case, a response
      its parser throws on, a notification its handler throws on. */
  predicate Stops(code: Code, w: InFlight)
    requires w.msg != []
  {
    match w
    case Response(id, m) => !ResponseStatus(m[0]) || ParserThrows(code, w)
    case Notification(m) => code.handlerThrows(m)
  }

  predicate ParserThrows(code: Code, w: InFlight)
  {
    w.Response? && w.msg != [] && w.msg[0] == 0 && code.parserThrows(w.id, w.msg)
  }

  /** The callbacks that run for one message. */
  function ToldBy(code: Code, w: InFlight): seq<Call>
  {
    if w.Response? && Handleable(w.msg) then [Call(w.id, Told(code, w.id, w.msg))] else []
  }

  /** What handling one in-flight message does to a session in step with the
      hub: a response goes to its own request, a notification to none. */
  lemma DeliverOne(s: System, w: InFlight, rest: seq<InFlight>, v: View)
    requires GoodWire(s, w) && v.queue == Answered([w] + rest) + s.hub
    ensures w.msg != []
    ensures var h := HandleMessage(v, w.msg);
            && h.threw == Stops(v.code, w)
            && h.view.calls == v.calls + ToldBy(v.code, w)
            && (!h.threw ==> h.view.queue == Answered(rest) + s.hub)
            && h.view.alive == v.alive && h.view.closing == v.closing && h.view.code == v.code
  {
    hide OutcomeOf;
    assert ([w] + rest)[1..] == rest;
    if w.Response? {
      assert v.queue == [w.id] + (Answered(rest) + s.hub);
    }
  }

  /** The callbacks that run for a part of the stream, up to what stops it. */
  function ToldByAll(code: Code, wire: seq<InFlight>): seq<Call>
  {
    if wire == [] || wire[0].msg == [] then []
    else ToldBy(code, wire[0]) + if Stops(code, wire[0]) then [] else ToldByAll(code, wire[1..])
  }

  lemma {:induction false} DeliverAll(s: System, k: nat, v: View)
    requires k <= |s.wire| && forall w <- s.wire :: GoodWire(s, w)
    requires v.alive && !v.closing && v.queue == Answered(s.wire) + s.hub && v.code == s.view.code
    requires forall c <- v.calls :: GoodCall(s, c)
    ensures var h := HandleAll(v, Contents(s.wire[..k]));
            && (!h.threw ==> h.view.queue == Answered(s.wire[k..]) + s.hub)
            && h.view.alive && !h.view.closing && h.view.code == v.code
            && h.view.calls == v.calls + ToldByAll(v.code, s.wire[..k])
            && (h.threw <==> exists i :: 0 <= i < k && s.wire[i].msg != [] && Stops(v.code, s.wire[i]))
            && (forall c <- h.view.calls :: GoodCall(s, c))
    decreases k
  {
    hide HandleMessage, GoodCall, GoodWire, Answered, Stops, ToldBy;
    var msgs := Contents(s.wire[..k]);
    if k == 0 {
      assert s.wire[0..] == s.wire && v.calls + [] == v.calls;
    } else {
      var w, rest := s.wire[0], s.wire[1..];
      assert s.wire == [w] + rest && msgs[0] == w.msg;
      DeliverOne(s, w, rest, v);
      ToldByGood(s, w);
      var h := HandleMessage(v, w.msg);
      assert s.wire[..k][0] == w && s.wire[..k][1..] == rest[..k - 1];
      if h.threw {
        assert ToldBy(v.code, w) + [] == ToldBy(v.code, w);
      } else {
        var s' := s.(wire := rest);
        forall c <- h.view.calls ensures GoodCall(s', c) { SameCall(s, s', c); }
        forall x <- rest ensures GoodWire(s', x) { SameWire(s, s', x); }
        DeliverAll(s', k - 1, h.view);
        assert msgs[1..] == Contents(rest[..k - 1]) && rest[k - 1..] == s.wire[k..];
        var end := HandleAll(h.view, msgs[1..]);
        forall c <- end.view.calls ensures GoodCall(s, c) { SameCall(s', s, c); }
        Assoc(v.calls, ToldBy(v.code, w), ToldByAll(v.code, rest[..k - 1]));
        StopsBehind(v.code, s.wire, k);
      }
    }
  }

  lemma StopsBehind(code: Code, wire: seq<InFlight>, k: nat)
    requires 0 < k <= |wire| && !(wire[0].msg != [] && Stops(code, wire[0]))
    ensures (exists i :: 0 <= i < k && wire[i].msg != [] && Stops(code, wire[i])) <==>
            exists i :: 0 <= i < k - 1 && wire[1..][i].msg != [] && Stops(code, wire[1..][i])
  {
    hide Stops;
    if i :| 0 <= i < k && wire[i].msg != [] && Stops(code, wire[i]) {
      assert wire[1..][i - 1] == wire[i];
    }
    if i :| 0 <= i < k - 1 && wire[1..][i].msg != [] && Stops(code, wire[1..][i]) {
      assert wire[i + 1] == wire[1..][i];
    }
  }

  lemma ToldByGood(s: System, w: InFlight)
    requires GoodWire(s, w)
    ensures forall c <- ToldBy(s.view.code, w) :: GoodCall(s, c)
  {
    hide Told;
  }

  lemma SameCall(s: System, t: System, c: Call)
    requires s.view.alive == t.view.alive && s.view.code == t.view.code && s.answers == t.answers && GoodCall(s, c)
    ensures GoodCall(t, c)
  {
  }

  lemma SameWire(s: System, t: System, w: InFlight)
    requires s.answers == t.answers && GoodWire(s, w)
    ensures GoodWire(t, w)
  {
  }

  // ------------------------------------------------------------------ invariant

  lemma DeliverInv(s: System, k: nat, t: System)
    requires Inv(s) && Step(s, Delivers(k), t)
    ensures Inv(t)
  {
    hide GoodCall, GoodWire, Accounted, Answered;
    var msgs := Contents(s.wire[..k]);
    var data := Encode(msgs);
    DecodeWhole(msgs);
    DeliverAll(s, k, s.view);
    BatchConserves(s.view, data);
    forall c <- t.view.calls ensures GoodCall(t, c) { SameCall(s, t, c); }
    forall w <- t.wire ensures GoodWire(t, w) { SameWire(s, t, w); }
  }

  lemma DecodeWhole(msgs: seq<Message>)
    requires forall m <- msgs :: |m| < TWO32
    ensures Decode(Encode(msgs)) == Batch(msgs, false)
  {
    DecodeEncoded(msgs, []);
    assert Encode(msgs) + [] == Encode(msgs);
  }

  lemma {:induction false} AnsweredAppend(wire: seq<InFlight>, w: InFlight)
    ensures Answered(wire + [w]) == Answered(wire) + if w.Response? then [w.id] else []
  {
    if wire == [] {
      assert (wire + [w])[1..] == [];
    } else {
      var head := if wire[0].Response? then [wire[0].id] else [];
      var last := if w.Response? then [w.id] else [];
      assert (wire + [w])[1..] == wire[1..] + [w];
      AnsweredAppend(wire[1..], w);
      assert head + (Answered(wire[1..]) + last) == (head + Answered(wire[1..])) + last;
    }
  }

  /** What the hub has not answered yet, after it has answered its oldest
      request. */
  lemma AnswerHub(s: System, m: Message, t: System)
    requires Inv(s) && Step(s, Answers(m), t)
    ensures forall id <- t.hub :: id !in t.answers && id < t.next
    ensures forall id <- t.answers.Keys :: id < t.next
    ensures forall i, j :: 0 <= i < j < |t.hub| ==> t.hub[i] != t.hub[j]
    ensures s.hub[0] !in s.answers
  {
    hide GoodCall, GoodWire, Accounted, Answered, AnswerMessage;
    assert s.hub[0] in s.hub;
    forall i | 0 <= i < |t.hub| ensures t.hub[i] !in t.answers && t.hub[i] < t.next {
      assert t.hub[i] == s.hub[i + 1] && s.hub[i + 1] in s.hub;
    }
  }

  lemma AnsweredCall(s: System, m: Message, t: System, c: Call)
    requires Step(s, Answers(m), t) && s.hub[0] !in s.answers && GoodCall(s, c)
    ensures GoodCall(t, c)
  {
    hide Handleable, AnswerMessage, Told;
  }

  lemma AnsweredWire(s: System, m: Message, t: System, w: InFlight)
    requires Step(s, Answers(m), t) && s.hub[0] !in s.answers
    requires GoodWire(s, w) || w == Response(s.hub[0], m)
    ensures GoodWire(t, w)
  {
    hide AnswerMessage;
  }

  lemma AnswerInv(s: System, m: Message, t: System)
    requires Inv(s) && Step(s, Answers(m), t)
    ensures Inv(t)
  {
    AnswerHub(s, m, t);
    hide GoodCall, GoodWire, Accounted, Answered, AnswerMessage;
    var w := Response(s.hub[0], m);
    AnsweredAppend(s.wire, w);
    assert s.hub == [s.hub[0]] + s.hub[1..];
    Assoc(Answered(s.wire), [s.hub[0]], s.hub[1..]);
    forall c | c in t.view.calls ensures GoodCall(t, c) {
      AnsweredCall(s, m, t, c);
    }
    forall x | x in t.wire ensures GoodWire(t, x) {
      assert x == w || x in s.wire;
      AnsweredWire(s, m, t, x);
    }
  }

  lemma NotifyInv(s: System, m: Message, t: System)
    requires Inv(s) && Step(s, Notifies(m), t)
    ensures Inv(t)
  {
    AnsweredAppend(s.wire, Notification(m));
    forall c <- t.view.calls ensures GoodCall(t, c) { SameCall(s, t, c); }
    forall x <- t.wire ensures GoodWire(t, x) {
      if x != Notification(m) { SameWire(s, t, x); }
    }
  }

  lemma RequestInv(s: System, t: System)
    requires Inv(s) && Step(s, Requests, t)
    ensures Inv(t)
  {
    hide GoodCall, GoodWire, Accounted, Answered;
    RequestAccounted(s);
    assert (Answered(s.wire) + s.hub) + [s.next] == Answered(s.wire) + (s.hub + [s.next]);
    assert s.next !in s.hub && s.next !in s.answers;
    forall c <- t.view.calls ensures GoodCall(t, c) {
      if c in s.view.calls { SameCall(s, t, c); } else { NotOpenGood(t, c); }
    }
    forall x <- t.wire ensures GoodWire(t, x) { SameWire(s, t, x); }
  }

  lemma NotOpenGood(t: System, c: Call)
    requires !t.view.alive && c.outcome in {Rejected(CLOSED), Rejected(NOT_OPEN)}
    ensures GoodCall(t, c)
  {
  }

  lemma RequestAccounted(s: System)
    ensures Accounted(Request(s.view, s.next)) == Accounted(s.view) + multiset{s.next}
    ensures Numbers(s.next + 1) == Numbers(s.next) + multiset{s.next}
  {
    hide CallIds;
    CallIdsAppend(s.view.calls, Call(s.next, Rejected(NOT_OPEN)));
  }

  lemma CloseInv(s: System, e: Event, t: System)
    requires Inv(s) && Step(s, e, t) && (e.Closes? || e.SocketCloses?)
    ensures Inv(t)
  {
    hide GoodWire, Answered, CallIds, Numbers;
    CallIdsRejectAll(s.view.calls, s.view.queue);
    forall c <- t.view.calls ensures GoodCall(t, c) {
      if c in s.view.calls { assert GoodCall(s, c); }
    }
    forall x <- t.wire ensures GoodWire(t, x) { SameWire(s, t, x); }
  }

  lemma StepInv(s: System, e: Event, t: System)
    requires Inv(s) && Step(s, e, t)
    ensures Inv(t)
  {
    hide Inv;
    match e
    case Requests => RequestInv(s, t);
    case Answers(m) => AnswerInv(s, m, t);
    case Notifies(m) => NotifyInv(s, m, t);
    case Delivers(k) => DeliverInv(s, k, t);
    case Closes => CloseInv(s, e, t);
    case SocketCloses => CloseInv(s, e, t);
  }

  // ----------------------------------------------------------------------- runs

  datatype Run = Run(states: seq<System>, events: seq<Event>)

  ghost predicate IsRun(r: Run)
  {
    && |r.states| == |r.events| + 1
    && Init(r.states[0])
    && forall i :: 0 <= i < |r.events| ==> Step(r.states[i], r.events[i], r.states[i + 1])
  }

  lemma {:induction false} RunInv(r: Run, i: nat)
    requires IsRun(r) && i < |r.states|
    ensures Inv(r.states[i])
  {
    hide Inv, Step;
    if i == 0 {
      InitInv(r.states[0]);
    } else {
      RunInv(r, i - 1);
      StepInv(r.states[i - 1], r.events[i - 1], r.states[i]);
    }
  }

  lemma InitInv(s: System)
    requires Init(s)
    ensures Inv(s)
  {
  }

  /** While the session is open its queue is exactly the sent but unanswered
      requests, oldest first. */
  lemma QueueIsOutstanding(r: Run, i: nat)
    requires IsRun(r) && i < |r.states| && r.states[i].view.alive && !r.states[i].view.closing
    ensures r.states[i].view.queue == Answered(r.states[i].wire) + r.states[i].hub
  {
    RunInv(r, i);
  }

  /** Every callback that has run was told the hub's answer to its own request,
      or that the session is closed; and no callback runs twice. */
  lemma AnswersReachTheirRequests(r: Run, i: nat)
    requires IsRun(r) && i < |r.states|
    ensures var s := r.states[i];
            && (forall c <- s.view.calls ::
                  || (c.id in s.answers && Handleable(s.answers[c.id])
                      && c.outcome == Told(s.view.code, c.id, s.answers[c.id]))
                  || (!s.view.alive && c.outcome in {Rejected(CLOSED), Rejected(NOT_OPEN)}))
            && forall id :: CallIds(s.view.calls)[id] <= 1
  {
    RunInv(r, i);
    var s := r.states[i];
    forall c <- s.view.calls ensures GoodCall(s, c) {}
    forall id ensures CallIds(s.view.calls)[id] <= 1 {
      NumbersOnce(s.next, id);
      assert CallIds(s.view.calls)[id] <= Accounted(s.view)[id];
    }
  }

  /** In every run, in terms of the status of a request's answer: unless the session
      is closed, the caller's promise is resolved with the answer exactly on RES_OK
      with a parser that does not throw, and rejected exactly on the other statuses
      that have a case. */
  lemma ResolvedExactlyOnOk(r: Run, i: nat, c: Call)
    requires IsRun(r) && i < |r.states| && c in r.states[i].view.calls
    ensures var s := r.states[i];
      || (!s.view.alive
          && (c.outcome == Rejected("The session has been closed") || c.outcome == Rejected("The session is closed")))
      || (c.id in s.answers && s.answers[c.id] != [] &&
          var answer := s.answers[c.id]; var status := answer[0]; var throws := s.view.code.parserThrows(c.id, answer);
          && (c.outcome.Resolved? <==> status == 0 && !throws)
          && (c.outcome.Resolved? ==> c.outcome.response == answer)
          && (c.outcome.Unsettled? <==> status == 0 && throws)
          && (c.outcome.Rejected? <==> 2 <= status <= 7 || 9 <= status <= 12))
  {
    RunInv(r, i);
    assert GoodCall(r.states[i], c);
  }

  lemma {:induction false} NumbersOnce(n: nat, id: nat)
    ensures Numbers(n)[id] == if id < n then 1 else 0
  {
    if n > 0 {
      NumbersOnce(n - 1, id);
    }
  }

  /** Once the socket has closed, the callback of every request ever made has run
      exactly once: none is forgotten. */
  lemma ClosingTellsEveryone(r: Run, i: nat, id: nat)
    requires IsRun(r) && i < |r.states| && !r.states[i].view.alive
    ensures CallIds(r.states[i].view.calls)[id] == if id < r.states[i].next then 1 else 0
  {
    RunInv(r, i);
    NumbersOnce(r.states[i].next, id);
  }

  // ----------------------------------------------------------- who is never told

  /** Callbacks that ran without settling their request. */
  function UnsettledCalls(calls: seq<Call>): nat
  {
    if calls == [] then 0
    else UnsettledCalls(calls[..|calls| - 1]) + if calls[|calls| - 1].outcome.Unsettled? then 1 else 0
  }

  lemma {:induction false} UnsettledConcat(a: seq<Call>, b: seq<Call>)
    ensures UnsettledCalls(a + b) == UnsettledCalls(a) + UnsettledCalls(b)
  {
    if b == [] {
      assert a + b == a;
    } else {
      var n := |b| - 1;
      UnsettledConcat(a, b[..n]);
      assert (a + b)[..|a + b| - 1] == a + b[..n];
    }
  }

  lemma {:induction false} UnsettledIff(calls: seq<Call>)
    ensures UnsettledCalls(calls) > 0 <==> exists c <- calls :: c.outcome.Unsettled?
  {
    if calls != [] {
      var n := |calls| - 1;
      UnsettledIff(calls[..n]);
      assert calls == calls[..n] + [calls[n]];
    }
  }

  /** The message that stops a batch, if any, makes a response parser throw. */
  predicate ParserStops(code: Code, wire: seq<InFlight>)
  {
    wire != [] && wire[0].msg != [] &&
    if Stops(code, wire[0]) then ParserThrows(code, wire[0]) else ParserStops(code, wire[1..])
  }

  lemma {:induction false} UnsettledInBatch(code: Code, wire: seq<InFlight>)
    ensures UnsettledCalls(ToldByAll(code, wire)) == if ParserStops(code, wire) then 1 else 0
    ensures ParserStops(code, wire) ==> exists i :: 0 <= i < |wire| && wire[i].msg != [] && Stops(code, wire[i])
  {
    hide OutcomeOf;
    if wire != [] && wire[0].msg != [] {
      var w := wire[0];
      var rest := if Stops(code, w) then [] else ToldByAll(code, wire[1..]);
      UnsettledConcat(ToldBy(code, w), rest);
      UnsettledOne(code, w);
      if !Stops(code, w) {
        UnsettledInBatch(code, wire[1..]);
        if i :| 0 <= i < |wire[1..]| && wire[1..][i].msg != [] && Stops(code, wire[1..][i]) {
          assert wire[i + 1] == wire[1..][i];
        }
      }
    }
  }

  lemma UnsettledOne(code: Code, w: InFlight)
    requires w.msg != []
    ensures UnsettledCalls(ToldBy(code, w)) == if ParserThrows(code, w) then 1 else 0
    ensures ParserThrows(code, w) ==> Stops(code, w)
  {
    var calls := ToldBy(code, w);
    if calls != [] {
      assert calls[..0] == [];
    }
  }

  /** A delivery in the middle of which a response parser throws. */
  predicate Upsets(s: System, e: Event)
  {
    e.Delivers? && e.k <= |s.wire| && ParserStops(s.view.code, s.wire[..e.k])
  }

  /** Only such a delivery leaves a request unsettled, one at a time; and it is the
      session's last. */
  lemma UnsettledStep(s: System, e: Event, t: System)
    requires Inv(s) && Step(s, e, t)
    ensures t.view.code == s.view.code
    ensures UnsettledCalls(t.view.calls) == UnsettledCalls(s.view.calls) + if Upsets(s, e) then 1 else 0
    ensures Upsets(s, e) ==> s.view.alive && !s.view.closing && t.view.closing
    ensures s.view.closing || !s.view.alive ==> t.view.closing || !t.view.alive
  {
    match e
    case Requests =>
      UnsettledConcat(s.view.calls, [Call(s.next, Rejected(NOT_OPEN))]);
      RejectedIsSettled([Call(s.next, Rejected(NOT_OPEN))]);
    case Answers(_) =>
    case Notifies(_) =>
    case Delivers(k) => UnsettledDelivery(s, k, t);
    case Closes =>
    case SocketCloses =>
      UnsettledConcat(s.view.calls, RejectAll(s.view.queue));
      RejectedIsSettled(RejectAll(s.view.queue));
  }

  lemma RejectedIsSettled(calls: seq<Call>)
    requires forall c <- calls :: c.outcome.Rejected?
    ensures UnsettledCalls(calls) == 0
  {
    UnsettledIff(calls);
  }

  lemma UnsettledDelivery(s: System, k: nat, t: System)
    requires Inv(s) && Step(s, Delivers(k), t)
    ensures t.view.code == s.view.code
    ensures UnsettledCalls(t.view.calls)
         == UnsettledCalls(s.view.calls) + if ParserStops(s.view.code, s.wire[..k]) then 1 else 0
    ensures ParserStops(s.view.code, s.wire[..k]) ==> t.view.closing
  {
    hide GoodCall, GoodWire, Accounted, Answered, HandleAll, Encode, Decode, Stops, ToldByAll, ParserStops;
    var msgs := Contents(s.wire[..k]);
    DecodeWhole(msgs);
    DeliverAll(s, k, s.view);
    var wire := s.wire[..k];
    UnsettledInBatch(s.view.code, wire);
    UnsettledConcat(s.view.calls, ToldByAll(s.view.code, wire));
    if i :| 0 <= i < |wire| && wire[i].msg != [] && Stops(s.view.code, wire[i]) {
      assert s.wire[i] == wire[i];
    }
  }

  /** At most one request of a session is ever left unsettled, and only by a
      delivery in which a response parser throws. */
  lemma {:induction false} OneUnsettledAtMost(r: Run, n: nat)
    requires IsRun(r) && n <= |r.events|
    ensures var u := UnsettledCalls(r.states[n].view.calls);
      && u <= 1
      && (u == 1 ==> r.states[n].view.closing || !r.states[n].view.alive)
      && (u == 1 <==> exists i :: 0 <= i < n && Upsets(r.states[i], r.events[i]))
  {
    hide Inv, Step, Upsets;
    if n == 0 {
      NothingUnsettled(r.states[0]);
    } else {
      OneUnsettledAtMost(r, n - 1);
      RunInv(r, n - 1);
      UnsettledStep(r.states[n - 1], r.events[n - 1], r.states[n]);
    }
  }

  lemma NothingUnsettled(s: System)
    requires Init(s)
    ensures UnsettledCalls(s.view.calls) == 0
  {
  }

  /** The request has been resolved or rejected. */
  predicate Settled(v: View, id: nat) { exists c <- v.calls :: c.id == id && !c.outcome.Unsettled? }

  lemma {:induction false} CallIdsOf(calls: seq<Call>, id: nat)
    ensures id in CallIds(calls) <==> exists c <- calls :: c.id == id
  {
    if calls != [] {
      var n := |calls| - 1;
      CallIdsOf(calls[..n], id);
      assert calls == calls[..n] + [calls[n]];
    }
  }

  lemma {:induction false} TwoCallsCountTwice(calls: seq<Call>, c: Call, d: Call)
    requires c in calls && d in calls && c != d && c.id == d.id
    ensures CallIds(calls)[c.id] >= 2
  {
    var n := |calls| - 1;
    assert calls == calls[..n] + [calls[n]];
    if calls[n] == c {
      CallIdsOf(calls[..n], d.id);
    } else if calls[n] == d {
      CallIdsOf(calls[..n], c.id);
    } else {
      TwoCallsCountTwice(calls[..n], c, d);
    }
  }

  /** Once the socket has closed, every request ever made is settled if and only if
      no delivery came upon a response its parser throws on. */
  lemma SettledIff(r: Run, n: nat)
    requires IsRun(r) && n <= |r.events| && !r.states[n].view.alive
    ensures (forall id: nat :: id < r.states[n].next ==> Settled(r.states[n].view, id)) <==>
            (forall i :: 0 <= i < n ==> !Upsets(r.states[i], r.events[i]))
  {
    hide Upsets, CallIds, UnsettledCalls;
    var s := r.states[n];
    OneUnsettledAtMost(r, n);
    UnsettledIff(s.view.calls);
    if c :| c in s.view.calls && c.outcome.Unsettled? {
      CallIdsOf(s.view.calls, c.id);
      ClosingTellsEveryone(r, n, c.id);
      if d :| d in s.view.calls && d.id == c.id && !d.outcome.Unsettled? {
        TwoCallsCountTwice(s.view.calls, c, d);
      }
      assert !Settled(s.view, c.id) && c.id < s.next;
    } else {
      forall id: nat | id < s.next ensures Settled(s.view, id) {
        ClosingTellsEveryone(r, n, id);
        CallIdsOf(s.view.calls, id);
      }
    }
  }

  /** A status without a case ends the session even though the hub did answer:
      the request is rejected when the socket closes. */
  lemma UnhandledStatusCloses(v: View, m: Message)
    requires m != [] && m[0] in {1, 8} && |m| < TWO32 && v.queue != []
    ensures HandleBatch(v, Encode([m])) == v.(closing := true)
    ensures var calls := SocketClosed(HandleBatch(v, Encode([m]))).calls;
            calls[|v.calls|] == Call(v.queue[0], Rejected(CLOSED))
  {
    DecodeWhole([m]);
    assert HandleAll(v, [m]) == Handled(v, true);
  }
}
