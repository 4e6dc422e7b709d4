/** yogi-javascript's Session: length-prefixed batches from the hub, and a FIFO
    of callbacks for the requests it has sent. Responses carry no request
    identifier; asynchronous notifications arrive in between. */
module HubSession {
  import opened Bytes
  import opened Seqs

  type Message = seq<byte>

  // ---------------------------------------------------------------- batches

  /** A batch as the hub writes it. */
  function Encode(msgs: seq<Message>): seq<byte>
    requires forall m <- msgs :: |m| < TWO32
  {
    if msgs == [] then [] else LE32(|msgs[0]|) + msgs[0] + Encode(msgs[1..])
  }

  /** `shortHeader`: the data ends inside a size field, which throws. */
  datatype Batch = Batch(msgs: seq<Message>, shortHeader: bool)

  /** The first message of a batch, as far as the data goes, and what follows. */
  function FirstOf(data: seq<byte>): Message
    requires |data| >= 4
  {
    Slice(data, 4, 4 + FromLE32(data[..4]))
  }

  function RestOf(data: seq<byte>): (rest: seq<byte>)
    requires |data| >= 4
    ensures |rest| < |data|
  {
    data[Min(4 + FromLE32(data[..4]), |data|)..]
  }

  /** The messages a batch is cut into. */
  function Decode(data: seq<byte>): Batch
    decreases |data|
  {
    if data == [] then Batch([], false)
    else if |data| < 4 then Batch([], true)
    else
      var rest := Decode(RestOf(data));
      Batch([FirstOf(data)] + rest.msgs, rest.shortHeader)
  }

  lemma FirstMessage(m: Message, tail: seq<byte>)
    requires |m| < TWO32
    ensures FirstOf(LE32(|m|) + (m + tail)) == m && RestOf(LE32(|m|) + (m + tail)) == tail
  {
    hide LE32, FromLE32;
    var data := LE32(|m|) + (m + tail);
    LE32RoundTrip(|m|);
    assert data[..4] == LE32(|m|);
    assert data[4..4 + |m|] == m;
    assert data[4 + |m|..] == tail;
  }

  lemma EncodeStep(msgs: seq<Message>, more: seq<byte>)
    requires msgs != [] && forall m <- msgs :: |m| < TWO32
    ensures Encode(msgs) + more == LE32(|msgs[0]|) + (msgs[0] + (Encode(msgs[1..]) + more))
  {
    hide LE32;
    Assoc4(LE32(|msgs[0]|), msgs[0], Encode(msgs[1..]), more);
  }

  /** Decoding a concatenation is decoding one batch and then the other. */
  lemma {:induction false} DecodeEncoded(msgs: seq<Message>, more: seq<byte>)
    requires forall m <- msgs :: |m| < TWO32
    ensures Decode(Encode(msgs) + more) == Batch(msgs + Decode(more).msgs, Decode(more).shortHeader)
  {
    hide FirstOf, RestOf, LE32, Decode, Encode;
    if msgs == [] {
      NoMessages(more);
      assert msgs + Decode(more).msgs == Decode(more).msgs;
    } else {
      DecodeEncoded(msgs[1..], more);
      EncodeStep(msgs, more);
      FirstMessage(msgs[0], Encode(msgs[1..]) + more);
      DecodeStep(Encode(msgs) + more);
      Assoc([msgs[0]], msgs[1..], Decode(more).msgs);
      assert msgs == [msgs[0]] + msgs[1..];
    }
  }

  /** Whatever arrives is a sequence of complete messages followed by nothing, by
      less than a size field, or by one message cut short. */
  lemma {:induction false} DecodeCuts(data: seq<byte>) returns (whole: seq<Message>, tail: seq<byte>)
    ensures forall m <- whole :: |m| < TWO32
    ensures data == Encode(whole) + tail
    ensures (tail == [] && Decode(data) == Batch(whole, false))
            || (0 < |tail| < 4 && Decode(data) == Batch(whole, true))
            || (|tail| >= 4 && FromLE32(tail[..4]) > |tail| - 4 && Decode(data) == Batch(whole + [tail[4..]], false))
    decreases |data|
  {
    hide Decode, Encode, FirstOf, RestOf, FromLE32;
    whole, tail := [], data;
    NoMessages(data);
    if |data| >= 4 {
      DecodeStep(data);
      if 4 + FromLE32(data[..4]) <= |data| {
        CutFirst(data);
        whole, tail := DecodeCuts(RestOf(data));
        var all := [FirstOf(data)] + whole;
        assert all[1..] == whole;
        EncodeStep(all, tail);
        whole := all;
      } else {
        CutShort(data);
        NoMessages([]);
      }
    }
  }

  lemma NoMessages(data: seq<byte>)
    ensures Encode([]) + data == data && (|data| < 4 ==> Decode(data) == Batch([], data != []))
  {
  }

  lemma DecodeStep(data: seq<byte>)
    requires |data| >= 4
    ensures Decode(data) == Batch([FirstOf(data)] + Decode(RestOf(data)).msgs, Decode(RestOf(data)).shortHeader)
  {
  }

  lemma CutFirst(data: seq<byte>)
    requires |data| >= 4 && 4 + FromLE32(data[..4]) <= |data|
    ensures var m := FirstOf(data);
            |m| == FromLE32(data[..4]) < TWO32 && data == LE32(|m|) + (m + RestOf(data))
  {
    hide FromLE32, LE32;
    FromLE32RoundTrip(data[..4]);
    assert data == data[..4] + (FirstOf(data) + RestOf(data));
  }

  lemma CutShort(data: seq<byte>)
    requires |data| >= 4 && 4 + FromLE32(data[..4]) > |data|
    ensures FirstOf(data) == data[4..] && RestOf(data) == []
  {
    hide FromLE32;
  }

  // ------------------------------------------------------------ the session

  /** What the caller of a request gets. Unsettled: its response parser threw, so
      the promise is neither resolved nor rejected. */
  datatype Outcome = Resolved(response: Message) | Rejected(reason: string) | Unsettled

  const CLOSED := "The session has been closed"
  const NOT_OPEN := "The session is closed"

  /** One invocation of a request's callback. */
  datatype Call = Call(id: nat, outcome: Outcome)

  /** The code the session calls: on which responses the parser of a request
      throws, and on which notifications their handler does. */
  datatype Code = Code(parserThrows: (nat, Message) -> bool, handlerThrows: Message -> bool)

  /** closing: close() was called on the socket, its close event is pending. */
  datatype View = Snapshot(alive: bool, closing: bool, queue: seq<nat>, calls: seq<Call>, notes: seq<Message>,
                           code: Code)

  predicate ResponseStatus(c: int) { c == 0 || 2 <= c <= 7 || 9 <= c <= 12 }

  predicate NotificationStatus(c: int) { 13 <= c <= 24 }

  /** String.fromCharCode of every byte. */
  function Text(data: seq<byte>): string { seq(|data|, i requires 0 <= i < |data| => data[i] as int as char) }

  /** What the callback of the oldest request is told. */
  function OutcomeOf(msg: Message): (o: Outcome)
    requires msg != [] && ResponseStatus(msg[0])
    ensures !o.Unsettled?
  {
    match msg[0]
    case 0 => Resolved(msg)
    case 2 => Rejected("Invalid request")
    case 3 => Rejected("API error: " + Text(msg[1..]))
    case 4 => Rejected("Already monitoring the requested resource")
    case 5 => Rejected("Invalid terminal ID")
    case 6 => Rejected("Invalid binding ID")
    case 7 => Rejected("Invalid operation ID")
    case 9 => Rejected("Invalid terminal type")
    case 10 => Rejected("Already logged in")
    case 11 => Rejected("Not logged in")
    case _ => Rejected("Hub not ready; try again later")
  }

  /** What a request's callback does with its response: RES_OK goes through the
      request's parser. */
  function Told(code: Code, id: nat, msg: Message): Outcome
    requires msg != [] && ResponseStatus(msg[0])
  {
    if msg[0] == 0 && code.parserThrows(id, msg) then Unsettled else OutcomeOf(msg)
  }

  datatype Handled = Handled(view: View, threw: bool)

  /** _handleMessage. Statuses 1 and 8 have no working case, so they throw like
      unknown ones; so do a response that nobody is waiting for, a response parser,
      which runs when its callback has left the queue, and a notification's
      handler. */
  function HandleMessage(v: View, msg: Message): Handled
  {
    if msg == [] then Handled(v, true)
    else if ResponseStatus(msg[0]) then
      if v.queue == [] then Handled(v, true)
      else
        var outcome := Told(v.code, v.queue[0], msg);
        Handled(v.(queue := v.queue[1..], calls := v.calls + [Call(v.queue[0], outcome)]), outcome.Unsettled?)
    else if NotificationStatus(msg[0]) then
      if v.code.handlerThrows(msg) then Handled(v, true) else Handled(v.(notes := v.notes + [msg]), false)
    else Handled(v, true)
  }

  /** The messages of a batch in order, up to the first that throws. */
  function HandleAll(v: View, msgs: seq<Message>): Handled
    decreases |msgs|
  {
    if msgs == [] then Handled(v, false)
    else
      var h := HandleMessage(v, msgs[0]);
      if h.threw then h else HandleAll(h.view, msgs[1..])
  }

  function HandleBatch(v: View, data: seq<byte>): View
  {
    var b := Decode(data);
    var h := HandleAll(v, b.msgs);
    if h.threw || b.shortHeader then h.view.(closing := true) else h.view
  }

  function Request(v: View, id: nat): View
  {
    if v.alive then v.(queue := v.queue + [id]) else v.(calls := v.calls + [Call(id, Rejected(NOT_OPEN))])
  }

  function RejectAll(ids: seq<nat>): (calls: seq<Call>)
    ensures |calls| == |ids| && forall i :: 0 <= i < |ids| ==> calls[i] == Call(ids[i], Rejected(CLOSED))
  {
    seq(|ids|, i requires 0 <= i < |ids| => Call(ids[i], Rejected(CLOSED)))
  }

  function SocketClosed(v: View): View
  {
    v.(alive := false, closing := false, queue := [], calls := v.calls + RejectAll(v.queue))
  }

  /** What the request that has waited longest is told. */
  ghost predicate Tells(v: View, h: Handled, outcome: Outcome)
    requires v.queue != []
  {
    h.view == v.(queue := v.queue[1..], calls := v.calls + [Call(v.queue[0], outcome)])
  }

  /** Status by status: RES_OK resolves the request that has waited longest with the
      response, unless its parser throws; the other statuses of responses reject it,
      each with its own reason. */
  lemma ResponsesByStatus(v: View, msg: Message)
    requires v.queue != [] && msg != []
    ensures var h, status := HandleMessage(v, msg), msg[0];
      && (status == 0 && !v.code.parserThrows(v.queue[0], msg) ==> Tells(v, h, Resolved(msg)) && !h.threw)
      && (status == 0 && v.code.parserThrows(v.queue[0], msg) ==> Tells(v, h, Unsettled) && h.threw)
      && (status == 2 ==> Tells(v, h, Rejected("Invalid request")) && !h.threw)
      && (status == 3 ==> Tells(v, h, Rejected("API error: " + Text(msg[1..]))) && !h.threw)
      && (status == 4 ==> Tells(v, h, Rejected("Already monitoring the requested resource")) && !h.threw)
      && (status == 5 ==> Tells(v, h, Rejected("Invalid terminal ID")) && !h.threw)
      && (status == 6 ==> Tells(v, h, Rejected("Invalid binding ID")) && !h.threw)
      && (status == 7 ==> Tells(v, h, Rejected("Invalid operation ID")) && !h.threw)
      && (status == 9 ==> Tells(v, h, Rejected("Invalid terminal type")) && !h.threw)
      && (status == 10 ==> Tells(v, h, Rejected("Already logged in")) && !h.threw)
      && (status == 11 ==> Tells(v, h, Rejected("Not logged in")) && !h.threw)
      && (status == 12 ==> Tells(v, h, Rejected("Hub not ready; try again later")) && !h.threw)
  {
  }

  /** Everything else: nobody is told anything. Notifications reach their handlers;
      1, 8, what lies beyond 24, and an empty message throw. */
  lemma OtherMessagesByStatus(v: View, msg: Message)
    ensures var h := HandleMessage(v, msg);
      && (msg == [] || msg[0] == 1 || msg[0] == 8 || msg[0] > 24 ==> h == Handled(v, true))
      && (msg != [] && 13 <= msg[0] <= 24 && v.code.handlerThrows(msg) ==> h == Handled(v, true))
      && (msg != [] && 13 <= msg[0] <= 24 && !v.code.handlerThrows(msg) ==>
            h == Handled(v.(notes := v.notes + [msg]), false))
      && (msg != [] && msg[0] <= 12 && v.queue == [] ==> h == Handled(v, true))
  {
  }

  /** One round of the batch loop. */
  lemma HandleStep(v: View, data: seq<byte>)
    requires |data| >= 4
    ensures var h := HandleMessage(v, FirstOf(data));
            HandleAll(v, Decode(data).msgs) == if h.threw then h else HandleAll(h.view, Decode(RestOf(data)).msgs)
    ensures Decode(data).shortHeader == Decode(RestOf(data)).shortHeader
  {
    hide FirstOf, RestOf, HandleMessage;
    var msgs := Decode(data).msgs;
    assert msgs[0] == FirstOf(data) && msgs[1..] == Decode(RestOf(data)).msgs;
  }

  lemma NothingLeft(v: View, data: seq<byte>)
    requires |data| < 4
    ensures Decode(data) == Batch([], data != []) && HandleAll(v, []) == Handled(v, false)
  {
  }

  /** What is left of the data at an offset that may lie behind its end. */
  function Left(data: seq<byte>, offset: nat): seq<byte>
  {
    data[Min(offset, |data|)..]
  }

  /** Slicing at an offset is slicing what is left. */
  lemma HeaderOf(data: seq<byte>, offset: nat)
    requires offset < |data|
    ensures var rest, header := Left(data, offset), Slice(data, offset, offset + 4);
            && rest != [] && |header| == Min(4, |rest|)
            && (|header| == 4 ==>
                  var size := FromLE32(header);
                  && header == rest[..4]
                  && Slice(data, offset + 4, offset + 4 + size) == FirstOf(rest)
                  && Left(data, offset + 4 + size) == RestOf(rest))
  {
    hide FromLE32;
    var rest, header := data[offset..], Slice(data, offset, offset + 4);
    if |header| == 4 {
      assert header == rest[..4];
    }
  }

  lemma LeftEnds(data: seq<byte>, offset: nat)
    ensures Left(data, 0) == data && (offset >= |data| ==> Left(data, offset) == [])
  {
  }

  class Session {
    var alive: bool
    var closing: bool
    var transactions: seq<nat>
    var calls: seq<Call>
    var notes: seq<Message>
    const code: Code

    /** The session once its socket has opened. */
    constructor (code: Code)
      ensures View() == Snapshot(true, false, [], [], [], code)
    {
      alive, closing, transactions, calls, notes := true, false, [], [], [];
      this.code := code;
    }

    function View(): View
      reads this
    {
      Snapshot(alive, closing, transactions, calls, notes, code)
    }

    method SendRequest(id: nat)
      modifies this
      ensures View() == Request(old(View()), id)
      ensures old(alive) ==> transactions == old(transactions) + [id] && calls == old(calls)
      ensures !old(alive) ==>
        transactions == old(transactions) && calls == old(calls) + [Call(id, Rejected("The session is closed"))]
    {
      if !alive {
        calls := calls + [Call(id, Rejected(NOT_OPEN))];
      } else {
        transactions := transactions + [id];
      }
    }

    method HandleOne(msg: Message) returns (threw: bool)
      modifies this
      ensures Handled(View(), threw) == HandleMessage(old(View()), msg)
      ensures msg != [] && msg[0] == 0 && old(transactions) != [] && !code.parserThrows(old(transactions)[0], msg) ==>
        calls == old(calls) + [Call(old(transactions)[0], Resolved(msg))]
      ensures calls != old(calls) && calls[|calls| - 1].outcome.Resolved? ==> msg != [] && msg[0] == 0
    {
      if msg == [] {
        return true;
      } else if ResponseStatus(msg[0]) {
        if transactions == [] {
          return true;
        }
        var callback := transactions[0];
        transactions := transactions[1..];
        if msg[0] == 0 && code.parserThrows(callback, msg) {
          calls := calls + [Call(callback, Unsettled)];
          return true;
        }
        calls := calls + [Call(callback, OutcomeOf(msg))];
      } else if NotificationStatus(msg[0]) {
        if code.handlerThrows(msg) {
          return true;
        }
        notes := notes + [msg];
      } else {
        return true;
      }
      threw := false;
    }

    /** _handleBatchMessage: the loop ends on every input. */
    method HandleBatchMessage(data: seq<byte>)
      modifies this
      ensures View() == HandleBatch(old(View()), data)
    {
      hide Decode, HandleAll, HandleMessage, FirstOf, RestOf, FromLE32, Left, Slice;
      LeftEnds(data, 0);
      ghost var before, batch := View(), Decode(data);
      ghost var rest := data;
      var offset := 0;
      while offset < |data|
        invariant rest == Left(data, offset)
        invariant HandleAll(View(), Decode(rest).msgs) == HandleAll(before, batch.msgs)
        invariant Decode(rest).shortHeader == batch.shortHeader
        decreases |data| - offset
      {
        var header := Slice(data, offset, offset + 4);
        HeaderOf(data, offset);
        if |header| != 4 {
          NothingLeft(View(), rest);
          closing := true;
          return;
        }
        var msgSize := FromLE32(header);
        var msg := Slice(data, offset + 4, offset + 4 + msgSize);
        offset := offset + 4 + msgSize;
        HandleStep(View(), rest);
        var threw := HandleOne(msg);
        rest := RestOf(rest);
        if threw {
          closing := true;
          return;
        }
      }
      LeftEnds(data, offset);
      NothingLeft(View(), rest);
    }

    /** The close event: every callback still waiting is told, in order. */
    method OnSocketClosed()
      modifies this
      ensures View() == SocketClosed(old(View()))
      ensures |calls| == |old(calls)| + |old(transactions)| && calls[..|old(calls)|] == old(calls)
      ensures forall i :: 0 <= i < |old(transactions)| ==>
        calls[|old(calls)| + i] == Call(old(transactions)[i], Rejected("The session has been closed"))
      ensures transactions == [] && !alive
    {
      alive := false;
      for i := 0 to |transactions|
        invariant transactions == old(transactions) && notes == old(notes) && !alive
        invariant calls == old(calls) + RejectAll(transactions)[..i]
      {
        calls := calls + [Call(transactions[i], Rejected(CLOSED))];
      }
      transactions, closing := [], false;
    }
  }
}
