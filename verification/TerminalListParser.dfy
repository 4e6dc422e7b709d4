/** yogi-javascript's decoder of the known-terminals list. It trusts the hub: when
    a record's name has no NUL, the search for it gives -1 and the loop goes on at
    the very first byte. */
module TerminalListParser {
  import opened Bytes
  import opened KnownTerminals
  import S = Signatures

  /** A signature read from behind the end of the response is undefined. */
  datatype Signature = Bits(n: nat) | Undefined

  datatype Terminal = Terminal(type_: byte, signature: Signature, name: seq<byte>)

  datatype Class = ClassIs(c: S.Terminal) | NoClass

  /** Terminal._terminalTypeToTerminalClass. */
  function ClassOf(t: byte): Class
  {
    match t
    case 0 => ClassIs(S.DeafMute)
    case 1 => ClassIs(S.PublishSubscribe)
    case 2 => ClassIs(S.ScatterGather)
    case 3 => ClassIs(S.CachedPublishSubscribe)
    case 4 => ClassIs(S.Producer)
    case 5 => ClassIs(S.Consumer)
    case 6 => ClassIs(S.CachedProducer)
    case 7 => ClassIs(S.CachedConsumer)
    case 8 => ClassIs(S.MasterTerminal)
    case 9 => ClassIs(S.SlaveTerminal)
    case 10 => ClassIs(S.CachedMaster)
    case 11 => ClassIs(S.CachedSlave)
    case 12 => ClassIs(S.Service)
    case 13 => ClassIs(S.Client)
    case _ => NoClass
  }

  /** The types a terminal class exists for; all others throw. */
  predicate KnownType(t: byte) { ClassOf(t) != NoClass }

  /** There are fourteen, and no two are alike. */
  lemma FourteenClasses(t: byte, u: byte)
    ensures KnownType(t) <==> t <= 13
    ensures KnownType(t) && ClassOf(t) == ClassOf(u) ==> t == u
  {
  }

  /** TypedArray.indexOf(0, from). */
  function IndexOfZero(data: seq<byte>, from: nat): (k: int)
    ensures k == -1 || (from <= k < |data| && data[k] == 0)
    decreases |data| - from
  {
    if from >= |data| then -1 else if data[from] == 0 then from else IndexOfZero(data, from + 1)
  }

  /** TypedArray.subarray(from, end), where -1 stands for the last byte. */
  function Subarray(data: seq<byte>, from: nat, end: int): seq<byte>
    requires data != [] && -1 <= end < |data|
  {
    var to := if end == -1 then |data| - 1 else end;
    if from <= to then data[from..to] else []
  }

  /** What the loop does at an offset inside the response: go on somewhere with one
      more terminal, or throw, because the bytes of a signature do not make up a
      32-bit number or because the type is unknown. */
  datatype Outcome = Next(offset: nat, t: Terminal) | Throws

  function ReadAt(data: seq<byte>, offset: nat): Outcome
    requires offset < |data|
  {
    var sig := Slice(data, offset + 1, offset + 5);
    if |sig| % 4 != 0 || !KnownType(data[offset]) then Throws
    else
      var nameEnd := IndexOfZero(data, offset + 5);
      Next(nameEnd + 1,
           Terminal(data[offset], if sig == [] then Undefined else Bits(FromLE32(sig)),
                    Subarray(data, offset + 5, nameEnd)))
  }

  /** The loop after some rounds. */
  datatype Parse = Running(offset: nat, terminals: seq<Terminal>) | Done(terminals: seq<Terminal>) | Thrown

  function Round(data: seq<byte>, p: Parse): Parse
  {
    if !p.Running? then p
    else if p.offset >= |data| then Done(p.terminals)
    else
      match ReadAt(data, p.offset)
      case Next(offset, t) => Running(offset, p.terminals + [t])
      case Throws => Thrown
  }

  function Rounds(data: seq<byte>, p: Parse, n: nat): Parse
    decreases n
  {
    if n == 0 then p else Rounds(data, Round(data, p), n - 1)
  }

  /** _parseKnownTerminalsResponse, as far as it gets in so many rounds. */
  method ParseKnownTerminals(data: seq<byte>, start: nat, rounds: nat) returns (p: Parse)
    ensures p == Rounds(data, Running(start, []), rounds)
  {
    hide ReadAt;
    var offset: nat, terminals, left := start, [], rounds;
    while left > 0
      invariant Rounds(data, Running(offset, terminals), left) == Rounds(data, Running(start, []), rounds)
    {
      if offset >= |data| {
        Finished(data, Done(terminals), left - 1);
        return Done(terminals);
      }
      var r := ReadRecord(data, offset);
      if r.Throws? {
        Finished(data, Thrown, left - 1);
        return Thrown;
      }
      offset, terminals, left := r.offset, terminals + [r.t], left - 1;
    }
    p := Running(offset, terminals);
  }

  /** The body of the loop. */
  method ReadRecord(data: seq<byte>, offset: nat) returns (r: Outcome)
    requires offset < |data|
    ensures r == ReadAt(data, offset)
  {
    var typeNumber := data[offset];
    var sig := Slice(data, offset + 1, offset + 5);
    if |sig| % 4 != 0 {
      return Throws;
    }
    var nameEnd := offset + 5;
    while nameEnd < |data| && data[nameEnd] != 0
      invariant IndexOfZero(data, nameEnd) == IndexOfZero(data, offset + 5)
      decreases |data| - nameEnd
    {
      nameEnd := nameEnd + 1;
    }
    var found := if nameEnd < |data| then nameEnd else -1;
    var name := Subarray(data, offset + 5, found);
    if !KnownType(typeNumber) {
      return Throws;
    }
    r := Next(found + 1, Terminal(typeNumber, if sig == [] then Undefined else Bits(FromLE32(sig)), name));
  }

  lemma {:induction false} Finished(data: seq<byte>, p: Parse, n: nat)
    requires !p.Running?
    ensures Rounds(data, p, n) == p
  {
    if n > 0 {
      Finished(data, p, n - 1);
    }
  }

  lemma {:induction false} MoreRounds(data: seq<byte>, p: Parse, m: nat, n: nat)
    ensures Rounds(data, p, m + n) == Rounds(data, Rounds(data, p, m), n)
    decreases m
  {
    if m > 0 {
      MoreRounds(data, Round(data, p), m - 1, n);
    }
  }

  // ------------------------------------------------------------- when the loop ends

  /** The loop ends, with a list or by throwing. */
  ghost predicate Ends(data: seq<byte>, start: nat)
  {
    exists n: nat :: !Rounds(data, Running(start, []), n).Running?
  }

  /** Reading record by record from this offset comes to one whose name has no NUL
      before anything throws: a single scan of the bytes tells. */
  predicate RunsOff(data: seq<byte>, offset: nat)
    decreases |data| - offset
  {
    && offset < |data|
    && ReadAt(data, offset).Next?
    && (IndexOfZero(data, offset + 5) == -1 || RunsOff(data, IndexOfZero(data, offset + 5) + 1))
  }

  lemma {:induction false} Finishes(data: seq<byte>, offset: nat, ts: seq<Terminal>) returns (n: nat)
    requires !RunsOff(data, offset)
    ensures !Rounds(data, Running(offset, ts), n).Running?
    decreases |data| - offset
  {
    var p := Round(data, Running(offset, ts));
    if p.Running? {
      n := Finishes(data, p.offset, p.terminals);
      n := n + 1;
    } else {
      n := 1;
      assert Rounds(data, Running(offset, ts), 1) == Rounds(data, p, 0);
    }
  }

  lemma {:induction false} Wraps(data: seq<byte>, offset: nat, ts: seq<Terminal>)
    returns (n: nat, more: seq<Terminal>)
    requires RunsOff(data, offset)
    ensures Rounds(data, Running(offset, ts), n) == Running(0, more)
    decreases |data| - offset
  {
    var p := Round(data, Running(offset, ts));
    if IndexOfZero(data, offset + 5) == -1 {
      n, more := 1, p.terminals;
      assert Rounds(data, Running(offset, ts), 1) == Rounds(data, p, 0);
    } else {
      n, more := Wraps(data, p.offset, p.terminals);
      n := n + 1;
    }
  }

  /** Whoever runs off from the first byte comes back to it. */
  lemma {:induction false} Hangs(data: seq<byte>, offset: nat, ts: seq<Terminal>, n: nat)
    requires RunsOff(data, offset) && RunsOff(data, 0)
    ensures Rounds(data, Running(offset, ts), n).Running?
    decreases n
  {
    if n > 0 {
      var p := Round(data, Running(offset, ts));
      Hangs(data, p.offset, p.terminals, n - 1);
    }
  }

  /** For every response: the loop ends unless it runs off both from where it
      starts and from the first byte. */
  lemma EndsIff(data: seq<byte>, start: nat)
    ensures Ends(data, start) <==> !(RunsOff(data, start) && RunsOff(data, 0))
  {
    hide RunsOff;
    if RunsOff(data, start) && RunsOff(data, 0) {
      forall n: nat ensures Rounds(data, Running(start, []), n).Running? {
        Hangs(data, start, [], n);
      }
    } else if RunsOff(data, start) {
      var m, more := Wraps(data, start, []);
      var n := Finishes(data, 0, more);
      MoreRounds(data, Running(start, []), m, n);
    } else {
      var n := Finishes(data, start, []);
    }
  }

  /** A response of one record whose name is not ended: the loop starts over at
      the status byte, which reads like a type, and never comes to an end. */
  lemma UnendedNameHangs()
    ensures var data: seq<byte> := [0, 1, 1, 1, 1, 1, 65]; !Ends(data, 1)
  {
    var data: seq<byte> := [0, 1, 1, 1, 1, 1, 65];
    assert IndexOfZero(data, 7) == -1;
    assert IndexOfZero(data, 6) == -1;
    assert IndexOfZero(data, 5) == -1;
    assert RunsOff(data, 1) && RunsOff(data, 0);
    EndsIff(data, 1);
  }

  // ------------------------------------------------------------- what the hub sends

  function Seen(i: Info): Terminal { Terminal(i.type_, Bits(i.signature), i.name) }

  function SeenAll(infos: seq<Info>): (ts: seq<Terminal>)
    ensures |ts| == |infos| && forall i :: 0 <= i < |infos| ==> ts[i] == Seen(infos[i])
  {
    seq(|infos|, i requires 0 <= i < |infos| => Seen(infos[i]))
  }

  predicate KnownTypes(infos: seq<Info>) { forall i <- infos :: KnownType(i.type_) }

  lemma {:induction false} ZeroIsBehindName(data: seq<byte>, from: nat)
    requires from <= |data| && from + NameLength(data, from) < |data|
    ensures IndexOfZero(data, from) == from + NameLength(data, from)
    decreases |data| - from
  {
    if data[from] != 0 {
      ZeroIsBehindName(data, from + 1);
    }
  }

  lemma RecordSeen(data: seq<byte>, offset: nat)
    requires HasRecord(data, offset) && KnownType(data[offset])
    ensures ReadAt(data, offset) == Next(offset + 6 + NameLength(data, offset + 5), Seen(InfoAt(data, offset)))
  {
    hide FromLE32, NameLength, IndexOfZero;
    ZeroIsBehindName(data, offset + 5);
  }

  lemma {:induction false} ParsesFrom(status: seq<byte>, infos: seq<Info>, k: nat, ts: seq<Terminal>)
    requires ValidInfos(infos) && KnownTypes(infos) && k <= |infos|
    ensures Rounds(status + Encode(infos), Running(|status| + |Encode(infos[..k])|, ts), |infos| - k + 1)
         == Done(ts + SeenAll(infos[k..]))
    decreases |infos| - k
  {
    hide Encode, HasRecord, InfoAt, NameLength, ReadAt;
    var data := status + Encode(infos);
    assert data == status + Encode(infos) + [];
    var p := Running(|status| + |Encode(infos[..k])|, ts);
    if k == |infos| {
      assert infos[..k] == infos;
      assert Rounds(data, p, 1) == Rounds(data, Round(data, p), 0);
      assert ts + SeenAll(infos[k..]) == ts;
    } else {
      RecordInList(status, infos, [], k);
      HasRecordInside(data, p.offset);
      assert infos[k] in infos;
      RecordSeen(data, p.offset);
      ParsesFrom(status, infos, k + 1, ts + [Seen(infos[k])]);
      assert SeenAll(infos[k..]) == [Seen(infos[k])] + SeenAll(infos[k + 1..]);
      assert ts + SeenAll(infos[k..]) == ts + [Seen(infos[k])] + SeenAll(infos[k + 1..]);
    }
  }

  lemma HasRecordInside(data: seq<byte>, offset: nat)
    requires HasRecord(data, offset)
    ensures offset < |data| && data[offset] == InfoAt(data, offset).type_
  {
  }

  lemma {:induction false} ListedTypes(v: Vectors, n: nat)
    requires n <= 9
    ensures KnownTypes(Listed(v, n))
  {
    if n > 0 {
      ListedTypes(v, n - 1);
    }
  }

  /** Both decoders agree: behind any status bytes the JavaScript loop ends with
      exactly the list the C++ encoder wrote. */
  lemma ParserReadsEncoded(status: seq<byte>, v: Vectors)
    requires ValidInfos(Listed(v, 9))
    ensures Rounds(status + EncodedList(v), Running(|status|, []), |Listed(v, 9)| + 1) == Done(SeenAll(Listed(v, 9)))
  {
    hide Encode, Listed, Rounds;
    var infos := Listed(v, 9);
    EmptyEncoding();
    ListedTypes(v, 9);
    assert infos[..0] == [] && infos[0..] == infos;
    ParsesFrom(status, infos, 0, []);
    assert [] + SeenAll(infos) == SeenAll(infos);
  }

  /** What the nine vectors of the core hold: of each pair of classes that go
      together, the one whose terminals are there to be found. */
  const VECTORS: seq<S.Terminal> := [
    S.DeafMute, S.PublishSubscribe, S.ScatterGather, S.CachedPublishSubscribe, S.Producer, S.CachedProducer,
    S.MasterTerminal, S.CachedMaster, S.Service]

  /** Every terminal the core knows arrives with its own name and signature, as one
      of the class its vector is for. */
  lemma ArrivesAsItsClass(v: Vectors, k: nat, i: nat)
    requires k < 9 && i < |v[k]| && v[k][i].signature < TWO32
    ensures |Listed(v, 9)| == Offset(v, 9) && Offset(v, k) + i < Offset(v, 9)
    ensures var t := SeenAll(Listed(v, 9))[Offset(v, k) + i];
      && t.name == v[k][i].name && t.signature == Bits(v[k][i].signature) && ClassOf(t.type_) == ClassIs(VECTORS[k])
  {
    hide Listed, Offset;
    VectorInList(v, k, i, 9);
  }

  /** What the endless loop gathers: a name without its last byte, and then whatever
      the bytes from the first one on look like. */
  lemma UnendedNameGathers()
    ensures var data: seq<byte> := [0, 1, 1, 1, 1, 1, 65];
      Rounds(data, Running(1, []), 2) ==
        Running(0, [Terminal(1, Bits(0x0101_0101), []), Terminal(0, Bits(0x0101_0101), [1])])
  {
    var data: seq<byte> := [0, 1, 1, 1, 1, 1, 65];
    assert IndexOfZero(data, 7) == -1;
    assert IndexOfZero(data, 6) == -1;
    assert IndexOfZero(data, 5) == -1;
    assert data[2..6] == [1, 1, 1, 1] && data[1..5] == [1, 1, 1, 1] && data[5..6] == [1];
    assert Slice(data, 2, 6) == [1, 1, 1, 1] && Slice(data, 1, 5) == [1, 1, 1, 1];
    assert FromLE32([1, 1, 1, 1]) == 0x0101_0101;
    assert Subarray(data, 6, -1) == [] && Subarray(data, 5, -1) == [1];
    assert ReadAt(data, 1) == Next(0, Terminal(1, Bits(0x0101_0101), []));
    assert ReadAt(data, 0) == Next(0, Terminal(0, Bits(0x0101_0101), [1]));
    hide ReadAt;
    var p := Round(data, Running(1, []));
    assert p == Running(0, [Terminal(1, Bits(0x0101_0101), [])]);
    var q := Round(data, p);
    assert q == Running(0, [Terminal(1, Bits(0x0101_0101), []), Terminal(0, Bits(0x0101_0101), [1])]);
    assert Rounds(data, p, 1) == Rounds(data, q, 0);
  }

  /** A response that ends behind a type: the signature is undefined, and the loop
      starts over, here to throw. */
  lemma EndsBehindType()
    ensures var data: seq<byte> := [0, 5];
      && Rounds(data, Running(1, []), 1) == Running(0, [Terminal(5, Undefined, [])])
      && Rounds(data, Running(1, []), 2) == Thrown
  {
    var data: seq<byte> := [0, 5];
    var p := Round(data, Running(1, []));
    assert p == Running(0, [Terminal(5, Undefined, [])]);
    assert Rounds(data, p, 1) == Rounds(data, Round(data, p), 0);
  }
}
