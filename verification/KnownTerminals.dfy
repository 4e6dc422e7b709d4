/** The known-terminals list on the wire: yogi-core encodes it into a caller's
    buffer, and yogi-cpp grows the buffer until the list fits and decodes it. */
module KnownTerminals {
  import opened Bytes
  import opened Seqs

  /** What a node knows of a terminal; the signature is a size_t. */
  datatype Identifier = Identifier(signature: nat, name: seq<byte>)

  /** What travels: the type number, 32 bits of signature, the name. */
  datatype Info = Info(type_: byte, signature: nat, name: seq<byte>)

  predicate NulFree(name: seq<byte>) { 0 !in name }

  predicate ValidInfo(i: Info) { i.signature < TWO32 && NulFree(i.name) }

  /** The type numbers of the nine vectors, in the order they are converted. */
  const TYPES: seq<byte> := [0, 1, 2, 3, 4, 6, 8, 10, 12]

  type Vectors = v: seq<seq<Identifier>> | |v| == 9 witness [[], [], [], [], [], [], [], [], []]

  function Truncate(t: byte, ids: seq<Identifier>): (infos: seq<Info>)
    ensures |infos| == |ids|
  {
    seq(|ids|, i requires 0 <= i < |ids| => Info(t, ids[i].signature % TWO32, ids[i].name))
  }

  /** The list the first n vectors stand for. */
  function Listed(v: Vectors, n: nat): seq<Info>
    requires n <= 9
  {
    if n == 0 then [] else Listed(v, n - 1) + Truncate(TYPES[n - 1], v[n - 1])
  }

  // --------------------------------------------------------------- wire format

  function Record(i: Info): (r: seq<byte>)
    requires i.signature < TWO32
    ensures |r| == |i.name| + 6
  {
    [i.type_] + LE32(i.signature) + i.name + [0]
  }

  /** Byte by byte: the type, the signature with its least significant byte first,
      the name, a NUL. */
  lemma RecordLayout(i: Info)
    requires i.signature < TWO32
    ensures var r, n := Record(i), |i.name|;
      && |r| == n + 6 && r[0] == i.type_ && r[5..n + 5] == i.name && r[n + 5] == 0
      && r[1] as int + 0x100 * (r[2] as int) + 0x1_0000 * (r[3] as int) + 0x100_0000 * (r[4] as int) == i.signature
  {
    hide LE32;
    LE32RoundTrip(i.signature);
    var r, sig := Record(i), LE32(i.signature);
    assert r[1] == sig[0] && r[2] == sig[1] && r[3] == sig[2] && r[4] == sig[3];
  }

  /** Where a vector begins in the list. */
  function Offset(v: Vectors, k: nat): nat
    requires k <= 9
  {
    if k == 0 then 0 else Offset(v, k - 1) + |v[k - 1]|
  }

  /** Every terminal of every vector is in the list, in order, with its name, its
      signature, if that has 32 bits, and the type number of its vector. */
  lemma {:induction false} VectorInList(v: Vectors, k: nat, i: nat, n: nat)
    requires k < n <= 9 && i < |v[k]|
    ensures |Listed(v, n)| == Offset(v, n) && Offset(v, k) + i < Offset(v, n)
    ensures var info := Listed(v, n)[Offset(v, k) + i];
      && info.type_ == TYPES[k] && info.name == v[k][i].name
      && (v[k][i].signature < TWO32 ==> info.signature == v[k][i].signature)
  {
    ListLength(v, n - 1);
    if k < n - 1 {
      VectorInList(v, k, i, n - 1);
    }
  }

  lemma {:induction false} ListLength(v: Vectors, n: nat)
    requires n <= 9
    ensures |Listed(v, n)| == Offset(v, n)
  {
    if n > 0 {
      ListLength(v, n - 1);
    }
  }

  function Encode(infos: seq<Info>): seq<byte>
    requires forall i <- infos :: i.signature < TWO32
  {
    if infos == [] then [] else Encode(infos[..|infos| - 1]) + Record(infos[|infos| - 1])
  }

  lemma EncodeAppend(infos: seq<Info>, i: Info)
    requires forall x <- infos + [i] :: x.signature < TWO32
    ensures (forall x <- infos :: x.signature < TWO32) && i.signature < TWO32
    ensures Encode(infos + [i]) == Encode(infos) + Record(i)
  {
    assert i in infos + [i];
    assert (infos + [i])[..|infos|] == infos;
  }

  lemma {:induction false} EncodeConcat(a: seq<Info>, b: seq<Info>)
    requires forall x <- a + b :: x.signature < TWO32
    ensures (forall x <- a :: x.signature < TWO32) && forall x <- b :: x.signature < TWO32
    ensures Encode(a + b) == Encode(a) + Encode(b)
    decreases |b|
  {
    hide Record;
    assert forall x <- a :: x in a + b;
    assert forall x <- b :: x in a + b;
    if b == [] {
      assert a + b == a;
    } else {
      var n := |b| - 1;
      assert (a + b)[..|a| + n] == a + b[..n];
      EncodeConcat(a, b[..n]);
      Assoc(Encode(a), Encode(b[..n]), Record(b[n]));
    }
  }

  // ----------------------------------------------------------------- encoder

  /** convertFn: appends the records of one vector while they fit. */
  method ConvertVector(buffer: array<byte>, bufferSize: nat, offset: nat, count: nat, t: byte, ids: seq<Identifier>)
    returns (ok: bool, offset': nat, count': nat)
    requires offset <= bufferSize <= buffer.Length
    modifies buffer
    ensures buffer[..offset] == old(buffer[..offset]) && buffer[bufferSize..] == old(buffer[bufferSize..])
    ensures var e := Encode(Truncate(t, ids));
            && (ok <==> offset + |e| <= bufferSize)
            && (ok ==> offset' == offset + |e| && count' == count + |ids| && buffer[offset..offset'] == e)
  {
    hide Encode, Record;
    offset', count', ok := offset, count, true;
    ghost var infos := Truncate(t, ids);
    EmptyEncoding();
    assert infos[..0] == [];
    for i := 0 to |ids|
      invariant offset' == offset + |Encode(infos[..i])| <= bufferSize && count' == count + i
      invariant buffer[..offset] == old(buffer[..offset]) && buffer[bufferSize..] == old(buffer[bufferSize..])
      invariant buffer[offset..offset'] == Encode(infos[..i])
    {
      assert infos[..i + 1] == infos[..i] + [infos[i]];
      EncodeAppend(infos[..i], infos[i]);
      var tmp := [t] + LE32(ids[i].signature % TWO32) + ids[i].name + [0];
      RecordOf(infos[i]);
      if |tmp| > bufferSize - offset' {
        EncodePrefix(infos, i + 1);
        ok := false;
        return;
      }
      CopyInto(buffer, offset', tmp);
      assert buffer[offset..offset' + |tmp|] == buffer[offset..offset'] + buffer[offset'..offset' + |tmp|];
      offset', count' := offset' + |tmp|, count' + 1;
    }
    assert infos[..|ids|] == infos;
  }

  lemma RecordOf(i: Info)
    requires i.signature < TWO32
    ensures Record(i) == [i.type_] + LE32(i.signature) + i.name + [0]
  {
  }

  lemma EmptyEncoding()
    ensures Encode([]) == []
  {
  }

  lemma EncodePrefix(infos: seq<Info>, n: nat)
    requires n <= |infos| && forall x <- infos :: x.signature < TWO32
    ensures |Encode(infos[..n])| <= |Encode(infos)|
  {
    hide Encode;
    assert infos == infos[..n] + infos[n..];
    EncodeConcat(infos[..n], infos[n..]);
  }

  method CopyInto(buffer: array<byte>, at: nat, data: seq<byte>)
    requires at + |data| <= buffer.Length
    modifies buffer
    ensures buffer[at..at + |data|] == data
    ensures buffer[..at] == old(buffer[..at]) && buffer[at + |data|..] == old(buffer[at + |data|..])
  {
    for i := 0 to |data|
      invariant buffer[at..at + i] == data[..i]
      invariant buffer[..at] == old(buffer[..at]) && buffer[at + |data|..] == old(buffer[at + |data|..])
    {
      buffer[at + i] := data[i];
    }
  }

  lemma {:induction false} ListedSmall(v: Vectors, n: nat)
    requires n <= 9
    ensures forall i <- Listed(v, n) :: i.signature < TWO32
  {
    if n > 0 {
      ListedSmall(v, n - 1);
    }
  }

  function EncodedList(v: Vectors): seq<byte>
  {
    ListedSmall(v, 9);
    Encode(Listed(v, 9))
  }

  datatype Result = Ok | BufferTooSmall

  /** YOGI_GetKnownTerminals: fails exactly when the list does not fit, never
      writes behind bufferSize, and otherwise leaves the encoded list. */
  method EncodeKnownTerminals(v: Vectors, buffer: array<byte>, bufferSize: nat) returns (res: Result, numTerminals: nat)
    requires bufferSize <= buffer.Length
    modifies buffer
    ensures buffer[bufferSize..] == old(buffer[bufferSize..])
    ensures res == Ok <==> |EncodedList(v)| <= bufferSize
    ensures res == Ok ==> numTerminals == |Listed(v, 9)| && EncodedList(v) <= buffer[..]
  {
    hide Encode, Truncate, Listed;
    EmptyEncoding();
    ListedNone(v);
    var offset := 0;
    numTerminals := 0;
    ListedSmall(v, 0);
    for k := 0 to 9
      invariant forall i <- Listed(v, k) :: i.signature < TWO32
      invariant offset == |Encode(Listed(v, k))| <= bufferSize && numTerminals == |Listed(v, k)|
      invariant buffer[bufferSize..] == old(buffer[bufferSize..])
      invariant buffer[..offset] == Encode(Listed(v, k))
    {
      ListedSmall(v, k + 1);
      ListedNext(v, k);
      EncodeConcat(Listed(v, k), Truncate(TYPES[k], v[k]));
      var ok, o, c := ConvertVector(buffer, bufferSize, offset, numTerminals, TYPES[k], v[k]);
      if !ok {
        ListedPrefix(v, k + 1);
        return BufferTooSmall, c;
      }
      assert buffer[..o] == buffer[..offset] + buffer[offset..o];
      offset, numTerminals := o, c;
    }
    res := Ok;
  }

  lemma ListedNone(v: Vectors)
    ensures Listed(v, 0) == []
  {
  }

  lemma ListedNext(v: Vectors, k: nat)
    requires k < 9
    ensures Listed(v, k + 1) == Listed(v, k) + Truncate(TYPES[k], v[k])
  {
  }

  lemma {:induction false} ListedPrefix(v: Vectors, n: nat)
    requires n <= 9
    ensures (forall i <- Listed(v, n) :: i.signature < TWO32) && |Encode(Listed(v, n))| <= |EncodedList(v)|
    decreases 9 - n
  {
    hide Encode, Truncate, Listed;
    ListedSmall(v, n);
    if n < 9 {
      ListedSmall(v, n + 1);
      ListedNext(v, n);
      EncodeConcat(Listed(v, n), Truncate(TYPES[n], v[n]));
      ListedPrefix(v, n + 1);
    }
  }

  // ---------------------------------------------------------------- decoders

  /** Length of the string that ends at the first NUL at or behind `from`. */
  function NameLength(data: seq<byte>, from: nat): (n: nat)
    requires from <= |data|
    ensures from + n <= |data|
    decreases |data| - from
  {
    if from == |data| || data[from] == 0 then 0 else 1 + NameLength(data, from + 1)
  }

  /** A record can be read at this position: it has all its parts. */
  predicate HasRecord(data: seq<byte>, from: nat)
  {
    from + 5 <= |data| && from + 5 + NameLength(data, from + 5) < |data|
  }

  function InfoAt(data: seq<byte>, from: nat): Info
    requires HasRecord(data, from)
  {
    var n := NameLength(data, from + 5);
    Info(data[from], FromLE32(data[from + 1..from + 5]), data[from + 5..from + 5 + n])
  }

  lemma {:induction false} NameLengthOf(data: seq<byte>, from: nat, n: nat)
    requires from + n < |data| && 0 !in data[from..from + n] && data[from + n] == 0
    ensures NameLength(data, from) == n
    decreases n
  {
    if n > 0 {
      assert data[from..from + n][0] == data[from];
      assert data[from + 1..from + n] == data[from..from + n][1..];
      NameLengthOf(data, from + 1, n - 1);
    }
  }

  lemma Layout(before: seq<byte>, t: byte, sig: seq<byte>, name: seq<byte>, after: seq<byte>)
    requires |sig| == 4
    ensures var data, b, n := before + ([t] + sig + name + [0]) + after, |before|, |name|;
            && |data| == b + 6 + n + |after|
            && data[b] == t && data[b + 1..b + 5] == sig
            && data[b + 5..b + 5 + n] == name && data[b + 5 + n] == 0
  {
    var r := [t] + sig + name + [0];
    var data, b, n := before + r + after, |before|, |name|;
    assert forall i :: 0 <= i < n + 6 ==> data[b + i] == r[i];
    assert r[1..5] == sig && r[5..5 + n] == name;
    assert data[b + 1..b + 5] == r[1..5];
    assert data[b + 5..b + 5 + n] == r[5..5 + n];
  }

  /** A record is read back, whatever surrounds it. */
  lemma RecordReads(i: Info, before: seq<byte>, after: seq<byte>)
    requires ValidInfo(i)
    ensures var data := before + Record(i) + after;
            HasRecord(data, |before|) && InfoAt(data, |before|) == i
            && NameLength(data, |before| + 5) == |i.name|
  {
    hide LE32, HasRecord, InfoAt, NameLength, Record;
    RecordOf(i);
    Layout(before, i.type_, LE32(i.signature), i.name, after);
    TakeInfo(before + Record(i) + after, |before|, i);
  }

  lemma TakeInfo(data: seq<byte>, b: nat, i: Info)
    requires ValidInfo(i) && b + 6 + |i.name| <= |data|
    requires data[b] == i.type_ && data[b + 1..b + 5] == LE32(i.signature)
    requires data[b + 5..b + 5 + |i.name|] == i.name && data[b + 5 + |i.name|] == 0
    ensures HasRecord(data, b) && InfoAt(data, b) == i && NameLength(data, b + 5) == |i.name|
  {
    hide LE32, FromLE32, NameLength;
    LE32RoundTrip(i.signature);
    NameLengthOf(data, b + 5, |i.name|);
  }

  predicate ValidInfos(infos: seq<Info>) { forall i <- infos :: ValidInfo(i) }

  /** The k-th record of an encoded list, behind k encoded predecessors. */
  lemma RecordInList(before: seq<byte>, infos: seq<Info>, after: seq<byte>, k: nat)
    requires ValidInfos(infos) && k < |infos|
    ensures var data := before + Encode(infos) + after;
            var at := |before| + |Encode(infos[..k])|;
            && HasRecord(data, at) && InfoAt(data, at) == infos[k]
            && at + 6 + NameLength(data, at + 5) == |before| + |Encode(infos[..k + 1])|
            && |Encode(infos[..k + 1])| <= |Encode(infos)|
  {
    hide Encode, Record, HasRecord, InfoAt, NameLength;
    var head, tail := infos[..k], infos[k + 1..];
    assert infos[..k + 1] == head + [infos[k]];
    assert infos == infos[..k + 1] + tail;
    EncodeConcat(infos[..k + 1], tail);
    EncodeAppend(head, infos[k]);
    RecordReads(infos[k], before + Encode(head), Encode(tail) + after);
    Assoc5(before, Encode(head), Record(infos[k]), Encode(tail), after);
  }

  /** extract_terminal_info. The C string constructor scans for the NUL. */
  method ExtractTerminalInfo(buffer: seq<byte>, it: nat) returns (info: Info, it': nat)
    requires HasRecord(buffer, it)
    ensures info == InfoAt(buffer, it) && it' == it + 6 + NameLength(buffer, it + 5)
  {
    var n := 0;
    while buffer[it + 5 + n] != 0
      invariant it + 5 + n < |buffer| && NameLength(buffer, it + 5) == n + NameLength(buffer, it + 5 + n)
      decreases |buffer| - n
    {
      n := n + 1;
    }
    info := Info(buffer[it], FromLE32(buffer[it + 1..it + 5]), buffer[it + 5..it + 5 + n]);
    it' := it + 5 + n + 1;
  }

  method DecodeCount(buffer: seq<byte>, count: nat, ghost infos: seq<Info>) returns (terminals: seq<Info>)
    requires ValidInfos(infos) && count == |infos| && Encode(infos) <= buffer
    ensures terminals == infos
  {
    hide Encode, HasRecord, InfoAt, NameLength;
    ghost var after := buffer[|Encode(infos)|..];
    assert buffer == [] + Encode(infos) + after;
    terminals := [];
    var it := 0;
    EmptyEncoding();
    assert infos[..0] == [];
    for i := 0 to count
      invariant it == |Encode(infos[..i])| && terminals == infos[..i]
    {
      RecordInList([], infos, after, i);
      var info;
      info, it := ExtractTerminalInfo(buffer, it);
      terminals := terminals + [info];
    }
  }

  datatype Known = Terminals(infos: seq<Info>) | OutOfMemory

  /** The buffer size handed to the encoder: cast to 32 bits. */
  function Usable(size: nat): nat { size % TWO32 }

  function Doubled(k: nat): nat { if k == 0 then 1024 else 2 * Doubled(k - 1) }

  /** Node::get_known_terminals with `memory` bytes to grow into: it starts with
      1024 bytes and doubles them until the list fits. */
  method GetKnownTerminals(v: Vectors, memory: nat) returns (known: Known)
    requires ValidInfos(Listed(v, 9))
    ensures known.Terminals? ==> known.infos == Listed(v, 9)
    ensures known.Terminals? <==> exists k: nat :: Doubled(k) <= memory && |EncodedList(v)| <= Usable(Doubled(k))
  {
    ghost var k := 0;
    var size := 1024;
    if memory < size {
      forall j: nat ensures Doubled(j) > memory { DoubledGrows(0, j); }
      return OutOfMemory;
    }
    var buffer: array<byte> := new byte[1024](i => 0);
    while true
      invariant buffer.Length == size == Doubled(k) <= memory && fresh(buffer)
      invariant forall j :: 0 <= j < k ==> Usable(Doubled(j)) < |EncodedList(v)|
      decreases memory - size
    {
      var res, count := EncodeKnownTerminals(v, buffer, Usable(size));
      if res == Ok {
        var infos := DecodeCount(buffer[..], count, Listed(v, 9));
        return Terminals(infos);
      }
      assert Doubled(k + 1) == 2 * size;
      if 2 * size > memory {
        forall j: nat | Doubled(j) <= memory ensures Usable(Doubled(j)) < |EncodedList(v)| {
          if j > k { DoubledGrows(k + 1, j); }
        }
        return OutOfMemory;
      }
      var bigger := new byte[2 * size](i requires 0 <= i < 2 * size && size == buffer.Length reads buffer =>
                                         if i < size then buffer[i] else 0);
      buffer, size, k := bigger, 2 * size, k + 1;
    }
  }

  lemma {:induction false} DoubledGrows(j: nat, k: nat)
    requires j <= k
    ensures Doubled(j) <= Doubled(k) && Doubled(k) > 0
  {
    if j < k { DoubledGrows(j, k - 1); } else if j > 0 { DoubledGrows(j - 1, j - 1); }
  }

  /** The cast to 32 bits makes the sizes from 2^32 on useless: with enough
      memory the loop succeeds exactly for lists of at most 2^31 bytes, within
      22 rounds; a longer list never fits. */
  lemma FitsIfAtMost2GiB(size: nat)
    ensures size <= 0x8000_0000 <==> exists k: nat :: size <= Usable(Doubled(k))
    ensures size <= 0x8000_0000 ==> size <= Usable(Doubled(21)) && Doubled(21) == 0x8000_0000
  {
    DoubledAt21();
    forall k: nat ensures Usable(Doubled(k)) <= 0x8000_0000 {
      if k <= 21 {
        DoubledGrows(k, 21);
      } else {
        DoubledMultiple(k);
      }
    }
    assert Usable(Doubled(21)) == 0x8000_0000;
  }

  lemma DoubledAt21()
    ensures Doubled(21) == 0x8000_0000
  {
    assert Doubled(7) == 131072;
    assert Doubled(14) == 16777216;
  }

  lemma {:induction false} DoubledMultiple(k: nat)
    requires k >= 22
    ensures Doubled(k) % TWO32 == 0
  {
    if k == 22 {
      DoubledAt21();
    } else {
      DoubledMultiple(k - 1);
      TwiceMultiple(Doubled(k - 1));
    }
  }

  lemma TwiceMultiple(n: nat)
    requires n % TWO32 == 0
    ensures 2 * n % TWO32 == 0
  {
  }

  // -------------------------------------------------------------- single change

  /** YOGI_AsyncAwaitKnownTerminalsChange and its decoder in yogi-cpp share a
      buffer of 1024 bytes. */
  datatype Change = Change(added: bool, info: Info)

  method EncodeChange(buffer: array<byte>, added: bool, t: byte, id: Identifier) returns (res: Result)
    modifies buffer
    ensures res == Ok <==> |id.name| + 7 <= buffer.Length
    ensures res == Ok ==> [if added then 1 else 0] + Record(Info(t, id.signature % TWO32, id.name)) <= buffer[..]
  {
    if buffer.Length < |id.name| + 7 {
      return BufferTooSmall;
    }
    buffer[0] := if added then 1 else 0;
    buffer[1] := t;
    var sig := LE32(id.signature % TWO32);
    CopyInto(buffer, 2, sig);
    ghost var front := buffer[..6];
    assert front[2..6] == buffer[2..6] == sig && front[1] == t;
    CopyInto(buffer, 6, id.name);
    buffer[|id.name| + 6] := 0;
    ghost var all := buffer[..];
    assert all[..6] == front && all[6..6 + |id.name|] == id.name;
    assert all[2..6] == all[..6][2..6] && all[1] == all[..6][1] && all[0] == all[..6][0];
    Assemble(all, t, sig, id.name);
    res := Ok;
  }

  lemma Assemble(all: seq<byte>, t: byte, sig: seq<byte>, name: seq<byte>)
    requires |sig| == 4 && |all| >= 7 + |name| && all[1] == t && all[2..6] == sig
    requires all[6..6 + |name|] == name && all[6 + |name|] == 0
    ensures [all[0]] + ([t] + sig + name + [0]) <= all
  {
    var n, r := |name|, [t] + sig + name + [0];
    assert forall i :: 0 <= i < 4 ==> sig[i] == all[i + 2];
    assert forall i :: 0 <= i < n ==> name[i] == all[i + 6];
    assert forall i :: 0 <= i < n + 6 ==> r[i] == all[i + 1];
  }

  function DecodeChange(buffer: seq<byte>): Change
    requires HasRecord(buffer, 1)
  {
    Change(buffer[0] != 0, InfoAt(buffer, 1))
  }

  lemma ChangeReads(added: bool, i: Info, junk: seq<byte>)
    requires ValidInfo(i)
    ensures var data := [if added then 1 else 0] + Record(i) + junk;
            HasRecord(data, 1) && DecodeChange(data) == Change(added, i)
  {
    RecordReads(i, [if added then 1 else 0], junk);
  }
}
