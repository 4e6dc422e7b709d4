/** yogi-javascript's signatures: 24 bits describe two message layouts, one per
    half; ProtoFile turns them into Protocol Buffers definitions and
    MessageFactory caches the classes built from those. */
module Signatures {
  import opened Seqs

  // ----------------------------------------------------------- signature halves

  const VOID := 0
  const TRIBOOL := 2
  const INVALID := 17

  const PROTO_TYPES: seq<string> := [
    "INVALID", "bool", "Tribool", "sint32", "uint32", "sint32", "uint32", "sint32", "uint32",
    "sint64", "uint64", "float", "double", "string", "string", "bytes", "uint64", "INVALID"]

  /** A half keeps the number it was given; its getters look at 12 bits. */
  datatype Half = Half(raw: nat) {

    predicate IsList() { raw / 1024 % 2 == 1 }

    predicate HasTimestamp() { raw / 2048 % 2 == 1 }

    function First(): (t: nat) ensures t <= INVALID { PrimitiveType(raw % 32) }

    function Second(): (t: nat) ensures t <= INVALID { PrimitiveType(raw / 32 % 32) }

    predicate IsPair() { Second() != VOID }

    predicate HasData() { First() != VOID }

    predicate IsReserved()
    {
      || First() == INVALID
      || Second() == INVALID
      || (First() == VOID && Second() != VOID)
      || (IsList() && First() == VOID)
    }
  }

  function PrimitiveType(bits: nat): (t: nat)
    ensures t <= INVALID
  {
    if bits >= INVALID then INVALID else bits
  }

  predicate IsCustom(raw: nat) { raw > 0x00FF_FFFF }

  function Lower(raw: nat): Half { Half(raw) }

  function Upper(raw: nat): Half { Half(raw / 4096) }

  predicate RepresentsProtoMessage(raw: nat)
  {
    !IsCustom(raw) && !Lower(raw).IsReserved() && !Upper(raw).IsReserved()
  }

  /** The lower half is not masked: it reads the same as its low 12 bits. */
  lemma LowerReadsTwelveBits(raw: nat)
    ensures var h, m := Lower(raw), Half(raw % 4096);
            && h.IsList() == m.IsList() && h.HasTimestamp() == m.HasTimestamp()
            && h.First() == m.First() && h.Second() == m.Second() && h.IsReserved() == m.IsReserved()
  {
    var q, m := raw / 4096, raw % 4096;
    assert raw == 4096 * q + m;
    Mod32(128 * q, m);
    Quotient32(q, m);
    Mod32(4 * q, m / 32);
    Quotient1024(q, m);
    Mod2(2 * q, m / 1024);
    Quotient2048(q, m);
    Mod2(q, m / 2048);
  }

  lemma Mod32(k: nat, r: nat)
    ensures (32 * k + r) % 32 == r % 32
  {
  }

  lemma Quotient32(q: nat, m: nat)
    ensures (4096 * q + m) / 32 == 32 * (4 * q) + m / 32
  {
  }

  lemma Quotient1024(q: nat, m: nat)
    ensures (4096 * q + m) / 1024 == 2 * (2 * q) + m / 1024
  {
  }

  lemma Quotient2048(q: nat, m: nat)
    ensures (4096 * q + m) / 2048 == 2 * q + m / 2048
  {
  }

  lemma Mod2(k: nat, r: nat)
    ensures (2 * k + r) % 2 == r % 2
  {
  }

  function Bit(b: bool): nat { if b then 1 else 0 }

  /** Where the fields of a half are: five bits for each type, one that says list,
      one that says timestamp. Types from 17 on are invalid, a second type needs a
      first, and so does a list. */
  lemma FieldsOfHalf(first: nat, second: nat, list: bool, timestamp: bool)
    requires first < 32 && second < 32
    ensures var h := Half(first + 32 * second + 1024 * Bit(list) + 2048 * Bit(timestamp));
      && h.First() == (if first < 17 then first else INVALID)
      && h.Second() == (if second < 17 then second else INVALID)
      && h.IsList() == list && h.HasTimestamp() == timestamp
      && (h.IsReserved() <==> first >= 17 || second >= 17 || (first == 0 && (second != 0 || list)))
  {
    var l, t := Bit(list), Bit(timestamp);
    var raw := first + 32 * second + 1024 * l + 2048 * t;
    assert raw % 32 == first && raw / 32 == second + 32 * l + 64 * t;
    assert raw / 32 % 32 == second && raw / 1024 == l + 2 * t && raw / 2048 == t;
    assert raw / 1024 % 2 == l;
  }

  /** The upper half is in the bits above the twelve of the lower one. */
  lemma UpperIsAbove(low: nat, high: nat)
    requires low < 4096
    ensures Upper(low + 4096 * high) == Half(high)
  {
  }

  // --------------------------------------------------------------- proto files

  function TypeName(t: nat): string
    requires t <= INVALID
  {
    PROTO_TYPES[t]
  }

  /** The lines between the braces of a message definition. */
  function Body(h: Half): seq<string>
  {
    (if h.IsPair() then
       ["    message Pair {", "        " + TypeName(h.First()) + " first = 1;",
        "        " + TypeName(h.Second()) + " second = 2;", "    }", ""]
     else [])
    + (if h.HasTimestamp() then ["    uint64 timestamp = 1;"] else [])
    + (if h.IsPair() then [Prefix(h) + "Pair value = 2;"]
       else if h.First() != VOID then [Prefix(h) + TypeName(h.First()) + " value = 2" + Packed(h) + ";"]
       else [])
  }

  function Prefix(h: Half): string { if h.IsList() then "    repeated " else "    " }

  function Packed(h: Half): string
  {
    if h.IsList() && TypeName(h.First()) !in ["string", "bytes"] then " [packed=true]" else ""
  }

  predicate EndsWith(s: string, end: string) { |end| <= |s| && s[|s| - |end|..] == end }

  lemma Ending(s: string, end: string)
    ensures EndsWith(s + end, end)
  {
  }

  /** Of all types, strings, JSON and binary data have no packed form. */
  lemma Unpackable(t: nat)
    requires t <= INVALID
    ensures TypeName(t) in ["string", "bytes"] <==> t == 13 || t == 14 || t == 15
  {
    assert PROTO_TYPES[13] == "string" == PROTO_TYPES[14] && PROTO_TYPES[15] == "bytes";
    assert forall i :: 0 <= i < 13 || 16 <= i < 18 ==> |PROTO_TYPES[i]| != 6 || PROTO_TYPES[i][5] != 'g';
    assert forall i :: 0 <= i < 13 || 16 <= i < 18 ==> |PROTO_TYPES[i]| != 5 || PROTO_TYPES[i][0] != 'b';
    assert "string"[5] == 'g' && "bytes"[0] == 'b';
  }

  /** The line of the value: packed for lists of anything but strings, JSON, binary
      data and pairs. */
  method MakeValueLine(h: Half) returns (line: string)
    requires h.IsPair() || h.First() != VOID
    ensures line == if h.IsPair() then Prefix(h) + "Pair value = 2;"
                    else Prefix(h) + TypeName(h.First()) + " value = 2" + Packed(h) + ";"
    ensures EndsWith(line, if h.IsList() && !h.IsPair() && h.First() != 13 && h.First() != 14 && h.First() != 15
                           then " value = 2 [packed=true];" else " value = 2;")
  {
    hide TypeName, EndsWith;
    Unpackable(h.First());
    var prefix := if h.IsList() then "    repeated " else "    ";
    if h.IsPair() {
      line := prefix + "Pair value = 2;";
      assert line == (prefix + "Pair") + " value = 2;";
      Ending(prefix + "Pair", " value = 2;");
    } else {
      var front := prefix + TypeName(h.First());
      if h.IsList() && TypeName(h.First()) !in ["string", "bytes"] {
        line := front + " value = 2" + " [packed=true]" + ";";
        assert line == front + " value = 2 [packed=true];";
        Ending(front, " value = 2 [packed=true];");
      } else {
        line := front + " value = 2" + "" + ";";
        assert line == front + " value = 2;";
        Ending(front, " value = 2;");
      }
    }
  }

  /** ProtoFile._makeMessageDefinition: the value's line, if any, is the third from
      the end. */
  method MakeMessageDefinition(name: string, h: Half) returns (lines: seq<string>)
    ensures lines == ["message " + name + " {"] + Body(h) + ["}", ""]
    ensures !h.IsReserved() && h.First() != VOID ==>
      |lines| >= 3 &&
      EndsWith(lines[|lines| - 3],
               if h.IsList() && !h.IsPair() && h.First() != 13 && h.First() != 14 && h.First() != 15
               then " value = 2 [packed=true];" else " value = 2;")
  {
    hide TypeName, EndsWith, Packed, Prefix;
    lines := ["message " + name + " {"];
    if h.IsPair() {
      lines := lines + ["    message Pair {"];
      lines := lines + ["        " + TypeName(h.First()) + " first = 1;"];
      lines := lines + ["        " + TypeName(h.Second()) + " second = 2;"];
      lines := lines + ["    }"];
      lines := lines + [""];
    }
    if h.HasTimestamp() {
      lines := lines + ["    uint64 timestamp = 1;"];
    }
    if h.IsPair() || h.First() != VOID {
      var line := MakeValueLine(h);
      lines := lines + [line];
    }
    lines := lines + ["}"];
    lines := lines + [""];
  }

  datatype Definition = Definition(name: string, lines: seq<string>)

  datatype ProtoFile = ProtoFile(raw: nat, declaresTribool: bool, definitions: seq<Definition>)

  function DefinitionOf(name: string, h: Half): Definition
  {
    Definition(name, ["message " + name + " {"] + Body(h) + ["}", ""])
  }

  function FileOf(raw: nat): ProtoFile
  {
    ProtoFile(raw, UsesTribool(raw),
              [DefinitionOf("ScatterMessage", Upper(raw)), DefinitionOf("GatherMessage", Lower(raw)),
               DefinitionOf("PublishMessage", Lower(raw)), DefinitionOf("MasterMessage", Upper(raw)),
               DefinitionOf("SlaveMessage", Lower(raw))])
  }

  predicate UsesTribool(raw: nat)
  {
    || Lower(raw).First() == TRIBOOL || Lower(raw).Second() == TRIBOOL
    || Upper(raw).First() == TRIBOOL || Upper(raw).Second() == TRIBOOL
  }

  /** The constructor of ProtoFile; it throws for reserved and custom signatures. */
  method MakeProtoFile(raw: nat) returns (ok: bool, file: ProtoFile)
    ensures ok <==> RepresentsProtoMessage(raw)
    ensures ok ==> file == FileOf(raw)
  {
    hide Body, UsesTribool, RepresentsProtoMessage;
    if !RepresentsProtoMessage(raw) {
      return false, ProtoFile(raw, false, []);
    }
    var names := ["ScatterMessage", "GatherMessage", "PublishMessage", "MasterMessage", "SlaveMessage"];
    var halves := [Upper(raw), Lower(raw), Lower(raw), Upper(raw), Lower(raw)];
    var definitions := [];
    for i := 0 to 5
      invariant |definitions| == i && forall j :: 0 <= j < i ==> definitions[j] == DefinitionOf(names[j], halves[j])
    {
      var lines := MakeMessageDefinition(names[i], halves[i]);
      definitions := definitions + [Definition(names[i], lines)];
    }
    ok, file := true, ProtoFile(raw, UsesTribool(raw), definitions);
    assert file.definitions == FileOf(raw).definitions;
  }

  /** The type names a definition mentions. */
  function Mentioned(h: Half): set<string>
  {
    if h.IsPair() then {TypeName(h.First()), TypeName(h.Second())}
    else if h.First() != VOID then {TypeName(h.First())} else {}
  }

  /** No accepted signature produces an invalid type, and the Tribool enum is
      declared exactly when one of its messages needs it. */
  lemma TypesAreDeclared(raw: nat)
    requires RepresentsProtoMessage(raw)
    ensures "INVALID" !in Mentioned(Lower(raw)) + Mentioned(Upper(raw))
    ensures FileOf(raw).declaresTribool <==> "Tribool" in Mentioned(Lower(raw)) + Mentioned(Upper(raw))
  {
    MentionedValid(Lower(raw));
    MentionedValid(Upper(raw));
  }

  lemma MentionedValid(h: Half)
    requires !h.IsReserved()
    ensures "INVALID" !in Mentioned(h)
    ensures "Tribool" in Mentioned(h) <==> h.First() == TRIBOOL || h.Second() == TRIBOOL
  {
    NamesDiffer(h.First());
    NamesDiffer(h.Second());
  }

  lemma NamesDiffer(t: nat)
    requires t <= INVALID
    ensures TypeName(t) == "INVALID" <==> t == VOID || t == INVALID
    ensures TypeName(t) == "Tribool" <==> t == TRIBOOL
  {
    assert forall i :: 0 < i < 17 ==> PROTO_TYPES[i][0] != 'I';
    assert forall i :: 0 <= i < 18 && i != 2 ==> PROTO_TYPES[i][0] != 'T';
  }

  // ------------------------------------------------ what a definition tells apart

  /** A timestamp alone. */
  lemma TimestampExample()
    ensures Body(Half(2048)) == ["    uint64 timestamp = 1;"]
  {
    hide TypeName;
    FieldsOfHalf(0, 0, false, true);
  }

  lemma LineEnds(front: string)
    ensures front + " value = 2" + "" + ";" == front + " value = 2;"
    ensures front + " value = 2" + " [packed=true]" + ";" == front + " value = 2 [packed=true];"
  {
    Assoc(front, " value = 2", "");
    Assoc(front, " value = 2" + "", ";");
    assert " value = 2" + "" + ";" == " value = 2;";
    Assoc(front, " value = 2", " [packed=true]");
    Assoc(front, " value = 2" + " [packed=true]", ";");
    assert " value = 2" + " [packed=true]" + ";" == " value = 2 [packed=true];";
  }

  lemma ScalarBody(h: Half, name: string)
    requires !h.IsPair() && !h.HasTimestamp() && h.First() != VOID && TypeName(h.First()) == name
    ensures !h.IsList() ==> Body(h) == ["    " + name + " value = 2;"]
    ensures h.IsList() && name in ["string", "bytes"] ==> Body(h) == ["    repeated " + name + " value = 2;"]
    ensures h.IsList() && name !in ["string", "bytes"] ==>
      Body(h) == ["    repeated " + name + " value = 2 [packed=true];"]
  {
    hide TypeName;
    LineEnds(Prefix(h) + name);
    ScalarLine(h);
  }

  lemma ScalarLine(h: Half)
    requires !h.IsPair() && !h.HasTimestamp() && h.First() != VOID
    ensures Body(h) == [Prefix(h) + TypeName(h.First()) + " value = 2" + Packed(h) + ";"]
  {
    hide TypeName, Packed, Prefix;
  }

  /** A plain value, a packed list, and one that is not packed. */
  lemma ScalarExamples()
    ensures Body(Half(1)) == ["    " + "bool" + " value = 2;"]
    ensures Body(Half(1024 + 7)) == ["    repeated " + "sint32" + " value = 2 [packed=true];"]
    ensures Body(Half(1024 + 13)) == ["    repeated " + "string" + " value = 2;"]
  {
    FieldsOfHalf(1, 0, false, false);
    FieldsOfHalf(7, 0, true, false);
    FieldsOfHalf(13, 0, true, false);
    Unpackable(7);
    assert TypeName(1) == "bool" && TypeName(7) == "sint32" && TypeName(13) == "string";
    hide Body, TypeName;
    ScalarBody(Half(1), "bool");
    ScalarBody(Half(1024 + 7), "sint32");
    ScalarBody(Half(1024 + 13), "string");
  }

  /** A timestamped list of pairs. */
  lemma PairExample()
    ensures Body(Half(2048 + 1024 + 32 * 2 + 1)) ==
      ["    message Pair {", "        bool first = 1;", "        Tribool second = 2;", "    }", "",
       "    uint64 timestamp = 1;", "    repeated Pair value = 2;"]
  {
    FieldsOfHalf(1, 2, true, true);
    assert TypeName(1) == "bool" && TypeName(2) == "Tribool";
    hide TypeName, Packed;
    assert "        " + "bool" + " first = 1;" == "        bool first = 1;";
    assert "        " + "Tribool" + " second = 2;" == "        Tribool second = 2;";
    assert "    repeated " + "Pair value = 2;" == "    repeated Pair value = 2;";
  }

  /** No type name has a space in it or looks like the word "repeated". */
  lemma TypeNameIsWord(t: nat)
    requires t <= INVALID
    ensures ' ' !in TypeName(t) && TypeName(t) != "" && TypeName(t)[0] != 'r' && TypeName(t) != "Pair"
  {
    assert forall i :: 0 <= i < 18 ==> ' ' !in PROTO_TYPES[i];
    assert forall i :: 0 <= i < 18 ==> |PROTO_TYPES[i]| > 0 && PROTO_TYPES[i][0] !in ['r', 'P'];
  }

  lemma {:induction false} FirstWord(a: string, b: string, x: string, y: string)
    requires ' ' !in a && ' ' !in b && a + " " + x == b + " " + y
    ensures a == b && x == y
  {
    if a == "" || b == "" {
      assert (a + " " + x)[0] == (b + " " + y)[0];
      assert a == b;
      assert x == (a + " " + x)[1..] && y == (b + " " + y)[1..];
    } else {
      assert a[0] == (a + " " + x)[0] == (b + " " + y)[0] == b[0];
      assert a[1..] + " " + x == (a + " " + x)[1..] && b[1..] + " " + y == (b + " " + y)[1..];
      FirstWord(a[1..], b[1..], x, y);
      assert a == [a[0]] + a[1..] && b == [b[0]] + b[1..];
    }
  }

  /** A field's line: a word behind the indentation and "repeated". */
  function FieldText(list: bool, name: string, rest: string): string
  {
    (if list then "    repeated " else "    ") + (name + " " + rest)
  }

  lemma FieldTextTells(list: bool, name: string, rest: string, list': bool, name': string, rest': string)
    requires name != "" && name' != "" && name[0] != 'r' && name'[0] != 'r' && ' ' !in name && ' ' !in name'
    requires FieldText(list, name, rest) == FieldText(list', name', rest')
    ensures list == list' && name == name' && rest == rest'
  {
    var p, q := if list then "    repeated " else "    ", if list' then "    repeated " else "    ";
    var s, t := FieldText(list, name, rest), FieldText(list', name', rest');
    assert s[4] == if list then 'r' else name[0];
    assert t[4] == if list' then 'r' else name'[0];
    assert name + " " + rest == s[|p|..] && name' + " " + rest' == t[|q|..];
    FirstWord(name, name', rest, rest');
  }

  function FieldType(h: Half): string { if h.IsPair() then "Pair" else TypeName(h.First()) }

  function FieldRest(h: Half): string { if h.IsPair() then "value = 2;" else "value = 2" + (Packed(h) + ";") }

  function ValueLine(h: Half): string { FieldText(h.IsList(), FieldType(h), FieldRest(h)) }

  lemma FieldTypeIsWord(h: Half)
    ensures ' ' !in FieldType(h) && FieldType(h) != "" && FieldType(h)[0] != 'r'
    ensures FieldRest(h) != "" && FieldRest(h)[0] == 'v'
  {
    TypeNameIsWord(h.First());
  }

  lemma ValueLineTells(h: Half, g: Half)
    requires ValueLine(h) == ValueLine(g)
    ensures h.IsList() == g.IsList() && FieldType(h) == FieldType(g)
  {
    hide FieldText, FieldType, FieldRest;
    FieldTypeIsWord(h);
    FieldTypeIsWord(g);
    FieldTextTells(h.IsList(), FieldType(h), FieldRest(h), g.IsList(), FieldType(g), FieldRest(g));
  }

  /** Two halves describe the same messages. */
  predicate SameMessages(h: Half, g: Half)
  {
    && h.HasTimestamp() == g.HasTimestamp() && h.IsList() == g.IsList() && h.IsPair() == g.IsPair()
    && TypeName(h.First()) == TypeName(g.First()) && (h.IsPair() ==> TypeName(h.Second()) == TypeName(g.Second()))
  }

  function Timestamps(h: Half): seq<string> { if h.HasTimestamp() then ["    uint64 timestamp = 1;"] else [] }

  function PairLine(t: nat, rest: string): string
    requires t <= INVALID
  {
    "    " + FieldText(false, TypeName(t), rest)
  }

  lemma PairLineTells(t: nat, u: nat, rest: string)
    requires t <= INVALID && u <= INVALID && PairLine(t, rest) == PairLine(u, rest)
    ensures TypeName(t) == TypeName(u)
  {
    hide TypeName, FieldText;
    TypeNameIsWord(t);
    TypeNameIsWord(u);
    assert PairLine(t, rest)[4..] == FieldText(false, TypeName(t), rest);
    assert PairLine(u, rest)[4..] == FieldText(false, TypeName(u), rest);
    FieldTextTells(false, TypeName(t), rest, false, TypeName(u), rest);
  }

  lemma PairLineIs(t: nat)
    requires t <= INVALID
    ensures "        " + TypeName(t) + " first = 1;" == PairLine(t, "first = 1;")
    ensures "        " + TypeName(t) + " second = 2;" == PairLine(t, "second = 2;")
  {
    hide TypeName;
    var name := TypeName(t);
    assert "        " + name + " first = 1;" == "    " + ("    " + (name + " " + "first = 1;"));
    assert "        " + name + " second = 2;" == "    " + ("    " + (name + " " + "second = 2;"));
  }

  lemma ScalarLineIs(name: string, packed: string)
    ensures "    " + name + " value = 2" + packed + ";" == FieldText(false, name, "value = 2" + (packed + ";"))
    ensures "    repeated " + name + " value = 2" + packed + ";" == FieldText(true, name, "value = 2" + (packed + ";"))
  {
    var rest := "value = 2" + (packed + ";");
    assert " value = 2" + (packed + ";") == " " + rest;
    assert "    " + name + " value = 2" + packed + ";" == "    " + (name + (" value = 2" + (packed + ";")));
    assert "    repeated " + name + " value = 2" + packed + ";"
        == "    repeated " + (name + (" value = 2" + (packed + ";")));
    assert name + (" " + rest) == name + " " + rest;
  }

  lemma PairValueLineIs(list: bool)
    ensures (if list then "    repeated " else "    ") + "Pair value = 2;" == FieldText(list, "Pair", "value = 2;")
  {
    assert "Pair value = 2;" == "Pair" + " " + "value = 2;";
  }

  lemma BodyOf(h: Half)
    ensures h.IsPair() ==>
      Body(h) == ["    message Pair {", PairLine(h.First(), "first = 1;"), PairLine(h.Second(), "second = 2;"),
                  "    }", ""] + Timestamps(h) + [ValueLine(h)]
    ensures !h.IsPair() ==> Body(h) == Timestamps(h) + if h.First() == VOID then [] else [ValueLine(h)]
  {
    hide TypeName, Packed, FieldText, PairLine;
    PairLineIs(h.First());
    PairLineIs(h.Second());
    PairValueLineIs(h.IsList());
    ScalarLineIs(TypeName(h.First()), Packed(h));
  }

  lemma ValueLineIsOther(h: Half)
    ensures ValueLine(h) != "    uint64 timestamp = 1;" && ValueLine(h) != "    message Pair {"
  {
    hide FieldText, FieldType, FieldRest;
    FieldTypeIsWord(h);
    OtherLines();
    if ValueLine(h) == "    uint64 timestamp = 1;" {
      FieldTextTells(h.IsList(), FieldType(h), FieldRest(h), false, "uint64", "timestamp = 1;");
    }
    if ValueLine(h) == "    message Pair {" {
      FieldTextTells(h.IsList(), FieldType(h), FieldRest(h), false, "message", "Pair {");
    }
  }

  lemma OtherLines()
    ensures "    uint64 timestamp = 1;" == FieldText(false, "uint64", "timestamp = 1;")
    ensures "    message Pair {" == FieldText(false, "message", "Pair {")
  {
    assert "    uint64 timestamp = 1;" == "    " + ("uint64" + " " + "timestamp = 1;");
    assert "    message Pair {" == "    " + ("message" + " " + "Pair {");
  }

  /** Primitive types with one proto type: int8, int16 and int32; uint8, uint16 and
      uint32; uint64 and timestamps; strings and JSON. */
  predicate SameProtoType(t: nat, u: nat)
  {
    t == u || {t, u} <= {3, 5, 7} || {t, u} <= {4, 6, 8} || {t, u} <= {10, 16} || {t, u} <= {13, 14}
  }

  /** Enough of a type name to tell it from the others. */
  function Mark(name: string): (nat, char, char)
    requires name != ""
  {
    (|name|, name[0], name[|name| - 1])
  }

  function MarkOf(t: nat): (nat, char, char)
    requires 0 < t < INVALID
  {
    if t == 1 then (4, 'b', 'l') else if t == 2 then (7, 'T', 'l')
    else if t == 3 || t == 5 || t == 7 then (6, 's', '2') else if t == 4 || t == 6 || t == 8 then (6, 'u', '2')
    else if t == 9 then (6, 's', '4') else if t == 10 || t == 16 then (6, 'u', '4')
    else if t == 11 then (5, 'f', 't') else if t == 12 then (6, 'd', 'e')
    else if t == 15 then (5, 'b', 's') else (6, 's', 'g')
  }

  lemma MarkOfType(t: nat)
    requires 0 < t < INVALID
    ensures TypeName(t) != "" && Mark(TypeName(t)) == MarkOf(t)
  {
  }

  /** The definition says which proto type a value has; primitive types that share
      one are not told apart. */
  lemma TypesThatCollapse(t: nat, u: nat)
    requires 0 < t < INVALID && 0 < u < INVALID
    ensures TypeName(t) == TypeName(u) <==> SameProtoType(t, u)
  {
    MarkOfType(t);
    MarkOfType(u);
  }

  /** Two halves are compiled to the same lines exactly when they describe the same
      messages: timestamp, list, pair and proto types are all in the definition. */
  lemma DefinitionTellsLayout(h: Half, g: Half)
    requires !h.IsReserved() && !g.IsReserved()
    ensures Body(h) == Body(g) <==> SameMessages(h, g)
  {
    hide Body;
    if Body(h) == Body(g) {
      BodyTellsPair(h, g);
      if h.IsPair() {
        BodyTellsTypes(h, g);
      } else {
        BodyTellsScalar(h, g);
      }
    }
    if SameMessages(h, g) {
      SameBody(h, g);
    }
  }

  lemma SameBody(h: Half, g: Half)
    requires !h.IsReserved() && !g.IsReserved() && SameMessages(h, g)
    ensures Body(h) == Body(g)
  {
    hide TypeName;
    NamesDiffer(h.First());
    NamesDiffer(g.First());
  }

  lemma BodyTellsPair(h: Half, g: Half)
    requires !h.IsReserved() && !g.IsReserved() && Body(h) == Body(g)
    ensures h.IsPair() == g.IsPair()
  {
    hide Body, ValueLine, PairLine;
    BodyOf(h);
    BodyOf(g);
    ValueLineIsOther(h);
    ValueLineIsOther(g);
    var x, y := Body(h), Body(g);
    assert h.IsPair() ==> x[0] == "    message Pair {";
    assert g.IsPair() ==> y[0] == "    message Pair {";
    assert "    uint64 timestamp = 1;"[4] != "    message Pair {"[4];
  }

  lemma BodyTellsTypes(h: Half, g: Half)
    requires Body(h) == Body(g) && h.IsPair() && g.IsPair()
    ensures SameMessages(h, g)
  {
    hide Body, ValueLine, TypeName, PairLine;
    BodyOf(h);
    BodyOf(g);
    var s, t := Body(h), Body(g);
    assert s[|s| - 1] == ValueLine(h) && t[|t| - 1] == ValueLine(g);
    ValueLineTells(h, g);
    assert s[1] == PairLine(h.First(), "first = 1;") && t[1] == PairLine(g.First(), "first = 1;");
    assert s[2] == PairLine(h.Second(), "second = 2;") && t[2] == PairLine(g.Second(), "second = 2;");
    PairLineTells(h.First(), g.First(), "first = 1;");
    PairLineTells(h.Second(), g.Second(), "second = 2;");
  }

  lemma BodyTellsScalar(h: Half, g: Half)
    requires !h.IsReserved() && !g.IsReserved() && Body(h) == Body(g) && !h.IsPair() && !g.IsPair()
    ensures SameMessages(h, g)
  {
    hide Body, ValueLine, TypeName;
    BodyOf(h);
    BodyOf(g);
    ValueLineIsOther(h);
    ValueLineIsOther(g);
    var s, t := Body(h), Body(g);
    if h.First() != VOID {
      assert s[|s| - 1] == ValueLine(h);
    }
    if g.First() != VOID {
      assert t[|t| - 1] == ValueLine(g);
    }
    if h.HasTimestamp() {
      assert s[0] == "    uint64 timestamp = 1;";
    }
    if g.HasTimestamp() {
      assert t[0] == "    uint64 timestamp = 1;";
    }
    if h.First() != VOID && g.First() != VOID {
      ValueLineTells(h, g);
    }
  }

  // ------------------------------------------------------------ message classes

  datatype MessageType = Publish | Master | Slave | Scatter | Gather

  function MessageName(t: MessageType): string
  {
    match t
    case Publish => "PublishMessage" case Master => "MasterMessage" case Slave => "SlaveMessage"
    case Scatter => "ScatterMessage" case Gather => "GatherMessage"
  }

  function HalfFor(t: MessageType, raw: nat): Half
  {
    if t == Scatter || t == Master then Upper(raw) else Lower(raw)
  }

  /** A message class: the half and the definition it was built from. */
  datatype MessageClass = MessageClass(half: Half, definition: Definition)

  /** What messages of the class look like: the fields of the definition and the
      accessors added for the half. */
  datatype Layout = Layout(fields: seq<string>, timestamp: bool, data: bool, pairValue: bool)

  function LayoutOf(c: MessageClass): Layout
    requires |c.definition.lines| >= 1
  {
    Layout(c.definition.lines[1..], c.half.HasTimestamp(), c.half.HasData(), c.half.IsPair() && !c.half.IsList())
  }

  datatype Created = Class(c: MessageClass) | Throws

  /** The definition of that name in a file. */
  function Find(ds: seq<Definition>, name: string): (d: Definition)
    requires exists i :: 0 <= i < |ds| && ds[i].name == name
    ensures d.name == name
  {
    if ds[0].name == name then ds[0] else Find(ds[1..], name)
  }

  lemma NameInFile(t: MessageType, raw: nat)
    ensures var ds := FileOf(raw).definitions;
            (exists i :: 0 <= i < |ds| && ds[i].name == MessageName(t))
            && Find(ds, MessageName(t)) == DefinitionOf(MessageName(t), HalfFor(t, raw))
  {
    hide DefinitionOf;
    var ds, n := FileOf(raw).definitions, MessageName(t);
    NamesOf(raw);
    assert ds[0].name == n || ds[1].name == n || ds[2].name == n || ds[3].name == n || ds[4].name == n;
    assert ds[1..][0] == ds[1] && ds[1..][1..][0] == ds[2] && ds[1..][1..][1..][0] == ds[3];
    assert ds[1..][1..][1..][1..][0] == ds[4];
    FindAt(ds, match t case Scatter => 0 case Gather => 1 case Publish => 2 case Master => 3 case Slave => 4);
  }

  lemma NamesOf(raw: nat)
    ensures var ds := FileOf(raw).definitions;
            && ds[0].name == "ScatterMessage" && ds[1].name == "GatherMessage" && ds[2].name == "PublishMessage"
            && ds[3].name == "MasterMessage" && ds[4].name == "SlaveMessage"
  {
  }

  lemma {:induction false} FindAt(ds: seq<Definition>, i: nat)
    requires i < |ds| && forall j :: 0 <= j < i ==> ds[j].name != ds[i].name
    ensures Find(ds, ds[i].name) == ds[i]
  {
    if i > 0 {
      FindAt(ds[1..], i - 1);
    }
  }

  /** _makeMsgClass without any cache. */
  function Build(t: MessageType, raw: nat): Created
  {
    if !RepresentsProtoMessage(raw) then Throws
    else
      NameInFile(t, raw);
      Class(MessageClass(HalfFor(t, raw), Find(FileOf(raw).definitions, MessageName(t))))
  }

  /** Scattered and master messages have the upper half's layout, all others the
      lower half's. */
  lemma LayoutComesFromHalf(t: MessageType, low: nat, high: nat)
    requires low < 4096 && RepresentsProtoMessage(low + 4096 * high)
    ensures var r := Build(t, low + 4096 * high);
      && r.Class? && |r.c.definition.lines| >= 1
      && (t == Scatter || t == Master ==> r.c.definition.lines[1..] == Body(Half(high)) + ["}", ""])
      && (t == Publish || t == Slave || t == Gather ==> r.c.definition.lines[1..] == Body(Half(low)) + ["}", ""])
  {
    hide Body, FileOf, RepresentsProtoMessage;
    var raw := low + 4096 * high;
    BuiltIsGood(t, raw);
    UpperIsAbove(low, high);
    SameBodyLow(raw);
    LowPart(low, high);
  }

  lemma LowPart(low: nat, high: nat)
    requires low < 4096
    ensures (low + 4096 * high) % 4096 == low
  {
  }

  lemma SameBodyLow(raw: nat)
    ensures Body(Half(raw)) == Body(Half(raw % 4096))
  {
    LowerReadsTwelveBits(raw);
  }

  /** createMessageClass and its cache, keyed by the unmasked half. A custom
      signature has no halves, so asking for one throws. */
  function Create(cache: map<nat, MessageClass>, t: MessageType, raw: nat): Created
  {
    if IsCustom(raw) then Throws
    else if HalfFor(t, raw).raw in cache then Class(cache[HalfFor(t, raw).raw])
    else Build(t, raw)
  }

  function Filled(cache: map<nat, MessageClass>, t: MessageType, raw: nat): map<nat, MessageClass>
  {
    var c := Create(cache, t, raw);
    if c.Class? then cache[HalfFor(t, raw).raw := c.c] else cache
  }

  class MessageFactory {
    var msgClassCache: map<nat, MessageClass>

    constructor ()
      ensures msgClassCache == map[]
    {
      msgClassCache := map[];
    }

    method CreateMessageClass(t: MessageType, raw: nat) returns (r: Created)
      modifies this
      ensures r == Create(old(msgClassCache), t, raw)
      ensures msgClassCache == Filled(old(msgClassCache), t, raw)
    {
      hide Body;
      if IsCustom(raw) {
        return Throws;
      }
      var half := HalfFor(t, raw);
      if half.raw in msgClassCache {
        assert msgClassCache == msgClassCache[half.raw := msgClassCache[half.raw]];
        return Class(msgClassCache[half.raw]);
      }
      var ok, file := MakeProtoFile(raw);
      if !ok {
        return Throws;
      }
      NameInFile(t, raw);
      var c := MessageClass(half, Find(file.definitions, MessageName(t)));
      msgClassCache := msgClassCache[half.raw := c];
      r := Class(c);
    }
  }

  // ------------------------------------------------------------- any cache history

  datatype Call = Call(t: MessageType, raw: nat)

  function After(history: seq<Call>): map<nat, MessageClass>
  {
    if history == [] then map[]
    else var c := history[|history| - 1]; Filled(After(history[..|history| - 1]), c.t, c.raw)
  }

  /** An entry has the layout of its key's twelve bits, whoever made it. */
  predicate GoodEntry(key: nat, c: MessageClass)
  {
    c.half == Half(key) && |c.definition.lines| >= 1 && c.definition.lines[1..] == Body(Half(key)) + ["}", ""]
  }

  lemma BuiltIsGood(t: MessageType, raw: nat)
    ensures Build(t, raw).Class? ==> GoodEntry(HalfFor(t, raw).raw, Build(t, raw).c)
  {
    hide Body;
    NameInFile(t, raw);
    var h := HalfFor(t, raw);
    var d := DefinitionOf(MessageName(t), h);
    assert d.lines == ["message " + MessageName(t) + " {"] + (Body(h) + ["}", ""]);
    assert d.lines[1..] == Body(h) + ["}", ""];
  }

  lemma {:induction false} CacheIsGood(history: seq<Call>)
    ensures forall k <- After(history).Keys :: GoodEntry(k, After(history)[k])
  {
    hide GoodEntry, Build;
    if history != [] {
      var c := history[|history| - 1];
      CacheIsGood(history[..|history| - 1]);
      BuiltIsGood(c.t, c.raw);
    }
  }

  /** The cache is transparent for every signature that represents a message:
      after any history the class has the layout an uncached build gives, even
      when the entry was made for the other half of another signature. */
  lemma CacheIsTransparent(history: seq<Call>, t: MessageType, raw: nat)
    requires RepresentsProtoMessage(raw)
    ensures var r, b := Create(After(history), t, raw), Build(t, raw);
            && r.Class? && b.Class? && |r.c.definition.lines| >= 1 && |b.c.definition.lines| >= 1
            && LayoutOf(r.c) == LayoutOf(b.c)
  {
    hide Body;
    CacheIsGood(history);
    BuiltIsGood(t, raw);
  }

  /** Some earlier call asked for this half of a signature that represents a
      message. */
  predicate AskedFor(history: seq<Call>, key: nat)
  {
    exists j :: 0 <= j < |history| && Provides(history[j], key)
  }

  predicate Provides(c: Call, key: nat) { RepresentsProtoMessage(c.raw) && HalfFor(c.t, c.raw).raw == key }

  lemma AskedForMore(history: seq<Call>, c: Call, key: nat)
    ensures AskedFor(history + [c], key) <==> AskedFor(history, key) || Provides(c, key)
  {
    hide Provides;
    var h := history + [c];
    assert h[|history|] == c;
    if AskedFor(history, key) {
      var j :| 0 <= j < |history| && Provides(history[j], key);
      assert Provides(h[j], key);
    }
  }

  /** A half is in the cache exactly when it was asked for as part of a signature
      that represents a message: reserved signatures never put anything in. */
  lemma {:induction false} CachedIffAskedFor(history: seq<Call>, key: nat)
    ensures key in After(history) <==> AskedFor(history, key)
  {
    hide AskedFor, RepresentsProtoMessage, HalfFor, FileOf;
    if history == [] {
      NothingAskedFor(key);
    } else {
      var n := |history| - 1;
      var c := history[n];
      assert history == history[..n] + [c];
      CachedIffAskedFor(history[..n], key);
      CachedIffAskedFor(history[..n], HalfFor(c.t, c.raw).raw);
      AskedForMore(history[..n], c, key);
      OfficialIsNotCustom(c.raw);
    }
  }

  lemma OfficialIsNotCustom(raw: nat)
    ensures RepresentsProtoMessage(raw) ==> !IsCustom(raw)
  {
  }

  lemma NothingAskedFor(key: nat)
    ensures !AskedFor([], key)
  {
  }

  /** For other signatures it is not: an uncached build always throws, but a
      signature that represents no message is served if and only if it is not
      custom and its half was asked for earlier, as part of one that does. */
  lemma RejectedUnlessCached(history: seq<Call>, t: MessageType, raw: nat)
    requires !RepresentsProtoMessage(raw)
    ensures Build(t, raw) == Throws
    ensures Create(After(history), t, raw).Class? <==> !IsCustom(raw) && AskedFor(history, HalfFor(t, raw).raw)
  {
    hide AskedFor;
    CachedIffAskedFor(history, HalfFor(t, raw).raw);
  }

  /** Asking for the master message of the good signature 0x1001 makes the one
      of the reserved signature 0x101F available: both have the upper half 1. */
  lemma ReservedSignatureIsServed()
    ensures !RepresentsProtoMessage(0x101F) && RepresentsProtoMessage(0x1001)
    ensures Create(After([]), Master, 0x101F) == Throws
    ensures Create(After([Call(Master, 0x1001)]), Master, 0x101F).Class?
  {
    hide Body;
    var h := [Call(Master, 0x1001)];
    assert h[..|h| - 1] == [];
    assert Upper(0x1001) == Upper(0x101F) == Half(1);
    assert Lower(0x1001).First() == 1 && Lower(0x1001).Second() == 0;
    assert RepresentsProtoMessage(0x1001) && Lower(0x101F).First() == INVALID;
    hide RepresentsProtoMessage, FileOf;
  }

  // --------------------------------------------------------- compatible terminals

  datatype Terminal =
    | DeafMute | PublishSubscribe | ScatterGather | CachedPublishSubscribe
    | Producer | Consumer | CachedProducer | CachedConsumer
    | MasterTerminal | SlaveTerminal | CachedMaster | CachedSlave
    | Service | Client

  datatype Use = None | Uses(t: MessageType)

  /** First message type of a terminal: what it sends or what is scattered. */
  function SendOrScatter(t: Terminal): Use
  {
    match t
    case DeafMute | Consumer | CachedConsumer => None
    case PublishSubscribe | CachedPublishSubscribe | Producer | CachedProducer => Uses(Publish)
    case ScatterGather | Service | Client => Uses(Scatter)
    case MasterTerminal | CachedMaster => Uses(Master)
    case SlaveTerminal | CachedSlave => Uses(Slave)
  }

  /** Second message type: what it receives or what is gathered. */
  function ReceiveOrGather(t: Terminal): Use
  {
    match t
    case DeafMute | Producer | CachedProducer => None
    case PublishSubscribe | CachedPublishSubscribe | Consumer | CachedConsumer => Uses(Publish)
    case ScatterGather | Service | Client => Uses(Gather)
    case MasterTerminal | CachedMaster => Uses(Slave)
    case SlaveTerminal | CachedSlave => Uses(Master)
  }

  function Compatible(t: Terminal): Terminal
  {
    match t
    case DeafMute => DeafMute case PublishSubscribe => PublishSubscribe
    case ScatterGather => ScatterGather case CachedPublishSubscribe => CachedPublishSubscribe
    case Producer => Consumer case Consumer => Producer
    case CachedProducer => CachedConsumer case CachedConsumer => CachedProducer
    case MasterTerminal => SlaveTerminal case SlaveTerminal => MasterTerminal
    case CachedMaster => CachedSlave case CachedSlave => CachedMaster
    case Service => Client case Client => Service
  }

  /** Scattered messages are decoded with the type they were scattered with,
      published ones with the type the other side receives. */
  function DecodedAs(sender: Terminal): Use
  {
    if SendOrScatter(sender) == Uses(Scatter) then SendOrScatter(Compatible(sender))
    else ReceiveOrGather(Compatible(sender))
  }

  /** Two compatible terminals with the same signature, each with a cache of its
      own: what one sends has the layout the other decodes, and for
      scatter-gather also the answer. */
  lemma CompatibleTerminalsAgree(a: seq<Call>, b: seq<Call>, sender: Terminal, raw: nat)
    requires RepresentsProtoMessage(raw)
    ensures Compatible(Compatible(sender)) == sender
    ensures SendOrScatter(sender).Uses? ==>
              DecodedAs(sender).Uses? &&
              SameLayout(Create(After(a), SendOrScatter(sender).t, raw), Create(After(b), DecodedAs(sender).t, raw))
    ensures SendOrScatter(sender) == Uses(Scatter) ==>
              && ReceiveOrGather(sender).Uses? && ReceiveOrGather(Compatible(sender)).Uses?
              && SameLayout(Create(After(a), ReceiveOrGather(sender).t, raw),
                            Create(After(b), ReceiveOrGather(Compatible(sender)).t, raw))
  {
    hide Create, Body;
    if SendOrScatter(sender).Uses? {
      BothTransparent(a, b, SendOrScatter(sender).t, DecodedAs(sender).t, raw);
    }
    if SendOrScatter(sender) == Uses(Scatter) {
      BothTransparent(a, b, Gather, Gather, raw);
    }
  }

  predicate SameLayout(x: Created, y: Created)
  {
    x.Class? && y.Class? && |x.c.definition.lines| >= 1 && |y.c.definition.lines| >= 1
    && LayoutOf(x.c) == LayoutOf(y.c)
  }

  lemma BothTransparent(a: seq<Call>, b: seq<Call>, s: MessageType, t: MessageType, raw: nat)
    requires RepresentsProtoMessage(raw) && HalfFor(s, raw) == HalfFor(t, raw)
    ensures SameLayout(Create(After(a), s, raw), Create(After(b), t, raw))
  {
    hide Body, Create, Build;
    CacheIsTransparent(a, s, raw);
    CacheIsTransparent(b, t, raw);
    BuiltIsGood(s, raw);
    BuiltIsGood(t, raw);
  }
}
