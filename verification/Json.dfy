/** Reading JSON (RFC 8259): a lexer for the tokens of section 2, the numbers of
    section 6 and the strings of section 7, and a parser for the objects and
    arrays of sections 4 and 5. A text is a sequence of Unicode code points: their
    encoding as UTF-8 (section 8.1) is not part of the reader. */
module Json {
  import opened Seqs

  datatype Token = LBrace | RBrace | LBracket | RBracket | Colon | Comma
    | Text(s: string) | Number(digits: string) | True | False | Null

  predicate Whitespace(c: char) { c == ' ' || c == '\t' || c == '\n' || c == '\r' }

  // ------------------------------------------------------------------- strings

  /** May appear unescaped in a string (section 7). */
  predicate Unescaped(c: char) { c >= ' ' && c != '"' && c != '\\' }

  predicate Clean(s: string) { forall c <- s :: Unescaped(c) }

  predicate HexDigit(c: char) { '0' <= c <= '9' || 'a' <= c <= 'f' || 'A' <= c <= 'F' }

  function HexValue(c: char): (n: nat)
    requires HexDigit(c)
    ensures n < 16
  {
    if c <= '9' then (c - '0') as int else if c <= 'F' then (c - 'A') as int + 10 else (c - 'a') as int + 10
  }

  predicate FourHexDigits(s: string)
  {
    |s| >= 4 && HexDigit(s[0]) && HexDigit(s[1]) && HexDigit(s[2]) && HexDigit(s[3])
  }

  function HexNumber(s: string): (n: nat)
    requires FourHexDigits(s)
    ensures n < 0x10000
  {
    ((HexValue(s[0]) * 16 + HexValue(s[1])) * 16 + HexValue(s[2])) * 16 + HexValue(s[3])
  }

  /** text: what has been read. size: how many characters it was written with. */
  datatype Scan = Scan(text: string, size: nat) | Broken

  /** What stands behind a backslash. A surrogate needs its partner. */
  function ScanEscape(s: string): (r: Scan)
    ensures r.Scan? ==> 1 <= r.size <= |s| && |r.text| <= r.size
  {
    if s == [] then Broken
    else if s[0] in "\"\\/" then Scan([s[0]], 1)
    else if s[0] == 'b' then Scan(['\U{8}'], 1)
    else if s[0] == 'f' then Scan(['\U{C}'], 1)
    else if s[0] == 'n' then Scan(['\n'], 1)
    else if s[0] == 'r' then Scan(['\r'], 1)
    else if s[0] == 't' then Scan(['\t'], 1)
    else if s[0] == 'u' && FourHexDigits(s[1..]) then
      var n := HexNumber(s[1..]);
      if n < 0xD800 || 0xE000 <= n then Scan([n as char], 5)
      else if n < 0xDC00 && |s| >= 11 && s[5] == '\\' && s[6] == 'u' && FourHexDigits(s[7..])
              && 0xDC00 <= HexNumber(s[7..]) < 0xE000 then
        Scan([(0x10000 + (n - 0xD800) * 1024 + (HexNumber(s[7..]) - 0xDC00)) as char], 11)
      else Broken
    else Broken
  }

  function Behind(text: string, size: nat, r: Scan): Scan
  {
    if r.Scan? then Scan(text + r.text, size + r.size) else Broken
  }

  /** A string from behind its opening to its closing quotation mark. */
  function ScanText(s: string): (r: Scan)
    ensures r.Scan? ==> r.size < |s| && s[r.size] == '"'
    decreases |s|
  {
    if s == [] then Broken
    else if s[0] == '"' then Scan([], 0)
    else if Unescaped(s[0]) then Behind([s[0]], 1, ScanText(s[1..]))
    else if s[0] == '\\' then
      var e := ScanEscape(s[1..]);
      if e.Scan? then Behind(e.text, 1 + e.size, ScanText(s[1 + e.size..])) else Broken
    else Broken
  }

  // ------------------------------------------------------------------- numbers

  predicate Digit(c: char) { '0' <= c <= '9' }

  function Digits(s: string): (n: nat)
    ensures n <= |s| && forall i :: 0 <= i < n ==> Digit(s[i])
  {
    if s != [] && Digit(s[0]) then 1 + Digits(s[1..]) else 0
  }

  function IntegerLength(s: string): (n: nat)
    ensures n <= |s| && forall i :: 0 <= i < n ==> Digit(s[i])
  {
    if s != [] && s[0] == '0' then 1 else Digits(s)
  }

  function FractionLength(s: string): (n: nat)
    ensures n <= |s| && forall i :: 0 <= i < n ==> Unescaped(s[i])
  {
    if s == [] || s[0] != '.' || Digits(s[1..]) == 0 then 0 else 1 + Digits(s[1..])
  }

  function ExponentLength(s: string): (n: nat)
    ensures n <= |s| && forall i :: 0 <= i < n ==> Unescaped(s[i])
  {
    if s == [] || s[0] !in "eE" then 0
    else
      var sign := if |s| > 1 && s[1] in "+-" then 2 else 1;
      if Digits(s[sign..]) == 0 then 0 else sign + Digits(s[sign..])
  }

  /** Length of the number at the front of a text, or 0. */
  function NumberLength(s: string): (n: nat)
    ensures n <= |s| && forall i :: 0 <= i < n ==> Unescaped(s[i])
  {
    var minus := if s != [] && s[0] == '-' then 1 else 0;
    var int' := IntegerLength(s[minus..]);
    if int' == 0 then 0
    else
      var frac := FractionLength(s[minus + int'..]);
      minus + int' + frac + ExponentLength(s[minus + int' + frac..])
  }

  // -------------------------------------------------------------------- tokens

  /** What a text begins with. */
  datatype Front = Blank | Front(t: Token, size: nat) | Nothing

  function FrontOf(s: string): (f: Front)
    requires s != []
    ensures f.Front? ==> 0 < f.size <= |s|
  {
    if Whitespace(s[0]) then Blank
    else if s[0] == '{' then Front(LBrace, 1)
    else if s[0] == '}' then Front(RBrace, 1)
    else if s[0] == '[' then Front(LBracket, 1)
    else if s[0] == ']' then Front(RBracket, 1)
    else if s[0] == ':' then Front(Colon, 1)
    else if s[0] == ',' then Front(Comma, 1)
    else if s[0] == '"' then
      var r := ScanText(s[1..]);
      if r.Scan? then Front(Text(r.text), r.size + 2) else Nothing
    else if "true" <= s then Front(True, 4)
    else if "false" <= s then Front(False, 5)
    else if "null" <= s then Front(Null, 4)
    else if NumberLength(s) > 0 then Front(Number(s[..NumberLength(s)]), NumberLength(s))
    else Nothing
  }

  datatype Lexed = Tokens(ts: seq<Token>) | Unreadable

  function Cons(t: Token, l: Lexed): Lexed
  {
    if l.Tokens? then Tokens([t] + l.ts) else Unreadable
  }

  function Lex(s: string): Lexed
    decreases |s|
  {
    if s == [] then Tokens([])
    else
      match FrontOf(s)
      case Blank => Lex(s[1..])
      case Front(t, size) => Cons(t, Lex(s[size..]))
      case Nothing => Unreadable
  }

  // -------------------------------------------------------------------- values

  datatype Value =
    | Obj(members: seq<Member>) | Arr(elements: seq<Value>)
    | Str(s: string) | Num(digits: string) | Bool(b: bool) | Nil

  datatype Member = Member(key: string, value: Value)

  datatype Parsed<T> = Ok(v: T, rest: seq<Token>) | Bad

  function ParseValue(ts: seq<Token>): (r: Parsed<Value>)
    ensures r.Ok? ==> |r.rest| < |ts|
    decreases |ts|, 0
  {
    if ts == [] then Bad
    else match ts[0]
      case Text(s) => Ok(Str(s), ts[1..])
      case Number(digits) => Ok(Num(digits), ts[1..])
      case True => Ok(Bool(true), ts[1..])
      case False => Ok(Bool(false), ts[1..])
      case Null => Ok(Nil, ts[1..])
      case LBrace =>
        if |ts| >= 2 && ts[1] == RBrace then Ok(Obj([]), ts[2..])
        else
          var r := ParseMembers(ts[1..]);
          if r.Ok? then Ok(Obj(r.v), r.rest) else Bad
      case LBracket =>
        if |ts| >= 2 && ts[1] == RBracket then Ok(Arr([]), ts[2..])
        else
          var r := ParseElements(ts[1..]);
          if r.Ok? then Ok(Arr(r.v), r.rest) else Bad
      case _ => Bad
  }

  /** member *( value-separator member ) end-object */
  function ParseMembers(ts: seq<Token>): (r: Parsed<seq<Member>>)
    ensures r.Ok? ==> |r.rest| < |ts|
    decreases |ts|, 1
  {
    if |ts| < 2 || !ts[0].Text? || ts[1] != Colon then Bad
    else
      var v := ParseValue(ts[2..]);
      if v.Bad? || v.rest == [] then Bad
      else if v.rest[0] == RBrace then Ok([Member(ts[0].s, v.v)], v.rest[1..])
      else if v.rest[0] == Comma then
        var r := ParseMembers(v.rest[1..]);
        if r.Ok? then Ok([Member(ts[0].s, v.v)] + r.v, r.rest) else Bad
      else Bad
  }

  /** value *( value-separator value ) end-array */
  function ParseElements(ts: seq<Token>): (r: Parsed<seq<Value>>)
    ensures r.Ok? ==> |r.rest| < |ts|
    decreases |ts|, 1
  {
    var v := ParseValue(ts);
    if v.Bad? || v.rest == [] then Bad
    else if v.rest[0] == RBracket then Ok([v.v], v.rest[1..])
    else if v.rest[0] == Comma then
      var r := ParseElements(v.rest[1..]);
      if r.Ok? then Ok([v.v] + r.v, r.rest) else Bad
    else Bad
  }

  datatype Document = Document(v: Value) | Invalid

  /** A JSON text is one value and nothing behind it. */
  function Read(s: string): Document
  {
    var l := Lex(s);
    if l.Unreadable? then Invalid
    else
      var r := ParseValue(l.ts);
      if r.Ok? && r.rest == [] then Document(r.v) else Invalid
  }

  // ------------------------------------------------------ one parsing step each

  lemma LastMember(key: string, vts: seq<Token>, v: Value, rest: seq<Token>)
    requires ParseValue(vts) == Ok(v, [RBrace] + rest)
    ensures ParseMembers([Text(key), Colon] + vts) == Ok([Member(key, v)], rest)
  {
    hide ParseValue;
    assert ([Text(key), Colon] + vts)[2..] == vts && ([RBrace] + rest)[1..] == rest;
  }

  lemma NextMember(key: string, vts: seq<Token>, v: Value, rest: seq<Token>, ms: seq<Member>, end: seq<Token>)
    requires ParseValue(vts) == Ok(v, [Comma] + rest) && ParseMembers(rest) == Ok(ms, end)
    ensures ParseMembers([Text(key), Colon] + vts) == Ok([Member(key, v)] + ms, end)
  {
    hide ParseValue;
    assert ([Text(key), Colon] + vts)[2..] == vts && ([Comma] + rest)[1..] == rest;
  }

  lemma LastElement(vts: seq<Token>, v: Value, rest: seq<Token>)
    requires ParseValue(vts) == Ok(v, [RBracket] + rest)
    ensures ParseElements(vts) == Ok([v], rest)
  {
    hide ParseValue;
    assert ([RBracket] + rest)[1..] == rest;
  }

  lemma NextElement(vts: seq<Token>, v: Value, rest: seq<Token>, vs: seq<Value>, end: seq<Token>)
    requires ParseValue(vts) == Ok(v, [Comma] + rest) && ParseElements(rest) == Ok(vs, end)
    ensures ParseElements(vts) == Ok([v] + vs, end)
  {
    hide ParseValue;
    assert ([Comma] + rest)[1..] == rest;
  }

  lemma ScalarValue(t: Token, rest: seq<Token>)
    requires t.Text? || t == True || t == False
    ensures ParseValue([t] + rest) == Ok(if t.Text? then Str(t.s) else Bool(t == True), rest)
  {
    assert ([t] + rest)[1..] == rest;
  }

  lemma ObjectValue(ts: seq<Token>, ms: seq<Member>, rest: seq<Token>)
    requires ParseMembers(ts) == Ok(ms, rest)
    ensures ParseValue([LBrace] + ts) == Ok(Obj(ms), rest)
  {
    assert ([LBrace] + ts)[1..] == ts && ts[0].Text?;
  }

  // ---------------------------------------------------------- rendered tokens

  /** A stretch of JSON text: white space or a token. */
  datatype Piece = Space(w: string) | Tok(t: Token)

  function Spell(t: Token): string
  {
    match t
    case LBrace => "{" case RBrace => "}" case LBracket => "[" case RBracket => "]"
    case Colon => ":" case Comma => ","
    case Text(s) => "\"" + s + "\""
    case Number(digits) => digits
    case True => "true" case False => "false" case Null => "null"
  }

  predicate ValidPiece(p: Piece)
  {
    match p
    case Space(w) => forall c <- w :: Whitespace(c)
    case Tok(t) => !t.Number? && (t.Text? ==> Clean(t.s))
  }

  function SpellPiece(p: Piece): string { match p case Space(w) => w case Tok(t) => Spell(t) }

  function SpellAll(ps: seq<Piece>): string
  {
    if ps == [] then [] else SpellPiece(ps[0]) + SpellAll(ps[1..])
  }

  function TokensOf(ps: seq<Piece>): seq<Token>
  {
    if ps == [] then [] else (if ps[0].Tok? then [ps[0].t] else []) + TokensOf(ps[1..])
  }

  lemma {:induction false} LexSpace(w: string, rest: string)
    requires forall c <- w :: Whitespace(c)
    ensures Lex(w + rest) == Lex(rest)
  {
    if w == [] {
      assert w + rest == rest;
    } else {
      assert (w + rest)[0] == w[0] && (w + rest)[1..] == w[1..] + rest;
      LexSpace(w[1..], rest);
    }
  }

  lemma {:induction false} ScanClean(s: string, rest: string)
    requires Clean(s)
    ensures ScanText(s + ("\"" + rest)) == Scan(s, |s|)
  {
    if s == [] {
      assert s + ("\"" + rest) == "\"" + rest;
    } else {
      var all := s + ("\"" + rest);
      assert all[0] == s[0] && all[1..] == s[1..] + ("\"" + rest);
      ScanClean(s[1..], rest);
      assert Unescaped(s[0]) && s[0] in s;
      assert ScanText(all) == Behind([s[0]], 1, ScanText(all[1..]));
      assert [s[0]] + s[1..] == s;
    }
  }

  lemma LexFront(s: string, t: Token, rest: string)
    requires s != [] && FrontOf(s + rest) == Front(t, |s|)
    ensures Lex(s + rest) == Cons(t, Lex(rest))
  {
    assert (s + rest)[|s|..] == rest;
  }

  lemma LexText(s: string, rest: string)
    requires Clean(s)
    ensures Lex("\"" + s + "\"" + rest) == Cons(Text(s), Lex(rest))
  {
    hide Lex, ScanText;
    var all := "\"" + s + "\"" + rest;
    assert all == ("\"" + s + "\"") + rest;
    assert all[1..] == s + ("\"" + rest);
    ScanClean(s, rest);
    LexFront("\"" + s + "\"", Text(s), rest);
  }

  lemma LexToken(t: Token, rest: string)
    requires !t.Number? && (t.Text? ==> Clean(t.s))
    ensures Lex(Spell(t) + rest) == Cons(t, Lex(rest))
  {
    hide Lex, ScanText, NumberLength;
    var all := Spell(t) + rest;
    match t
    case Text(s) => LexText(s, rest);
    case True => assert "true" <= all && all[0] == 't'; LexFront("true", t, rest);
    case False => assert "false" <= all && all[0] == 'f'; LexFront("false", t, rest);
    case Null => assert "null" <= all && all[0] == 'n'; LexFront("null", t, rest);
    case LBrace | RBrace | LBracket | RBracket | Colon | Comma =>
      assert all[0] == Spell(t)[0];
      LexFront(Spell(t), t, rest);
  }

  lemma LexPiece(p: Piece, rest: string)
    requires ValidPiece(p)
    ensures Lex(SpellPiece(p) + rest) == if p.Tok? then Cons(p.t, Lex(rest)) else Lex(rest)
  {
    match p
    case Space(w) => LexSpace(w, rest);
    case Tok(t) => LexToken(t, rest);
  }

  function Prepend(ts: seq<Token>, l: Lexed): Lexed
  {
    if l.Tokens? then Tokens(ts + l.ts) else Unreadable
  }

  /** Lexing undoes spelling, whatever follows. */
  lemma {:induction false} LexSpelled(ps: seq<Piece>, rest: string)
    requires forall p <- ps :: ValidPiece(p)
    ensures Lex(SpellAll(ps) + rest) == Prepend(TokensOf(ps), Lex(rest))
  {
    hide Lex, SpellPiece, ValidPiece;
    if ps == [] {
      assert SpellAll(ps) + rest == rest;
    } else {
      var tail := SpellAll(ps[1..]) + rest;
      assert SpellAll(ps) + rest == SpellPiece(ps[0]) + tail;
      assert ValidPiece(ps[0]);
      LexSpelled(ps[1..], rest);
      LexPiece(ps[0], tail);
    }
  }

  lemma SpellCons(p: Piece, ps: seq<Piece>)
    ensures SpellAll([p] + ps) == SpellPiece(p) + SpellAll(ps)
    ensures TokensOf([p] + ps) == (if p.Tok? then [p.t] else []) + TokensOf(ps)
  {
    assert ([p] + ps)[1..] == ps;
  }

  lemma {:induction false} SpellConcat(a: seq<Piece>, b: seq<Piece>)
    ensures SpellAll(a + b) == SpellAll(a) + SpellAll(b)
    ensures TokensOf(a + b) == TokensOf(a) + TokensOf(b)
  {
    if a == [] {
      assert a + b == b;
    } else {
      hide SpellPiece, SpellAll, TokensOf;
      var p, rest := a[0], a[1..];
      assert a == [p] + rest && a + b == [p] + (rest + b);
      SpellConcat(rest, b);
      SpellCons(p, rest);
      SpellCons(p, rest + b);
      Assoc(SpellPiece(p), SpellAll(rest), SpellAll(b));
      Assoc(if p.Tok? then [p.t] else [], TokensOf(rest), TokensOf(b));
    }
  }

  // ------------------------------------------------------------- what is refused

  /** Four characters are skipped between tokens; other control characters are
      refused, and so is anything no token begins with. */
  lemma Blanks(c: char, s: string)
    ensures c == ' ' || c == '\t' || c == '\n' || c == '\r' ==> Lex([c] + s) == Lex(s)
    ensures c < ' ' && c != '\t' && c != '\n' && c != '\r' ==> Lex([c] + s) == Unreadable
    ensures c == '\'' || c == '+' || c == '.' || c == ';' ==> Lex([c] + s) == Unreadable
  {
    hide IntegerLength, FractionLength, ExponentLength;
    assert ([c] + s)[1..] == s && ([c] + s)[0..] == [c] + s;
    if !Digit(c) && c != '-' {
      NotANumber(c, s);
    }
  }

  lemma NotANumber(c: char, s: string)
    requires !Digit(c) && c != '-'
    ensures NumberLength([c] + s) == 0
  {
    assert ([c] + s)[0..] == [c] + s;
  }

  /** The three words. */
  lemma Words(rest: string)
    ensures Lex("true" + rest) == Cons(True, Lex(rest)) && Lex("false" + rest) == Cons(False, Lex(rest))
    ensures Lex("null" + rest) == Cons(Null, Lex(rest))
  {
    LexToken(True, rest);
    LexToken(False, rest);
    LexToken(Null, rest);
  }

  /** No comma stands in front of a closing bracket. */
  predicate NoTrailingComma(ts: seq<Token>, n: nat)
    requires n <= |ts|
  {
    forall i :: 0 <= i && i + 1 < n && ts[i] == Comma ==> ts[i + 1] != RBrace && ts[i + 1] != RBracket
  }

  lemma NoTrailingCommaBehind(ts: seq<Token>, m: nat, n: nat)
    requires m <= n <= |ts| && NoTrailingComma(ts, m)
    requires m < n ==> NoTrailingComma(ts[m..], n - m)
    requires 0 < m < n && ts[m - 1] == Comma ==> ts[m] != RBrace && ts[m] != RBracket
    ensures NoTrailingComma(ts, n)
  {
    forall i | 0 <= i && i + 1 < n && ts[i] == Comma ensures ts[i + 1] != RBrace && ts[i + 1] != RBracket {
      if i >= m {
        assert ts[m..][i - m] == ts[i] && ts[m..][i - m + 1] == ts[i + 1];
      }
    }
  }

  /** A value that is read takes up tokens without a trailing comma, and does not
      begin with a closing bracket. */
  lemma {:induction false} ValueHasNoTrailingComma(ts: seq<Token>) returns (n: nat)
    requires ParseValue(ts).Ok?
    ensures 0 < n <= |ts| && ParseValue(ts).rest == ts[n..] && NoTrailingComma(ts, n)
    ensures ts[0] != RBrace && ts[0] != RBracket && ts[n - 1] != Comma
    decreases |ts|, 0
  {
    if ts[0] == LBrace && !(|ts| >= 2 && ts[1] == RBrace) {
      var m := MembersHaveNoTrailingComma(ts[1..]);
      n := m + 1;
      NoTrailingCommaBehind(ts, 1, n);
    } else if ts[0] == LBracket && !(|ts| >= 2 && ts[1] == RBracket) {
      var m := ElementsHaveNoTrailingComma(ts[1..]);
      n := m + 1;
      NoTrailingCommaBehind(ts, 1, n);
    } else {
      n := if ts[0] == LBrace || ts[0] == LBracket then 2 else 1;
    }
  }

  lemma MembersStep(ts: seq<Token>)
    requires ParseMembers(ts).Ok?
    ensures |ts| >= 2 && ts[0].Text? && ts[1] == Colon
    ensures var v := ParseValue(ts[2..]);
      && v.Ok? && v.rest != []
      && (v.rest[0] == RBrace ==> ParseMembers(ts).rest == v.rest[1..])
      && (v.rest[0] != RBrace ==>
            v.rest[0] == Comma && ParseMembers(v.rest[1..]).Ok?
            && ParseMembers(ts).rest == ParseMembers(v.rest[1..]).rest)
  {
  }

  lemma {:induction false} MembersHaveNoTrailingComma(ts: seq<Token>) returns (n: nat)
    requires ParseMembers(ts).Ok?
    ensures 0 < n <= |ts| && ParseMembers(ts).rest == ts[n..] && NoTrailingComma(ts, n)
    ensures ts[0] != RBrace && ts[0] != RBracket && ts[n - 1] != Comma
    decreases |ts|, 1
  {
    hide ParseMembers, ParseValue, NoTrailingComma;
    MembersStep(ts);
    var k := FirstMember(ts);
    NoTrailingCommaOne(ts, k + 2);
    n := k + 3;
    if ts[k + 2] != RBrace {
      var tail := ts[k + 3..];
      var more := MembersHaveNoTrailingComma(tail);
      n := n + more;
      NoTrailingCommaBehind(ts, k + 3, n);
      Suffix(ts, k + 3, more);
      assert tail[more - 1] == ts[n - 1];
    }
  }

  /** The name, the colon and the value of the first member. */
  lemma {:induction false} FirstMember(ts: seq<Token>) returns (k: nat)
    requires |ts| >= 2 && ts[0].Text? && ts[1] == Colon
    requires ParseValue(ts[2..]).Ok? && ParseValue(ts[2..]).rest != []
    ensures 0 < k && k + 2 < |ts| && ts[k + 1] != Comma && NoTrailingComma(ts, k + 2)
    ensures var rest := ParseValue(ts[2..]).rest; rest[0] == ts[k + 2] && rest[1..] == ts[k + 3..]
    decreases |ts|, 0
  {
    hide ParseValue, NoTrailingComma;
    k := ValueHasNoTrailingComma(ts[2..]);
    Suffix(ts, 2, k);
    Suffix(ts, k + 2, 1);
    FirstTwo(ts, k);
    assert ts[k + 1] == ts[2..][k - 1];
  }

  lemma FirstTwo(ts: seq<Token>, k: nat)
    requires 2 + k <= |ts| && ts[0] != Comma && ts[1] != Comma && NoTrailingComma(ts[2..], k)
    ensures NoTrailingComma(ts, k + 2)
  {
    forall i | 0 <= i && i + 1 < k + 2 && ts[i] == Comma ensures ts[i + 1] != RBrace && ts[i + 1] != RBracket {
      assert ts[2..][i - 2] == ts[i] && ts[2..][i - 1] == ts[i + 1];
    }
  }

  lemma ElementsStep(ts: seq<Token>)
    requires ParseElements(ts).Ok?
    ensures var v := ParseValue(ts);
      && v.Ok? && v.rest != []
      && (v.rest[0] == RBracket ==> ParseElements(ts).rest == v.rest[1..])
      && (v.rest[0] != RBracket ==>
            v.rest[0] == Comma && ParseElements(v.rest[1..]).Ok?
            && ParseElements(ts).rest == ParseElements(v.rest[1..]).rest)
  {
  }

  lemma {:induction false} ElementsHaveNoTrailingComma(ts: seq<Token>) returns (n: nat)
    requires ParseElements(ts).Ok?
    ensures 0 < n <= |ts| && ParseElements(ts).rest == ts[n..] && NoTrailingComma(ts, n)
    ensures ts[0] != RBrace && ts[0] != RBracket && ts[n - 1] != Comma
    decreases |ts|, 1
  {
    hide ParseElements, ParseValue, NoTrailingComma;
    ElementsStep(ts);
    var rest := ParseValue(ts).rest;
    var k := ValueHasNoTrailingComma(ts);
    Suffix(ts, k, 1);
    assert rest[0] == ts[k];
    NoTrailingCommaOne(ts, k);
    n := k + 1;
    if rest[0] != RBracket {
      var more := ElementsHaveNoTrailingComma(rest[1..]);
      n := n + more;
      NoTrailingCommaBehind(ts, k + 1, n);
      Suffix(ts, k + 1, more);
      assert ts[k + 1..][more - 1] == ts[n - 1];
    }
  }

  lemma NoTrailingCommaOne(ts: seq<Token>, n: nat)
    requires 0 < n < |ts| && NoTrailingComma(ts, n) && ts[n - 1] != Comma
    ensures NoTrailingComma(ts, n + 1)
  {
  }

  /** So a text with a comma in front of a closing bracket is not valid. */
  lemma TrailingCommaIsInvalid(s: string, ts: seq<Token>, i: nat)
    requires Lex(s) == Tokens(ts) && i + 1 < |ts| && ts[i] == Comma && (ts[i + 1] == RBrace || ts[i + 1] == RBracket)
    ensures Read(s) == Invalid
  {
    hide Lex, ParseValue;
    if Read(s).Document? {
      var n := ValueHasNoTrailingComma(ts);
    }
  }

  // --------------------------------------------------------------------- escapes

  /** The escapes of two characters. */
  lemma ShortEscapes(c: char, rest: string)
    requires c in "\"\\/bfnrt"
    ensures var meant := match c case 'b' => '\U{8}' case 'f' => '\U{C}' case 'n' => '\U{A}' case 'r' => '\U{D}'
                         case 't' => '\U{9}' case _ => c;
      ScanText("\\" + [c] + "\"" + rest) == Scan([meant], 2)
  {
    var s := "\\" + [c] + "\"" + rest;
    assert s[0] == '\\' && s[1] == c && s[2] == '"';
    assert s[1..][0] == c && s[2..][0] == '"';
    assert ScanText(s[2..]) == Scan([], 0);
  }

  lemma ScanBackslash(s: string)
    requires s != [] && s[0] == '\\' && ScanEscape(s[1..]).Scan?
    ensures var e := ScanEscape(s[1..]); ScanText(s) == Behind(e.text, 1 + e.size, ScanText(s[1 + e.size..]))
  {
  }

  lemma ScanClosed(rest: string)
    ensures ScanText(['"'] + rest) == Scan([], 0)
  {
  }

  lemma EscapeThenQuote(s: string, n: nat, meant: char)
    requires |s| == n + 2 && s[0] == '\\' && s[n + 1] == '"' && ScanEscape(s[1..]) == Scan([meant], n)
    ensures ScanText(s) == Scan([meant], 1 + n)
  {
    hide ScanEscape, ScanText;
    ScanBackslash(s);
    assert s[1 + n..] == ['"'] + [];
    ScanClosed([]);
  }

  lemma HexOf(s: string)
    requires FourHexDigits(s)
    ensures HexNumber(s) == HexValue(s[0]) * 4096 + HexValue(s[1]) * 256 + HexValue(s[2]) * 16 + HexValue(s[3])
  {
  }

  /** The example of section 7: the G clef as a surrogate pair. */
  lemma GClef()
    ensures ScanText("\\uD834\\uDD1E\"") == Scan(['\U{1D11E}'], 12)
  {
    var s := "\\uD834\\uDD1E\"";
    var e := s[1..];
    assert e[0] == 'u' && e[5] == '\\' && e[6] == 'u' && |e| == 12;
    var high, low := e[1..], e[7..];
    assert high[0] == 'D' && high[1] == '8' && high[2] == '3' && high[3] == '4';
    assert low[0] == 'D' && low[1] == 'D' && low[2] == '1' && low[3] == 'E';
    HexOf(high);
    HexOf(low);
    hide HexNumber;
    assert ScanEscape(e) == Scan(['\U{1D11E}'], 11);
    EscapeThenQuote(s, 11, '\U{1D11E}');
  }

  /** Every other code point of four hexadecimal digits, for example the backslash. */
  lemma FourDigits()
    ensures ScanText("\\u005c\"") == Scan(['\\'], 6)
  {
    var s := "\\u005c\"";
    var e := s[1..];
    var hex := e[1..];
    assert e[0] == 'u' && hex[0] == '0' && hex[1] == '0' && hex[2] == '5' && hex[3] == 'c';
    HexOf(hex);
    hide HexNumber;
    assert ScanEscape(e) == Scan(['\\'], 5);
    EscapeThenQuote(s, 5, '\\');
  }

  /** Half a surrogate pair is broken. */
  lemma LoneSurrogate(rest: string)
    requires |rest| < 6 || rest[0] != '\\' || rest[1] != 'u'
    ensures ScanEscape("uD834" + rest) == Broken
  {
    var e := "uD834" + rest;
    var hex := e[1..];
    assert e[0] == 'u' && hex[0] == 'D' && hex[1] == '8' && hex[2] == '3' && hex[3] == '4';
    HexOf(hex);
    assert |rest| >= 6 ==> e[5] == rest[0] && e[6] == rest[1];
    hide HexNumber;
  }

  lemma {:induction false} DigitsOf(digits: string, rest: string)
    requires (forall c <- digits :: Digit(c)) && (rest == "" || !Digit(rest[0]))
    ensures Digits(digits + rest) == |digits|
  {
    var s := digits + rest;
    if digits == "" {
      assert s == rest;
    } else {
      assert s[0] == digits[0] && digits[0] in digits && s[1..] == digits[1..] + rest;
      DigitsOf(digits[1..], rest);
    }
  }

  predicate AllDigits(s: string) { s != "" && forall c <- s :: Digit(c) }

  predicate NoDigitNext(rest: string) { rest == "" || !Digit(rest[0]) }

  /** An integer is read as far as its digits go, a leading zero alone. */
  lemma Integers(digits: string, rest: string)
    requires AllDigits(digits) && NoDigitNext(rest)
    ensures digits[0] != '0' ==> IntegerLength(digits + rest) == |digits|
    ensures IntegerLength("0" + digits + rest) == 1
  {
    hide Digits;
    DigitsOf(digits, rest);
    assert (digits + rest)[0] == digits[0];
  }

  /** A fraction needs digits of its own. */
  lemma Fractions(digits: string, rest: string)
    requires AllDigits(digits) && NoDigitNext(rest)
    ensures FractionLength(['.'] + (digits + rest)) == 1 + |digits| && FractionLength(['.'] + rest) == 0
  {
    DigitsOf(digits, rest);
    DigitsOf("", rest);
    hide Digits, AllDigits, NoDigitNext;
    assert "" + rest == rest;
    assert (['.'] + (digits + rest))[1..] == digits + rest && (['.'] + rest)[1..] == rest;
  }

  /** So does an exponent, which may have a sign. */
  lemma Exponents(digits: string, rest: string)
    requires AllDigits(digits) && NoDigitNext(rest)
    ensures ExponentLength(['e'] + (digits + rest)) == 1 + |digits|
    ensures ExponentLength(['E', '-'] + (digits + rest)) == 2 + |digits|
    ensures ExponentLength(['e', '+'] + rest) == 0
  {
    DigitsOf(digits, rest);
    DigitsOf("", rest);
    assert "" + rest == rest;
    var tail := digits + rest;
    assert tail[0] == digits[0] && digits[0] in digits;
    Exponent(['e'], tail);
    Exponent(['E', '-'], tail);
    Exponent(['e', '+'], rest);
  }

  lemma Exponent(front: string, tail: string)
    requires front in [['e'], ['E', '-'], ['e', '+']]
    requires |front| == 1 ==> tail != "" && tail[0] !in "+-"
    ensures ExponentLength(front + tail) == if Digits(tail) == 0 then 0 else |front| + Digits(tail)
  {
    hide Digits;
    assert (front + tail)[|front|..] == tail;
  }

  /** A number may begin with a minus sign, and with nothing else but a digit. */
  lemma NumberFronts(c: char, rest: string)
    requires !Digit(c)
    ensures c != '-' ==> NumberLength([c] + rest) == 0
    ensures c == '-' ==> NumberLength([c] + rest) == if IntegerLength(rest) == 0 then 0 else 1 + NumberLength(rest)
  {
    hide FractionLength, ExponentLength;
    var s := [c] + rest;
    assert s[0..] == s && s[1..] == rest && rest[0..] == rest;
    if IntegerLength(rest) > 0 {
      var n := IntegerLength(rest);
      assert s[1 + n..] == rest[n..] && rest[0] != '-';
      var f := FractionLength(rest[n..]);
      assert s[1 + n + f..] == rest[n + f..];
    }
  }
}
