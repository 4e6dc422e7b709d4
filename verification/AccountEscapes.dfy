/** The account printer does not escape anything. A quotation mark, a backslash or
    a control character in any string is therefore lost: such accounts are never
    read back as they were, not even when the text happens to be valid JSON and
    whatever the strings contain. For a string literal that needs escapes is
    longer than what it says, so no literal in the file says what the longest of
    the unclean strings does. */
module AccountEscapes {
  import opened Seqs
  import opened Json
  import opened Accounts

  // ------------------------------------------------- what a string literal says

  /** What may stand between two quotation marks: a quotation mark only behind a
      backslash, and no control character. */
  predicate Content(x: string)
  {
    && (forall i :: 0 <= i < |x| && x[i] == '"' ==> i > 0 && x[i - 1] == '\\')
    && forall i :: 0 <= i < |x| ==> x[i] >= ' '
  }

  /** A literal says its content if that is clean, and something shorter if not. */
  predicate SaysAtMost(x: string, v: string)
  {
    Content(x) && if Clean(x) then v == x else |v| < |x|
  }

  lemma EscapeIsPrintable(s: string)
    requires ScanEscape(s).Scan?
    ensures forall i :: 0 <= i < ScanEscape(s).size ==> s[i] >= ' '
    ensures forall i :: 0 < i < ScanEscape(s).size ==> s[i] != '"'
  {
    hide HexNumber;
    var r := ScanEscape(s);
    if r.size == 5 {
      assert FourHexDigits(s[1..]);
      assert s[1..][0] == s[1] && s[1..][1] == s[2] && s[1..][2] == s[3] && s[1..][3] == s[4];
    } else if r.size == 11 {
      assert FourHexDigits(s[1..]) && FourHexDigits(s[7..]);
      assert s[1..][0] == s[1] && s[1..][1] == s[2] && s[1..][2] == s[3] && s[1..][3] == s[4];
      assert s[7..][0] == s[7] && s[7..][1] == s[8] && s[7..][2] == s[9] && s[7..][3] == s[10];
    }
  }

  lemma OneMoreCharacter(c: char, x: string, v: string)
    requires Unescaped(c) && SaysAtMost(x, v)
    ensures SaysAtMost([c] + x, [c] + v)
  {
    var y := [c] + x;
    forall i | 0 <= i < |y| && y[i] == '"' ensures i > 0 && y[i - 1] == '\\' {
      assert x[i - 1] == '"';
    }
    assert Clean(y) <==> Clean(x) by {
      assert forall d <- x :: d in y;
      assert forall d <- y :: d == c || d in x;
    }
  }

  lemma OneMoreEscape(e: string, said: string, x: string, v: string)
    requires |said| <= |e| && e != [] && SaysAtMost(x, v)
    requires forall i :: 0 <= i < |e| ==> e[i] >= ' '
    requires forall i :: 0 < i < |e| ==> e[i] != '"'
    ensures SaysAtMost("\\" + e + x, said + v)
  {
    var y := "\\" + e + x;
    var k := 1 + |e|;
    assert forall i :: 1 <= i < k ==> y[i] == e[i - 1];
    assert forall i :: k <= i < |y| ==> y[i] == x[i - k];
    forall i | 0 <= i < |y| && y[i] == '"' ensures i > 0 && y[i - 1] == '\\' {
      if i < k {
        assert e[i - 1] == '"';
      } else {
        assert x[i - k] == '"';
      }
    }
    assert y[0] == '\\' && y[0] in y && !Unescaped('\\');
  }

  /** One character, or one escape, of a literal. */
  lemma ScanOne(s: string)
    requires ScanText(s).Scan?
    ensures s != []
    ensures s[0] == '"' ==> ScanText(s) == Scan([], 0)
    ensures s[0] != '"' && Unescaped(s[0]) ==>
      ScanText(s) == Behind([s[0]], 1, ScanText(s[1..])) && ScanText(s[1..]).Scan?
    ensures s[0] != '"' && !Unescaped(s[0]) ==>
      var e := ScanEscape(s[1..]);
      && s[0] == '\\' && e.Scan? && ScanText(s[1 + e.size..]).Scan?
      && ScanText(s) == Behind(e.text, 1 + e.size, ScanText(s[1 + e.size..]))
  {
  }

  lemma Prefix(s: string, k: nat, n: nat)
    requires k + n <= |s|
    ensures s[..k + n] == s[..k] + s[k..][..n]
  {
  }

  lemma ScanEscaped(s: string, e: Scan, n: nat, v: string)
    requires s != [] && s[0] == '\\' && e == ScanEscape(s[1..]) && e.Scan?
    requires 1 + e.size + n <= |s| && SaysAtMost(s[1 + e.size..][..n], v)
    ensures SaysAtMost(s[..1 + e.size + n], e.text + v)
  {
    hide SaysAtMost, ScanEscape;
    var x := s[1..][..e.size];
    EscapeIsPrintable(s[1..]);
    OneMoreEscape(x, e.text, s[1 + e.size..][..n], v);
    Prefix(s, 1 + e.size, n);
    assert s[..1 + e.size] == "\\" + x;
  }

  lemma ScanUnescaped(s: string, n: nat, v: string)
    requires s != [] && Unescaped(s[0]) && 1 + n <= |s| && SaysAtMost(s[1..][..n], v)
    ensures SaysAtMost(s[..1 + n], [s[0]] + v)
  {
    hide SaysAtMost, Unescaped;
    OneMoreCharacter(s[0], s[1..][..n], v);
    Prefix(s, 1, n);
    assert s[..1] == [s[0]];
  }

  lemma {:induction false} ScanSays(s: string)
    requires ScanText(s).Scan?
    ensures SaysAtMost(s[..ScanText(s).size], ScanText(s).text)
    decreases |s|
  {
    hide ScanText, SaysAtMost, ScanEscape, Unescaped;
    ScanOne(s);
    if s[0] == '"' {
      EmptySays();
      assert s[..0] == [];
    } else if Unescaped(s[0]) {
      var r := ScanText(s[1..]);
      ScanSays(s[1..]);
      ScanUnescaped(s, r.size, r.text);
    } else {
      var e := ScanEscape(s[1..]);
      var r := ScanText(s[1 + e.size..]);
      ScanSays(s[1 + e.size..]);
      ScanEscaped(s, e, r.size, r.text);
    }
  }

  lemma EmptySays()
    ensures SaysAtMost([], [])
  {
  }

  // ----------------------------------------------------------- tokens of a text

  /** The text has a literal from one quotation mark to the other. */
  predicate Literal(s: string, from: nat, to: nat)
  {
    from < to < |s| && s[from] == '"' == s[to] && Content(s[from + 1..to])
  }

  lemma LiteralBehind(s: string, k: nat, from: nat, to: nat)
    requires k <= |s| && Literal(s[k..], from, to)
    ensures Literal(s, k + from, k + to)
    ensures s[k..][from + 1..to] == s[k + from + 1..k + to]
  {
    assert s[k..][from + 1..to] == s[k + from + 1..k + to];
  }

  /** Every string token was read from a literal. */
  lemma {:induction false} TextComesFromLiteral(s: string, ts: seq<Token>, v: string) returns (from: nat, to: nat)
    requires Lex(s) == Tokens(ts) && Text(v) in ts
    ensures Literal(s, from, to) && SaysAtMost(s[from + 1..to], v)
    decreases |s|
  {
    hide FrontOf, SaysAtMost, Content;
    match FrontOf(s)
    case Blank =>
      from, to := TextComesFromLiteral(s[1..], ts, v);
      LiteralBehind(s, 1, from, to);
      from, to := 1 + from, 1 + to;
    case Front(t, size) =>
      if t == Text(v) {
        TextInFront(s, v, size);
        from, to := 0, size - 1;
      } else {
        assert ts == [t] + ts[1..] && Text(v) in ts[1..];
        from, to := TextComesFromLiteral(s[size..], ts[1..], v);
        LiteralBehind(s, size, from, to);
        from, to := size + from, size + to;
      }
  }

  lemma TextInFront(s: string, v: string, size: nat)
    requires s != [] && FrontOf(s) == Front(Text(v), size)
    ensures 2 <= size && Literal(s, 0, size - 1) && SaysAtMost(s[1..size - 1], v)
  {
    hide ScanText, SaysAtMost, Content, NumberLength;
    var r := ScanText(s[1..]);
    ScanSays(s[1..]);
    assert s[1..][..r.size] == s[1..size - 1];
    ContentOf(s[1..size - 1], v);
  }

  lemma ContentOf(x: string, v: string)
    requires SaysAtMost(x, v)
    ensures Content(x)
  {
  }

  lemma {:induction false} NumbersAreClean(s: string, ts: seq<Token>, v: string)
    requires Lex(s) == Tokens(ts) && Number(v) in ts
    ensures Clean(v)
    decreases |s|
  {
    match FrontOf(s)
    case Blank => NumbersAreClean(s[1..], ts, v);
    case Front(t, size) =>
      if t != Number(v) {
        assert ts == [t] + ts[1..];
        NumbersAreClean(s[size..], ts[1..], v);
      } else {
        NumberInFront(s, v, size);
      }
  }

  lemma NumberInFront(s: string, v: string, size: nat)
    requires s != [] && FrontOf(s) == Front(Number(v), size)
    ensures Clean(v)
  {
    hide ScanText;
    var n := NumberLength(s);
    assert v == s[..n];
  }

  // ------------------------------------------------------------ lines of the file

  /** The literals of a line are clean or not longer than this. */
  ghost predicate Tame(line: string, longest: nat)
  {
    forall from: nat, to: nat :: Literal(line, from, to) ==> Clean(line[from + 1..to]) || to - from - 1 <= longest
  }

  /** A literal does not go beyond its line. */
  lemma {:induction false} LiteralIsInLine(lines: seq<string>, from: nat, to: nat)
    returns (j: nat, a: nat, b: nat)
    requires Literal(FileText(lines), from, to)
    ensures j < |lines| && Literal(lines[j], a, b)
    ensures lines[j][a + 1..b] == FileText(lines)[from + 1..to]
  {
    hide Content;
    var s := FileText(lines);
    var line, rest := lines[0], FileText(lines[1..]);
    assert s == line + "\n" + rest;
    if from < |line| {
      InFirstLine(line, rest, from, to);
      assert s == line + ("\n" + rest);
      SliceBefore(line, "\n" + rest, from + 1, to);
      j, a, b := 0, from, to;
    } else {
      var head, k := line + "\n", |line| + 1;
      assert s[|line|] == '\n';
      SliceBehind(head, rest, from - k + 1, to - k);
      assert rest[from - k] == s[from] && rest[to - k] == s[to];
      j, a, b := LiteralIsInLine(lines[1..], from - k, to - k);
      j := j + 1;
    }
  }

  lemma InFirstLine(line: string, rest: string, from: nat, to: nat)
    requires Literal(line + "\n" + rest, from, to) && from < |line|
    ensures to < |line|
  {
    var s := line + "\n" + rest;
    assert s[|line|] == '\n';
    forall i | from < i < to ensures s[i] >= ' ' {
      assert s[from + 1..to][i - from - 1] == s[i];
    }
  }

  /** A line that has its only unclean characters inside one printed string. */
  lemma OneString(before: string, s: string, behind: string, longest: nat)
    requires before != "" && before[|before| - 1] == '"' && '\\' !in before
    requires forall c <- before :: c >= ' '
    requires behind != "" && behind[0] == '"' && '"' !in behind[1..]
    requires Clean(s) || |s| <= longest
    ensures Tame(before + s + behind, longest)
  {
    var line := before + s + behind;
    var p, q := |before|, |before| + |s|;
    forall a: nat, b: nat | Literal(line, a, b)
      ensures Clean(line[a + 1..b]) || b - a - 1 <= longest
    {
      var x := line[a + 1..b];
      NoQuoteBehind(before, s, behind, b);
      if b < p {
        assert forall i :: 0 <= i < |x| ==> x[i] == before[a + 1 + i];
        ContentWithoutBackslash(x);
      } else if a < p - 1 {
        NotAcross(line, a, b, p - 1);
      } else if Clean(s) {
        QuoteInClean(before, s, behind, a, b);
        assert x == s;
      }
    }
  }

  lemma NoQuoteBehind(before: string, s: string, behind: string, b: nat)
    requires behind != "" && '"' !in behind[1..]
    requires b < |before + s + behind| && (before + s + behind)[b] == '"'
    ensures b <= |before| + |s|
  {
    var line, q := before + s + behind, |before| + |s|;
    forall i | q < i < |line| ensures line[i] in behind[1..] {
      assert line[i] == behind[1..][i - q - 1];
    }
  }

  lemma ContentWithoutBackslash(x: string)
    requires Content(x) && '\\' !in x
    ensures Clean(x)
  {
    forall i | 0 <= i < |x| ensures x[i] != '\\' {
      assert x[i] in x;
    }
    forall i | 0 <= i < |x| ensures x[i] != '"' {
      assert i == 0 || x[i - 1] != '\\';
    }
  }

  /** A literal does not extend over a quotation mark without a backslash. */
  lemma NotAcross(line: string, a: nat, b: nat, k: nat)
    requires Literal(line, a, b) && a < k < b && line[k] == '"'
    ensures line[k - 1] == '\\' && a < k - 1
  {
    assert line[a + 1..b][k - a - 1] == '"';
    assert line[a + 1..b][k - a - 2] == line[k - 1];
  }

  lemma QuoteInClean(before: string, s: string, behind: string, a: nat, b: nat)
    requires before != "" && behind != "" && Clean(s)
    requires var line := before + s + behind;
      |before| - 1 <= a < b <= |before| + |s| && line[a] == '"' == line[b]
    ensures a == |before| - 1 && b == |before| + |s|
  {
    var line, p := before + s + behind, |before|;
    forall i | 0 <= i < |s| ensures s[i] != '"' {
      assert Unescaped(s[i]);
    }
    assert forall i :: p <= i < p + |s| ==> line[i] == s[i - p];
  }

  /** A line without backslashes has clean literals only. */
  lemma NoBackslash(line: string, longest: nat)
    requires '\\' !in line
    ensures Tame(line, longest)
  {
    forall a: nat, b: nat | Literal(line, a, b) ensures Clean(line[a + 1..b]) {
      var x := line[a + 1..b];
      assert forall i :: 0 <= i < |x| ==> x[i] == line[a + 1 + i];
      ContentWithoutBackslash(x);
    }
  }

  // -------------------------------------------------------------- what is loaded

  /** A string, a number's text or a name anywhere in a value. */
  predicate Says(v: Value, s: string)
    decreases v
  {
    match v
    case Obj(ms) => exists i :: 0 <= i < |ms| && (ms[i].key == s || Says(ms[i].value, s))
    case Arr(vs) => exists i :: 0 <= i < |vs| && Says(vs[i], s)
    case Str(t) => s == t
    case Num(t) => s == t
    case _ => false
  }

  predicate MemberSays(m: Member, s: string) { m.key == s || Says(m.value, s) }

  predicate InTokens(ts: seq<Token>, s: string) { Text(s) in ts || Number(s) in ts }

  lemma InSuffix(ts: seq<Token>, k: nat, s: string)
    requires k <= |ts| && InTokens(ts[k..], s)
    ensures InTokens(ts, s)
  {
  }

  /** A value says nothing that is not in its tokens. */
  lemma {:induction false} ValueSays(ts: seq<Token>, v: Value, s: string)
    requires ParseValue(ts).Ok? && ParseValue(ts).v == v && Says(v, s)
    ensures InTokens(ts, s)
    decreases |ts|, 0
  {
    hide InTokens;
    match v
    case Obj(ms) =>
      var i :| 0 <= i < |ms| && (ms[i].key == s || Says(ms[i].value, s));
      MembersSay(ts[1..], i, s);
      InSuffix(ts, 1, s);
    case Arr(vs) =>
      var i :| 0 <= i < |vs| && Says(vs[i], s);
      ElementsSay(ts[1..], i, s);
      InSuffix(ts, 1, s);
    case _ => ScalarSays(ts, s);
  }

  lemma ScalarSays(ts: seq<Token>, s: string)
    requires ts != [] && (ts[0] == Text(s) || ts[0] == Number(s))
    ensures InTokens(ts, s)
  {
  }

  lemma {:induction false} MembersSay(ts: seq<Token>, i: nat, s: string)
    requires ParseMembers(ts).Ok? && i < |ParseMembers(ts).v| && MemberSays(ParseMembers(ts).v[i], s)
    ensures InTokens(ts, s)
    decreases |ts|, 1
  {
    hide InTokens, Says;
    var v := ParseValue(ts[2..]);
    if i == 0 {
      if ts[0].s == s {
        ScalarSays(ts, s);
      } else {
        ValueSays(ts[2..], v.v, s);
        InSuffix(ts, 2, s);
      }
    } else {
      MembersSay(v.rest[1..], i - 1, s);
      RestSays(ts[2..], s);
      InSuffix(ts, 2, s);
    }
  }

  /** What is said behind a value is said by the tokens it is read from. */
  lemma RestSays(ts: seq<Token>, s: string)
    requires ParseValue(ts).Ok? && ParseValue(ts).rest != [] && InTokens(ParseValue(ts).rest[1..], s)
    ensures InTokens(ts, s)
  {
    hide ParseValue;
    var rest := ParseValue(ts).rest;
    var k := RestIsSuffix(ts);
    InSuffix(rest, 1, s);
    InSuffix(ts, k, s);
  }

  lemma {:induction false} RestIsSuffix(ts: seq<Token>) returns (k: nat)
    requires ParseValue(ts).Ok?
    ensures k <= |ts| && ParseValue(ts).rest == ts[k..]
    decreases |ts|, 0
  {
    if ts[0] == LBrace && !(|ts| >= 2 && ts[1] == RBrace) {
      k := MembersRest(ts[1..]);
      k := k + 1;
    } else if ts[0] == LBracket && !(|ts| >= 2 && ts[1] == RBracket) {
      k := ElementsRest(ts[1..]);
      k := k + 1;
    } else {
      k := if ts[0] == LBrace || ts[0] == LBracket then 2 else 1;
    }
  }

  lemma {:induction false} MembersRest(ts: seq<Token>) returns (k: nat)
    requires ParseMembers(ts).Ok?
    ensures k <= |ts| && ParseMembers(ts).rest == ts[k..]
    decreases |ts|, 1
  {
    var v := ParseValue(ts[2..]);
    k := RestIsSuffix(ts[2..]);
    if v.rest[0] == Comma {
      var more := MembersRest(v.rest[1..]);
      k := k + 3 + more;
    } else {
      k := k + 3;
    }
  }

  lemma {:induction false} ElementsRest(ts: seq<Token>) returns (k: nat)
    requires ParseElements(ts).Ok?
    ensures k <= |ts| && ParseElements(ts).rest == ts[k..]
    decreases |ts|, 1
  {
    var v := ParseValue(ts);
    k := RestIsSuffix(ts);
    if v.rest[0] == Comma {
      var more := ElementsRest(v.rest[1..]);
      k := k + 1 + more;
    } else {
      k := k + 1;
    }
  }

  lemma {:induction false} ElementsSay(ts: seq<Token>, i: nat, s: string)
    requires ParseElements(ts).Ok? && i < |ParseElements(ts).v| && Says(ParseElements(ts).v[i], s)
    ensures InTokens(ts, s)
    decreases |ts|, 1
  {
    hide InTokens, Says;
    var v := ParseValue(ts);
    if i == 0 {
      ValueSays(ts, v.v, s);
    } else {
      ElementsSay(v.rest[1..], i - 1, s);
      RestSays(ts, s);
    }
  }

  /** Unclean strings in a document come from literals. */
  lemma DocumentSays(text: string, v: Value, s: string) returns (from: nat, to: nat)
    requires Read(text) == Document(v) && Says(v, s) && !Clean(s)
    ensures Literal(text, from, to) && SaysAtMost(text[from + 1..to], s)
  {
    hide Lex, ParseValue, Says, SaysAtMost, Literal;
    var ts := Lex(text).ts;
    ValueSays(ts, v, s);
    if Number(s) in ts {
      NumbersAreClean(text, ts, s);
    }
    from, to := TextComesFromLiteral(text, ts, s);
  }

  // ------------------------------------------------------ strings of the accounts

  function AccountStrings(name: string, a: Account): set<string>
  {
    {name, a.password, a.firstName, a.lastName} + a.groups
  }

  predicate Held(m: map<string, Account>, s: string) { exists n <- m :: s in AccountStrings(n, m[n]) }

  lemma DataSaid(v: Value, s: string)
    requires Data(v) == s && !Clean(s)
    ensures Says(v, s)
  {
    assert Clean("true") && Clean("false") && Clean("null") && Clean("");
  }

  lemma ChildSaid(v: Value, i: nat, s: string)
    requires i < |Children(v)| && (Says(Children(v)[i].value, s) || (Children(v)[i].key == s && !Clean(s)))
    ensures Says(v, s)
  {
    assert Clean("");
  }

  lemma {:induction false} FoundAt(ms: seq<Member>, key: string) returns (i: nat)
    requires Child(ms, key).Found?
    ensures i < |ms| && ms[i].value == Child(ms, key).v
  {
    if ms[0].key == key {
      i := 0;
    } else {
      i := FoundAt(ms[1..], key);
      i := i + 1;
    }
  }

  lemma FieldSaid(v: Value, key: string, s: string)
    requires Child(Children(v), key).Found? && Data(Child(Children(v), key).v) == s && !Clean(s)
    ensures Says(v, s)
  {
    hide Says, Data, Clean, Children;
    var i := FoundAt(Children(v), key);
    DataSaid(Child(Children(v), key).v, s);
    ChildSaid(v, i, s);
  }

  /** The account read from a value says nothing unclean but what the value says. */
  lemma AccountSaid(v: Value, name: string, s: string)
    requires AccountFrom(v).Has? && s in AccountStrings(name, AccountFrom(v).a) && s != name && !Clean(s)
    ensures Says(v, s)
  {
    hide Says, Data, Clean, Children;
    var a, ms := AccountFrom(v).a, Children(v);
    if s == a.password {
      FieldSaid(v, "password", s);
    } else if s == a.firstName {
      FieldSaid(v, "first-name", s);
    } else if s == a.lastName {
      FieldSaid(v, "last-name", s);
    } else {
      var gs := Child(ms, "groups").v;
      var g :| g in Children(gs) && Data(g.value) == s;
      var k :| 0 <= k < |Children(gs)| && Children(gs)[k] == g;
      DataSaid(g.value, s);
      ChildSaid(gs, k, s);
      var i := FoundAt(ms, "groups");
      ChildSaid(v, i, s);
    }
  }

  /** What is loaded is said by the members, unless it was there before. */
  lemma {:induction false} LoadedIsSaid(ms: seq<Member>, m: map<string, Account>, s: string) returns (i: nat)
    requires LoadMembers(ms, m).outcome == Success && Held(LoadMembers(ms, m).accounts, s)
    requires !Held(m, s) && !Clean(s)
    ensures i < |ms| && MemberSays(ms[i], s)
    decreases |ms|
  {
    hide AccountFrom, AccountStrings, Says, Clean;
    var name, a := ms[0].key, AccountFrom(ms[0].value);
    var next := m[name := a.a];
    if Held(next, s) {
      var n :| n in next && s in AccountStrings(n, next[n]);
      assert n == name;
      if s != name {
        AccountSaid(ms[0].value, name, s);
      }
      i := 0;
    } else {
      i := LoadedIsSaid(ms[1..], next, s);
      i := i + 1;
    }
  }

  // --------------------------------------------------------- the longest unclean one

  lemma {:induction false} LongestOf(strings: set<string>) returns (s: string)
    requires strings != {}
    ensures s in strings && forall t <- strings :: |t| <= |s|
    decreases |strings|
  {
    s :| s in strings;
    if strings != {s} {
      var t := LongestOf(strings - {s});
      s := if |s| < |t| then t else s;
    }
  }

  predicate NoLonger(m: map<string, Account>, longest: nat)
  {
    forall n <- m :: forall t <- AccountStrings(n, m[n]) :: Clean(t) || |t| <= longest
  }

  lemma LongestUnclean(m: map<string, Account>) returns (s: string)
    requires !CleanAccounts(m)
    ensures Held(m, s) && !Clean(s) && NoLonger(m, |s|)
  {
    hide Clean;
    var strings := set n, t | n in m && t in AccountStrings(n, m[n]) && !Clean(t) :: t;
    var n :| n in m && !(Clean(n) && Clean(m[n].password) && Clean(m[n].firstName) && Clean(m[n].lastName)
                        && forall g <- m[n].groups :: Clean(g));
    var a := m[n];
    assert {n, a.password, a.firstName, a.lastName} <= AccountStrings(n, a) && a.groups <= AccountStrings(n, a);
    var t :| t in AccountStrings(n, a) && !Clean(t);
    assert t in strings;
    s := LongestOf(strings);
  }

  // ----------------------------------------------------------- all lines are tame

  ghost predicate AllTame(pss: seq<seq<Piece>>, longest: nat)
  {
    forall i :: 0 <= i < |pss| ==> Tame(SpellAll(pss[i]), longest)
  }

  lemma ConcatTame(a: seq<seq<Piece>>, b: seq<seq<Piece>>, longest: nat)
    requires AllTame(a, longest) && AllTame(b, longest)
    ensures AllTame(a + b, longest)
  {
    hide Tame, SpellAll;
  }

  ghost predicate TameItem(i: Item, longest: nat)
  {
    && AllTame(i.body, longest)
    && Tame(SpellAll(i.last), longest) && Tame(SpellAll(i.last + [Tok(Comma)]), longest)
  }

  lemma {:induction false} SeparatedTame(items: seq<Item>, longest: nat)
    requires forall i :: 0 <= i < |items| ==> TameItem(items[i], longest)
    ensures AllTame(SeparatedLines(items), longest)
  {
    hide Tame, SpellAll;
    if items != [] {
      var i := items[0];
      assert TameItem(i, longest);
      if |items| == 1 {
        ConcatTame(i.body, [i.last], longest);
      } else {
        SeparatedTame(items[1..], longest);
        ConcatTame(i.body, [i.last + [Tok(Comma)]], longest);
        ConcatTame(i.body + [i.last + [Tok(Comma)]], SeparatedLines(items[1..]), longest);
      }
    }
  }

  predicate Short(s: string, longest: nat) { Clean(s) || |s| <= longest }

  lemma GroupTame(g: string, longest: nat)
    requires Short(g, longest)
    ensures TameItem(Item([], [Space("      "), Tok(Text(g))]), longest)
  {
    hide Tame, SpellAll;
    var ps := [Space("      "), Tok(Text(g))];
    Spell2(ps[0], ps[1]);
    SpellComma(ps);
    assert SpellAll(ps) == "      \"" + g + "\"";
    assert SpellAll(ps + [Tok(Comma)]) == "      \"" + g + "\",";
    OneString("      \"", g, "\"", longest);
    OneString("      \"", g, "\",", longest);
  }

  lemma {:induction false} GroupItemsAt(gs: seq<string>, i: nat)
    requires i < |gs|
    ensures |GroupItems(gs)| == |gs| && GroupItems(gs)[i] == Item([], [Space("      "), Tok(Text(gs[i]))])
  {
    if i > 0 {
      GroupItemsAt(gs[1..], i - 1);
    } else {
      GroupItemsLength(gs);
    }
  }

  lemma GroupsTame(gs: seq<string>, longest: nat)
    requires forall g <- gs :: Short(g, longest)
    ensures AllTame(SeparatedLines(GroupItems(gs)), longest)
  {
    hide Short, TameItem;
    GroupItemsLength(gs);
    forall i | 0 <= i < |gs| ensures TameItem(GroupItems(gs)[i], longest) {
      GroupItemsAt(gs, i);
      GroupTame(gs[i], longest);
    }
    SeparatedTame(GroupItems(gs), longest);
  }

  lemma TextLinesTame(a: Account, longest: nat)
    requires Short(a.password, longest) && Short(a.firstName, longest) && Short(a.lastName, longest)
    ensures Tame(SpellAll(Field("password", Text(a.password))), longest)
    ensures Tame(SpellAll(Field("first-name", Text(a.firstName))), longest)
    ensures Tame(SpellAll(Field("last-name", Text(a.lastName))), longest)
  {
    hide Tame, SpellAll, Field, Short;
    SpellTexts(a);
    ShortTame("    \"password\": \"", a.password, "\",", longest);
    ShortTame("    \"first-name\": \"", a.firstName, "\",", longest);
    ShortTame("    \"last-name\": \"", a.lastName, "\",", longest);
  }

  lemma OtherLinesTame(e: Entry, longest: nat)
    requires Short(e.name, longest)
    ensures Tame(SpellAll(NameLine(e.name)), longest)
    ensures Tame(SpellAll(Field("enabled", if e.account.enabled then True else False)), longest)
    ensures Tame(SpellAll(GROUPS_LINE), longest)
  {
    hide Tame, SpellAll, Field, NameLine, Short;
    SpellOthers(e);
    ShortTame("  \"", e.name, "\": {", longest);
    NoBackslash("    \"enabled\": true,", longest);
    NoBackslash("    \"enabled\": false,", longest);
    assert "    \"enabled\": " + "true" + "," == "    \"enabled\": true,";
    assert "    \"enabled\": " + "false" + "," == "    \"enabled\": false,";
    NoBackslash("    \"groups\": [", longest);
  }

  lemma FieldLinesTame(e: Entry, longest: nat)
    requires forall t <- AccountStrings(e.name, e.account) :: Short(t, longest)
    ensures AllTame(FieldLines(e), longest)
  {
    hide Tame, SpellAll, Field, NameLine, Short;
    var a := e.account;
    assert {e.name, a.password, a.firstName, a.lastName} <= AccountStrings(e.name, a);
    TextLinesTame(a, longest);
    OtherLinesTame(e, longest);
  }

  lemma ShortTame(before: string, s: string, behind: string, longest: nat)
    requires before != "" && before[|before| - 1] == '"' && '\\' !in before
    requires forall c <- before :: c >= ' '
    requires behind != "" && behind[0] == '"' && '"' !in behind[1..]
    requires Short(s, longest)
    ensures Tame(before + s + behind, longest)
  {
    OneString(before, s, behind, longest);
  }

  lemma EntryTame(e: Entry, longest: nat)
    requires forall t <- AccountStrings(e.name, e.account) :: Short(t, longest)
    requires ListsGroups(e.groups, e.account.groups)
    ensures TameItem(EntryItem(e), longest)
  {
    hide Tame, SpellAll, FieldLines, Short;
    FieldLinesTame(e, longest);
    forall g <- e.groups ensures Short(g, longest) {
      assert g in (set h <- e.groups);
    }
    GroupsTame(e.groups, longest);
    var close, end := [Space("    "), Tok(RBracket)], [Space("  "), Tok(RBrace)];
    Spell2(close[0], close[1]);
    Spell2(end[0], end[1]);
    SpellComma(end);
    NoBackslash("    ]", longest);
    NoBackslash("  }", longest);
    NoBackslash("  },", longest);
    assert "    " + "]" == "    ]" && "  " + "}" == "  }" && "  }" + "," == "  },";
    ConcatTame(FieldLines(e), SeparatedLines(GroupItems(e.groups)), longest);
    ConcatTame(FieldLines(e) + SeparatedLines(GroupItems(e.groups)), [close], longest);
  }

  lemma {:induction false} EntryItemsAt(es: seq<Entry>, i: nat)
    requires i < |es|
    ensures |EntryItems(es)| == |es| && EntryItems(es)[i] == EntryItem(es[i])
  {
    if i > 0 {
      EntryItemsAt(es[1..], i - 1);
    } else {
      EntryItemsLength(es);
    }
  }

  lemma DocumentTame(es: seq<Entry>, m: map<string, Account>, longest: nat)
    requires Lists(es, m) && NoLonger(m, longest)
    ensures AllTame(DocumentLines(es), longest)
  {
    hide Tame, SpellAll, TameItem, EntryItem, SeparatedLines, Clean;
    EntryItemsLength(es);
    forall i | 0 <= i < |es| ensures TameItem(EntryItems(es)[i], longest) {
      var e := es[i];
      assert e in es && e.name in m && e.account == m[e.name] && ListsGroups(e.groups, e.account.groups);
      EntryItemsAt(es, i);
      forall t <- AccountStrings(e.name, e.account) ensures Short(t, longest) {}
      EntryTame(e, longest);
    }
    SeparatedTame(EntryItems(es), longest);
    SpellBraces();
    NoBackslash("{", longest);
    NoBackslash("}", longest);
    ConcatTame([[Tok(LBrace)]], SeparatedLines(EntryItems(es)), longest);
    ConcatTame([[Tok(LBrace)]] + SeparatedLines(EntryItems(es)), [[Tok(RBrace)]], longest);
  }

  // ------------------------------------------------------------------ what is lost

  lemma TameLiteral(line: string, a: nat, b: nat, longest: nat)
    requires Tame(line, longest) && Literal(line, a, b)
    ensures Clean(line[a + 1..b]) || |line[a + 1..b]| <= longest
  {
  }

  lemma UncleanNeedsMore(x: string, s: string)
    requires SaysAtMost(x, s) && !Clean(s)
    ensures !Clean(x) && |s| < |x|
  {
  }

  /** Accounts with an unclean string are not loaded as they were saved. */
  lemma UncleanIsLost(es: seq<Entry>, m: map<string, Account>, before: map<string, Account>)
    requires Lists(es, m) && !CleanAccounts(m)
    ensures Load(FileText(SpellEach(DocumentLines(es))), before) != LoadResult(Success, m)
  {
    hide DocumentLines, Lists, CleanAccounts, Content, Says, LoadMembers, Clean, Held, FileText, Tame, SaysAtMost;
    var lines := SpellEach(DocumentLines(es));
    var text := FileText(lines);
    if Load(text, before) == LoadResult(Success, m) {
      var s := LongestUnclean(m);
      DocumentTame(es, m, |s|);
      var v := Read(text).v;
      NothingHeld(s);
      var i := LoadedIsSaid(Children(v), map[], s);
      ChildSaid(v, i, s);
      var from, to := DocumentSays(text, v, s);
      UncleanNeedsMore(text[from + 1..to], s);
      var j, a, b := LiteralIsInLine(lines, from, to);
      TameLiteral(lines[j], a, b, |s|);
      assert false;
    }
  }

  lemma NothingHeld(s: string)
    ensures !Held(map[], s)
  {
  }

  /** Saving and loading gives the accounts back if and only if none of their
      strings has a character that would have to be escaped. */
  lemma SaveThenLoadIff(es: seq<Entry>, m: map<string, Account>, before: map<string, Account>)
    requires Lists(es, m)
    ensures Load(FileText(SpellEach(DocumentLines(es))), before) == LoadResult(Success, m) <==> CleanAccounts(m)
  {
    hide Load, FileText, SpellEach, DocumentLines;
    if CleanAccounts(m) {
      CleanEntries(es, m);
      SaveThenLoad(es, m, before);
    } else {
      UncleanIsLost(es, m, before);
    }
  }
}
