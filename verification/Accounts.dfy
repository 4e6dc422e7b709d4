/** yogi-account-manager's FileAccountProvider: accounts are saved as
    hand-written JSON lines, with a trailing comma after every entry that is
    removed again behind the last one, and are read back as JSON. */
module Accounts {
  import opened Json
  import opened Seqs

  datatype Account = Account(password: string, firstName: string, lastName: string,
                             enabled: bool, groups: set<string>)

  /** An account in the order it is printed: the groups are listed. */
  datatype Entry = Entry(name: string, account: Account, groups: seq<string>)

  predicate NoDuplicates<T(==)>(s: seq<T>) { forall i, j :: 0 <= i < j < |s| ==> s[i] != s[j] }

  function NamesOf(es: seq<Entry>): (ns: seq<string>)
    ensures |ns| == |es| && forall i :: 0 <= i < |es| ==> ns[i] == es[i].name
  {
    seq(|es|, i requires 0 <= i < |es| => es[i].name)
  }

  /** `es` lists the map, every account and every group once. */
  ghost predicate Lists(es: seq<Entry>, m: map<string, Account>)
  {
    && NoDuplicates(NamesOf(es))
    && (set n <- NamesOf(es)) == m.Keys
    && forall e <- es :: e.name in m && e.account == m[e.name] && ListsGroups(e.groups, e.account.groups)
  }

  predicate ListsGroups(gs: seq<string>, groups: set<string>)
  {
    NoDuplicates(gs) && (set g <- gs) == groups
  }

  predicate CleanEntry(e: Entry)
  {
    && Clean(e.name) && Clean(e.account.password) && Clean(e.account.firstName) && Clean(e.account.lastName)
    && forall g <- e.groups :: Clean(g)
  }

  /** No string in the accounts needs an escape. */
  predicate CleanAccounts(m: map<string, Account>)
  {
    forall n <- m ::
      && Clean(n) && Clean(m[n].password) && Clean(m[n].firstName) && Clean(m[n].lastName)
      && forall g <- m[n].groups :: Clean(g)
  }

  lemma CleanEntries(es: seq<Entry>, m: map<string, Account>)
    requires Lists(es, m) && CleanAccounts(m)
    ensures forall e <- es :: CleanEntry(e)
  {
    forall e <- es ensures CleanEntry(e) {
      assert e.name in m;
      forall g <- e.groups ensures Clean(g) {
        assert g in (set h <- e.groups);
      }
    }
  }

  // ------------------------------------------------------------ printed lines

  /** One printed entry: some lines and a last line that may get a comma. */
  datatype Item = Item(body: seq<seq<Piece>>, last: seq<Piece>)

  /** Every entry with its comma, as the loops push them. */
  function CommaLines(items: seq<Item>): seq<seq<Piece>>
  {
    if items == [] then []
    else items[0].body + [items[0].last + [Tok(Comma)]] + CommaLines(items[1..])
  }

  /** Commas between the entries only. */
  function SeparatedLines(items: seq<Item>): seq<seq<Piece>>
  {
    if items == [] then []
    else if |items| == 1 then items[0].body + [items[0].last]
    else items[0].body + [items[0].last + [Tok(Comma)]] + SeparatedLines(items[1..])
  }

  lemma {:induction false} CommaLinesAppend(items: seq<Item>, item: Item)
    ensures CommaLines(items + [item]) == CommaLines(items) + item.body + [item.last + [Tok(Comma)]]
  {
    if items == [] {
      assert (items + [item])[1..] == [];
    } else {
      assert (items + [item])[1..] == items[1..] + [item];
      CommaLinesAppend(items[1..], item);
    }
  }

  /** Dropping the very last comma leaves separators only. */
  lemma {:induction false} DropLastComma(items: seq<Item>)
    requires items != []
    ensures var last := items[|items| - 1].last;
            var ls := CommaLines(items);
            && |ls| > 0 && ls[|ls| - 1] == last + [Tok(Comma)]
            && ls[..|ls| - 1] + [last] == SeparatedLines(items)
  {
    var ls := CommaLines(items);
    var head := items[0].body + [items[0].last + [Tok(Comma)]];
    if |items| == 1 {
      assert items[1..] == [];
      assert CommaLines(items[1..]) == [];
      assert ls == items[0].body + [items[0].last + [Tok(Comma)]];
    } else {
      DropLastComma(items[1..]);
      var tail := CommaLines(items[1..]);
      assert ls == head + tail;
      assert ls[..|ls| - 1] == head + tail[..|tail| - 1];
    }
  }

  function GroupItems(gs: seq<string>): seq<Item>
  {
    if gs == [] then [] else [Item([], [Space("      "), Tok(Text(gs[0]))])] + GroupItems(gs[1..])
  }

  function Field(key: string, value: Token): seq<Piece>
  {
    [Space("    "), Tok(Text(key)), Tok(Colon), Space(" "), Tok(value), Tok(Comma)]
  }

  function NameLine(name: string): seq<Piece>
  {
    [Space("  "), Tok(Text(name)), Tok(Colon), Space(" "), Tok(LBrace)]
  }

  const GROUPS_LINE: seq<Piece> := [Space("    "), Tok(Text("groups")), Tok(Colon), Space(" "), Tok(LBracket)]

  function FieldLines(e: Entry): seq<seq<Piece>>
  {
    [NameLine(e.name), Field("password", Text(e.account.password)), Field("first-name", Text(e.account.firstName)),
     Field("last-name", Text(e.account.lastName)), Field("enabled", if e.account.enabled then True else False),
     GROUPS_LINE]
  }

  function EntryItem(e: Entry): Item
  {
    Item(FieldLines(e) + SeparatedLines(GroupItems(e.groups)) + [[Space("    "), Tok(RBracket)]],
         [Space("  "), Tok(RBrace)])
  }

  function EntryItems(es: seq<Entry>): seq<Item>
  {
    if es == [] then [] else [EntryItem(es[0])] + EntryItems(es[1..])
  }

  /** The lines of the whole file. */
  function DocumentLines(es: seq<Entry>): seq<seq<Piece>>
  {
    [[Tok(LBrace)]] + SeparatedLines(EntryItems(es)) + [[Tok(RBrace)]]
  }

  predicate Spelled(lines: seq<string>, ps: seq<seq<Piece>>)
  {
    |lines| == |ps| && forall i :: 0 <= i < |ps| ==> lines[i] == SpellAll(ps[i])
  }

  function FileText(lines: seq<string>): string
  {
    if lines == [] then [] else lines[0] + "\n" + FileText(lines[1..])
  }

  // ---------------------------------------------------------------- the lines

  lemma Spell2(a: Piece, b: Piece)
    ensures SpellAll([a, b]) == SpellPiece(a) + SpellPiece(b)
  {
    assert [a, b][1..] == [b];
    assert SpellAll([b]) == SpellPiece(b) + SpellAll([b][1..]);
  }

  lemma SpellKeyValue(a: Piece, key: string, b: Piece)
    ensures SpellAll([a, Tok(Text(key)), Tok(Colon), Space(" "), b]) ==
            SpellPiece(a) + ("\"" + key + "\": ") + SpellPiece(b)
  {
    hide SpellAll, SpellPiece;
    var k, rest := Tok(Text(key)), [Tok(Colon), Space(" "), b];
    assert [a, k, Tok(Colon), Space(" "), b] == [a, k] + rest;
    assert rest == [Tok(Colon), Space(" ")] + [b];
    SpellConcat([a, k], rest);
    SpellConcat([Tok(Colon), Space(" ")], [b]);
    Spell2(a, k);
    Spell2(Tok(Colon), Space(" "));
    Spell1(b);
    SpellColon(key);
    Assoc4(SpellPiece(a), SpellPiece(k), SpellPiece(Tok(Colon)) + SpellPiece(Space(" ")), SpellPiece(b));
  }

  lemma Spell1(p: Piece)
    ensures SpellAll([p]) == SpellPiece(p)
  {
    assert SpellAll([p]) == SpellPiece(p) + SpellAll([p][1..]);
  }

  lemma SpellColon(key: string)
    ensures SpellPiece(Tok(Text(key))) + (SpellPiece(Tok(Colon)) + SpellPiece(Space(" "))) == "\"" + key + "\": "
  {
  }

  lemma SpellField(key: string, value: Token)
    ensures SpellAll(Field(key, value)) == "    \"" + key + "\": " + Spell(value) + ","
  {
    hide SpellAll, Spell;
    var kv := [Space("    "), Tok(Text(key)), Tok(Colon), Space(" "), Tok(value)];
    assert Field(key, value) == kv + [Tok(Comma)];
    SpellComma(kv);
    SpellKeyValue(Space("    "), key, Tok(value));
    assert "    " + ("\"" + key + "\": ") == "    \"" + key + "\": ";
  }

  /** The comma that pop_back removes. */
  lemma SpellComma(ps: seq<Piece>)
    ensures SpellAll(ps + [Tok(Comma)]) == SpellAll(ps) + ","
  {
    SpellConcat(ps, [Tok(Comma)]);
    assert SpellAll([Tok(Comma)]) == "," + SpellAll([Tok(Comma)][1..]);
  }

  // ----------------------------------------------------------------- printing

  /** The order of std::string: the first difference decides, a prefix is less.
      The bytes of UTF-8 compare like the code points. */
  predicate AtMost(a: string, b: string)
  {
    a == [] || (b != [] && (a[0] < b[0] || (a[0] == b[0] && AtMost(a[1..], b[1..]))))
  }

  lemma {:induction false} AtMostTotal(a: string, b: string)
    ensures AtMost(a, b) || AtMost(b, a)
  {
    if a != [] && b != [] {
      AtMostTotal(a[1..], b[1..]);
    }
  }

  lemma {:induction false} AtMostTransitive(a: string, b: string, c: string)
    requires AtMost(a, b) && AtMost(b, c)
    ensures AtMost(a, c)
  {
    if a != [] && a[0] == b[0] && b[0] == c[0] {
      AtMostTransitive(a[1..], b[1..], c[1..]);
    }
  }

  predicate Sorted(s: seq<string>) { forall i, j :: 0 <= i < j < |s| ==> AtMost(s[i], s[j]) }

  /** get_sorted_usernames and get_sorted_groups: every element once, in order. */
  method SortedElements(elements: set<string>) returns (r: seq<string>)
    ensures ListsGroups(r, elements) && Sorted(r) && (r == [] <==> elements == {})
  {
    r := [];
    var rest := elements;
    while rest != {}
      invariant rest <= elements && ListsGroups(r, elements - rest) && Sorted(r)
      invariant r == [] <==> rest == elements
      decreases rest
    {
      var x :| x in rest;
      assert x !in r;
      var r' := InsertSorted(r, x);
      assert (set g <- r') == (set g <- r) + {x};
      assert elements - (rest - {x}) == (elements - rest) + {x};
      r, rest := r', rest - {x};
    }
  }

  method InsertSorted(s: seq<string>, x: string) returns (r: seq<string>)
    requires Sorted(s) && NoDuplicates(s) && x !in s
    ensures Sorted(r) && NoDuplicates(r) && forall y :: y in r <==> y in s || y == x
  {
    var k := 0;
    while k < |s| && AtMost(s[k], x)
      invariant 0 <= k <= |s|
      invariant forall i :: 0 <= i < k ==> AtMost(s[i], x)
    {
      k := k + 1;
    }
    r := s[..k] + [x] + s[k..];
    if k < |s| {
      AtMostTotal(s[k], x);
      forall i | k <= i < |s| ensures AtMost(x, s[i]) {
        if k < i { AtMostTransitive(x, s[k], s[i]); }
      }
    }
  }

  lemma SpelledConcat(a: seq<string>, pa: seq<seq<Piece>>, b: seq<string>, pb: seq<seq<Piece>>)
    requires Spelled(a, pa) && Spelled(b, pb)
    ensures Spelled(a + b, pa + pb)
  {
  }

  lemma SpelledLine(line: string, ps: seq<Piece>)
    requires line == SpellAll(ps)
    ensures Spelled([line], [ps])
  {
  }

  /** Pushing one line. */
  method Push(lines: seq<string>, ghost ps: seq<seq<Piece>>, line: string, ghost p: seq<Piece>)
    returns (r: seq<string>)
    requires Spelled(lines, ps) && line == SpellAll(p)
    ensures r == lines + [line] && Spelled(r, ps + [p])
  {
    r := lines + [line];
    SpelledLine(line, p);
    SpelledConcat(lines, ps, [line], [p]);
  }

  /** lines.back().pop_back() behind a non-empty list of entries. */
  method PopComma(lines: seq<string>, ghost head: seq<seq<Piece>>, ghost items: seq<Item>) returns (r: seq<string>)
    requires items != [] && Spelled(lines, head + CommaLines(items))
    ensures Spelled(r, head + SeparatedLines(items))
  {
    hide SpellAll, CommaLines, SeparatedLines;
    DropLastComma(items);
    var n := |lines| - 1;
    ghost var last, ls := items[|items| - 1].last, CommaLines(items);
    SpellComma(last);
    assert lines[n] == SpellAll(last) + ",";
    assert (head + ls)[..n] == head + ls[..|ls| - 1];
    r := lines[..n] + [lines[n][..|lines[n]| - 1]];
    assert head + SeparatedLines(items) == (head + ls)[..n] + [last];
  }

  method PushGroups(lines: seq<string>, ghost ps: seq<seq<Piece>>, groups: seq<string>) returns (r: seq<string>)
    requires Spelled(lines, ps)
    ensures Spelled(r, ps + SeparatedLines(GroupItems(groups)))
  {
    hide SpellAll, CommaLines, SeparatedLines, GroupItems;
    r := lines;
    ghost var done := [];
    NoItems();
    for i := 0 to |groups|
      invariant Spelled(r, ps + CommaLines(done))
      invariant done == GroupItems(groups[..i])
    {
      ghost var item := Item([], [Space("      "), Tok(Text(groups[i]))]);
      GroupLine(groups[i]);
      CommaLinesAppend(done, item);
      GroupItemsAppend(groups[..i], groups[i]);
      assert groups[..i + 1] == groups[..i] + [groups[i]];
      assert ps + CommaLines(done + [item]) == ps + CommaLines(done) + [item.last + [Tok(Comma)]];
      r := Push(r, ps + CommaLines(done), "      \"" + groups[i] + "\",", item.last + [Tok(Comma)]);
      done := done + [item];
    }
    assert groups[..|groups|] == groups;
    GroupItemsLength(groups);
    if groups != [] {
      r := PopComma(r, ps, done);
    }
  }

  lemma NoItems()
    ensures CommaLines([]) == [] && SeparatedLines([]) == [] && GroupItems([]) == [] && EntryItems([]) == []
  {
  }

  lemma GroupLine(g: string)
    ensures SpellAll([Space("      "), Tok(Text(g))] + [Tok(Comma)]) == "      \"" + g + "\","
  {
    SpellComma([Space("      "), Tok(Text(g))]);
    Spell2(Space("      "), Tok(Text(g)));
    assert "      " + ("\"" + g + "\"") + "," == "      \"" + g + "\",";
  }

  lemma {:induction false} GroupItemsAppend(gs: seq<string>, g: string)
    ensures GroupItems(gs + [g]) == GroupItems(gs) + [Item([], [Space("      "), Tok(Text(g))])]
  {
    if gs == [] {
      assert (gs + [g])[1..] == [];
    } else {
      assert (gs + [g])[1..] == gs[1..] + [g];
      GroupItemsAppend(gs[1..], g);
    }
  }

  lemma GroupItemsLength(gs: seq<string>)
    ensures |GroupItems(gs)| == |gs|
  {
  }

  lemma {:induction false} EntryItemsAppend(es: seq<Entry>, e: Entry)
    ensures EntryItems(es + [e]) == EntryItems(es) + [EntryItem(e)]
  {
    if es == [] {
      assert (es + [e])[1..] == [];
    } else {
      assert (es + [e])[1..] == es[1..] + [e];
      EntryItemsAppend(es[1..], e);
    }
  }

  lemma EntryItemsLength(es: seq<Entry>)
    ensures |EntryItems(es)| == |es|
  {
  }

  /** The lines of one account, comma included. */
  method PushAccount(lines: seq<string>, ghost ps: seq<seq<Piece>>, e: Entry) returns (r: seq<string>)
    requires Spelled(lines, ps)
    ensures Spelled(r, ps + EntryItem(e).body + [EntryItem(e).last + [Tok(Comma)]])
  {
    hide SpellAll, SeparatedLines, GroupItems;
    var a := e.account;
    var six := ["  \"" + e.name + "\": {",
                "    \"password\": \"" + a.password + "\",",
                "    \"first-name\": \"" + a.firstName + "\",",
                "    \"last-name\": \"" + a.lastName + "\",",
                "    \"enabled\": " + (if a.enabled then "true" else "false") + ",",
                "    \"groups\": ["];
    SpellTexts(a);
    SpellOthers(e);
    assert Spelled(six, FieldLines(e));
    SpelledConcat(lines, ps, six, FieldLines(e));
    r := lines + six;
    r := PushGroups(r, ps + FieldLines(e), e.groups);
    ghost var before := ps + FieldLines(e) + SeparatedLines(GroupItems(e.groups));
    SpellBrackets();
    r := Push(r, before, "    ]", [Space("    "), Tok(RBracket)]);
    r := Push(r, before + [[Space("    "), Tok(RBracket)]], "  },", [Space("  "), Tok(RBrace)] + [Tok(Comma)]);
    assert ps + EntryItem(e).body == before + [[Space("    "), Tok(RBracket)]];
  }

  lemma SpellBrackets()
    ensures SpellAll([Space("    "), Tok(RBracket)]) == "    ]"
    ensures SpellAll([Space("  "), Tok(RBrace)] + [Tok(Comma)]) == "  },"
  {
    Spell2(Space("    "), Tok(RBracket));
    Spell2(Space("  "), Tok(RBrace));
    SpellComma([Space("  "), Tok(RBrace)]);
  }

  lemma Quoted(prefix: string, v: string)
    ensures prefix + ("\"" + v + "\"") + "," == (prefix + "\"") + v + "\","
  {
  }

  lemma TextField(key: string, prefix: string, v: string)
    requires prefix == "    \"" + key + "\": \""
    ensures SpellAll(Field(key, Text(v))) == prefix + v + "\","
  {
    hide SpellAll, Field;
    var p := "    \"" + key + "\": ";
    SpellField(key, Text(v));
    Quoted(p, v);
    assert p + "\"" == prefix;
  }

  lemma SpellOthers(e: Entry)
    ensures SpellAll(NameLine(e.name)) == "  \"" + e.name + "\": {"
    ensures SpellAll(Field("enabled", if e.account.enabled then True else False)) ==
            "    \"enabled\": " + (if e.account.enabled then "true" else "false") + ","
    ensures SpellAll(GROUPS_LINE) == "    \"groups\": ["
  {
    hide SpellAll, Field;
    SpellField("enabled", if e.account.enabled then True else False);
    SpellKeyValue(Space("  "), e.name, Tok(LBrace));
    SpellKeyValue(Space("    "), "groups", Tok(LBracket));
    assert "  " + ("\"" + e.name + "\": ") + "{" == "  \"" + e.name + "\": {";
    assert "    " + ("\"" + "groups" + "\": ") + "[" == "    \"groups\": [";
    assert "    \"" + "enabled" + "\": " == "    \"enabled\": ";
  }

  lemma SpellTexts(a: Account)
    ensures SpellAll(Field("password", Text(a.password))) == "    \"password\": \"" + a.password + "\","
    ensures SpellAll(Field("first-name", Text(a.firstName))) == "    \"first-name\": \"" + a.firstName + "\","
    ensures SpellAll(Field("last-name", Text(a.lastName))) == "    \"last-name\": \"" + a.lastName + "\","
  {
    hide SpellAll, Field;
    TextField("password", "    \"password\": \"", a.password);
    TextField("first-name", "    \"first-name\": \"", a.firstName);
    TextField("last-name", "    \"last-name\": \"", a.lastName);
  }

  // ------------------------------------------------------------- reading back

  function LineTokens(ps: seq<seq<Piece>>): seq<Token>
  {
    if ps == [] then [] else TokensOf(ps[0]) + LineTokens(ps[1..])
  }

  lemma {:induction false} LineTokensConcat(a: seq<seq<Piece>>, b: seq<seq<Piece>>)
    ensures LineTokens(a + b) == LineTokens(a) + LineTokens(b)
  {
    if a == [] {
      assert a + b == b;
    } else {
      assert (a + b)[1..] == a[1..] + b;
      LineTokensConcat(a[1..], b);
    }
  }

  predicate ValidLine(ps: seq<Piece>) { forall p <- ps :: ValidPiece(p) }

  predicate ValidLines(pss: seq<seq<Piece>>) { forall ps <- pss :: ValidLine(ps) }

  /** The line breaks are white space: the file lexes to the tokens of its
      lines. */
  lemma {:induction false} LexFile(lines: seq<string>, pss: seq<seq<Piece>>)
    requires Spelled(lines, pss) && ValidLines(pss)
    ensures Lex(FileText(lines)) == Tokens(LineTokens(pss))
  {
    hide SpellAll, TokensOf, ValidLine;
    if lines != [] {
      assert ValidLine(pss[0]);
      LexFile(lines[1..], pss[1..]);
      LexLine(pss[0], FileText(lines[1..]));
      assert FileText(lines) == lines[0] + "\n" + FileText(lines[1..]);
    } else {
      assert Lex("") == Tokens([]);
    }
  }

  lemma LexLine(ps: seq<Piece>, rest: string)
    requires ValidLine(ps)
    ensures Lex(SpellAll(ps) + "\n" + rest) == Prepend(TokensOf(ps), Lex(rest))
  {
    hide Lex, SpellAll, TokensOf;
    LexSpelled(ps, "\n" + rest);
    LexSpace("\n", rest);
    assert SpellAll(ps) + "\n" + rest == SpellAll(ps) + ("\n" + rest);
  }

  function GroupTokens(gs: seq<string>): seq<Token>
  {
    if gs == [] then [] else if |gs| == 1 then [Text(gs[0])] else [Text(gs[0]), Comma] + GroupTokens(gs[1..])
  }

  function FieldTokens(key: string, t: Token): seq<Token> { [Text(key), Colon, t, Comma] }

  /** Right-nested: a field, then what follows it. */
  function FieldsTokens(a: Account, rest: seq<Token>): seq<Token>
  {
    FieldTokens("password", Text(a.password)) +
    (FieldTokens("first-name", Text(a.firstName)) +
     (FieldTokens("last-name", Text(a.lastName)) +
      (FieldTokens("enabled", if a.enabled then True else False) + rest)))
  }

  function EntryTokens(e: Entry): seq<Token>
  {
    [Text(e.name), Colon, LBrace] + FieldsTokens(e.account, GroupsTokens(e.groups, [RBrace]))
  }

  function GroupsTokens(gs: seq<string>, rest: seq<Token>): seq<Token>
  {
    [Text("groups"), Colon, LBracket] + (GroupTokens(gs) + ([RBracket] + rest))
  }

  function EntriesTokens(es: seq<Entry>): seq<Token>
  {
    if es == [] then [] else if |es| == 1 then EntryTokens(es[0])
    else EntryTokens(es[0]) + [Comma] + EntriesTokens(es[1..])
  }

  lemma Tokens2(a: Piece, b: Piece)
    requires a.Space? && b.Tok?
    ensures TokensOf([a, b]) == [b.t]
  {
    assert TokensOf([b]) == [b.t] + TokensOf([b][1..]);
    assert TokensOf([a, b]) == TokensOf([a, b][1..]);
  }

  lemma TokensComma(ps: seq<Piece>)
    ensures TokensOf(ps + [Tok(Comma)]) == TokensOf(ps) + [Comma]
  {
    SpellConcat(ps, [Tok(Comma)]);
    assert TokensOf([Tok(Comma)]) == [Comma] + TokensOf([Tok(Comma)][1..]);
  }

  lemma LineTokens1(ps: seq<Piece>)
    ensures LineTokens([ps]) == TokensOf(ps)
  {
    assert LineTokens([ps]) == TokensOf(ps) + LineTokens([ps][1..]);
  }

  function ItemTokens(i: Item): seq<Token> { LineTokens(i.body) + TokensOf(i.last) }

  lemma SeparatedOne(items: seq<Item>)
    requires items != []
    ensures SeparatedLines(items) == items[0].body +
              if |items| == 1 then [items[0].last]
              else [items[0].last + [Tok(Comma)]] + SeparatedLines(items[1..])
  {
  }

  /** The tokens of some lines, one more line, and further lines. */
  lemma TokensAround(before: seq<seq<Piece>>, line: seq<Piece>, behind: seq<seq<Piece>>)
    ensures LineTokens(before + ([line] + behind)) == LineTokens(before) + (TokensOf(line) + LineTokens(behind))
  {
    hide LineTokens, TokensOf;
    LineTokensConcat(before, [line] + behind);
    LineTokensConcat([line], behind);
    LineTokens1(line);
  }

  lemma SeparatedTokens(items: seq<Item>)
    requires items != []
    ensures LineTokens(SeparatedLines(items)) ==
            ItemTokens(items[0]) + if |items| == 1 then [] else [Comma] + LineTokens(SeparatedLines(items[1..]))
  {
    hide LineTokens, TokensOf, SeparatedLines;
    var i := items[0];
    SeparatedOne(items);
    if |items| == 1 {
      LineTokensConcat(i.body, [i.last]);
      LineTokens1(i.last);
    } else {
      var rest := SeparatedLines(items[1..]);
      var line := i.last + [Tok(Comma)];
      assert SeparatedLines(items) == i.body + ([line] + rest);
      TokensAround(i.body, line, rest);
      TokensComma(i.last);
    }
  }

  lemma {:induction false} GroupsAsTokens(gs: seq<string>)
    ensures LineTokens(SeparatedLines(GroupItems(gs))) == GroupTokens(gs)
  {
    if gs != [] {
      var piece := [Space("      "), Tok(Text(gs[0]))];
      SeparatedTokens(GroupItems(gs));
      GroupItemsLength(gs);
      assert GroupItems(gs)[1..] == GroupItems(gs[1..]);
      GroupsAsTokens(gs[1..]);
      Tokens2(piece[0], piece[1]);
    }
  }

  lemma TokensKeyValue(a: Piece, key: string, b: Piece)
    requires a.Space? && b.Tok?
    ensures TokensOf([a, Tok(Text(key)), Tok(Colon), Space(" "), b]) == [Text(key), Colon, b.t]
  {
    var k, rest := Tok(Text(key)), [Tok(Colon), Space(" "), b];
    assert [a, k, Tok(Colon), Space(" "), b] == [a, k] + rest;
    SpellConcat([a, k], rest);
    Tokens2(a, k);
    Tokens2(Space(" "), b);
    assert rest[1..] == [Space(" "), b];
  }

  lemma TokensField(key: string, t: Token)
    ensures TokensOf(Field(key, t)) == FieldTokens(key, t)
  {
    var kv := [Space("    "), Tok(Text(key)), Tok(Colon), Space(" "), Tok(t)];
    assert Field(key, t) == kv + [Tok(Comma)];
    TokensKeyValue(Space("    "), key, Tok(t));
    TokensComma(kv);
  }

  lemma LineTokensCons(ps: seq<Piece>, pss: seq<seq<Piece>>)
    ensures LineTokens([ps] + pss) == TokensOf(ps) + LineTokens(pss)
  {
    assert ([ps] + pss)[1..] == pss;
  }

  lemma EntryAsTokens(e: Entry)
    ensures ItemTokens(EntryItem(e)) == EntryTokens(e)
  {
    hide LineTokens, TokensOf, Field, SeparatedLines, GroupItems, GroupTokens;
    var a := e.account;
    var enabled := if a.enabled then True else False;
    var groups := SeparatedLines(GroupItems(e.groups));
    var tail := [GROUPS_LINE] + (groups + [[Space("    "), Tok(RBracket)]]);
    var f := [Field("password", Text(a.password))] + ([Field("first-name", Text(a.firstName))] +
             ([Field("last-name", Text(a.lastName))] + ([Field("enabled", enabled)] + tail)));
    assert EntryItem(e).body == [NameLine(e.name)] + f;
    LineTokensCons(NameLine(e.name), f);
    TokensKeyValue(Space("  "), e.name, Tok(LBrace));
    FieldsAsTokens(a, tail);
    LineTokensCons(GROUPS_LINE, groups + [[Space("    "), Tok(RBracket)]]);
    TokensKeyValue(Space("    "), "groups", Tok(LBracket));
    LineTokensConcat(groups, [[Space("    "), Tok(RBracket)]]);
    GroupsAsTokens(e.groups);
    LineTokens1([Space("    "), Tok(RBracket)]);
    Tokens2(Space("    "), Tok(RBracket));
    Tokens2(Space("  "), Tok(RBrace));
    assert LineTokens(tail) + [RBrace] == GroupsTokens(e.groups, [RBrace]);
  }

  lemma FieldsAsTokens(a: Account, tail: seq<seq<Piece>>)
    ensures var f := [Field("password", Text(a.password))] + ([Field("first-name", Text(a.firstName))] +
                     ([Field("last-name", Text(a.lastName))] +
                      ([Field("enabled", if a.enabled then True else False)] + tail)));
            LineTokens(f) == FieldsTokens(a, LineTokens(tail))
  {
    hide LineTokens, TokensOf, Field;
    var f4 := [Field("enabled", if a.enabled then True else False)] + tail;
    var f3 := [Field("last-name", Text(a.lastName))] + f4;
    var f2 := [Field("first-name", Text(a.firstName))] + f3;
    LineTokensCons(Field("password", Text(a.password)), f2);
    LineTokensCons(Field("first-name", Text(a.firstName)), f3);
    LineTokensCons(Field("last-name", Text(a.lastName)), f4);
    LineTokensCons(Field("enabled", if a.enabled then True else False), tail);
    TokensField("password", Text(a.password));
    TokensField("first-name", Text(a.firstName));
    TokensField("last-name", Text(a.lastName));
    TokensField("enabled", if a.enabled then True else False);
  }

  lemma {:induction false} EntriesAsTokens(es: seq<Entry>)
    ensures LineTokens(SeparatedLines(EntryItems(es))) == EntriesTokens(es)
  {
    hide EntryTokens, ItemTokens, EntryItem, LineTokens, SeparatedLines;
    if es == [] {
      NoItems();
      NoLines();
    } else {
      SeparatedTokens(EntryItems(es));
      EntryItemsLength(es);
      assert EntryItems(es)[1..] == EntryItems(es[1..]);
      EntriesAsTokens(es[1..]);
      EntryAsTokens(es[0]);
    }
  }

  lemma NoLines()
    ensures LineTokens([]) == []
  {
  }

  // ------------------------------------------------------- parsing the tokens

  function GroupValues(gs: seq<string>): seq<Value>
  {
    if gs == [] then [] else [Str(gs[0])] + GroupValues(gs[1..])
  }

  function EntryMembers(e: Entry): seq<Member>
  {
    [Member("password", Str(e.account.password)), Member("first-name", Str(e.account.firstName)),
     Member("last-name", Str(e.account.lastName)), Member("enabled", Bool(e.account.enabled)),
     Member("groups", Arr(GroupValues(e.groups)))]
  }

  function DocumentMembers(es: seq<Entry>): seq<Member>
  {
    if es == [] then [] else [Member(es[0].name, Obj(EntryMembers(es[0])))] + DocumentMembers(es[1..])
  }

  lemma {:induction false} ParseGroups(gs: seq<string>, rest: seq<Token>)
    requires gs != []
    ensures ParseElements(GroupTokens(gs) + ([RBracket] + rest)) == Ok(GroupValues(gs), rest)
  {
    hide ParseElements, ParseValue;
    var ts := GroupTokens(gs) + ([RBracket] + rest);
    if |gs| == 1 {
      ScalarValue(Text(gs[0]), [RBracket] + rest);
      LastElement(ts, Str(gs[0]), rest);
      assert GroupValues(gs) == [Str(gs[0])] + GroupValues([]) by { assert gs[1..] == []; }
      assert [Str(gs[0])] == GroupValues(gs);
    } else {
      var tail := GroupTokens(gs[1..]) + ([RBracket] + rest);
      assert ts == [Text(gs[0])] + ([Comma] + tail);
      ParseGroups(gs[1..], rest);
      ScalarValue(Text(gs[0]), [Comma] + tail);
      NextElement(ts, Str(gs[0]), tail, GroupValues(gs[1..]), rest);
    }
  }

  lemma ParseGroupArray(gs: seq<string>, rest: seq<Token>)
    ensures ParseValue([LBracket] + (GroupTokens(gs) + ([RBracket] + rest))) == Ok(Arr(GroupValues(gs)), rest)
  {
    var ts := [LBracket] + (GroupTokens(gs) + ([RBracket] + rest));
    assert ts[1..] == GroupTokens(gs) + ([RBracket] + rest);
    if gs == [] {
      assert ts[2..] == rest;
    } else {
      ParseGroups(gs, rest);
    }
  }

  lemma ParseGroupsMember(gs: seq<string>, rest: seq<Token>)
    ensures ParseMembers(GroupsTokens(gs, [RBrace] + rest)) == Ok([Member("groups", Arr(GroupValues(gs)))], rest)
  {
    hide ParseValue, ParseMembers, GroupTokens, GroupValues;
    var vts := [LBracket] + (GroupTokens(gs) + ([RBracket] + ([RBrace] + rest)));
    ParseGroupArray(gs, [RBrace] + rest);
    LastMember("groups", vts, Arr(GroupValues(gs)), rest);
    assert GroupsTokens(gs, [RBrace] + rest) == [Text("groups"), Colon] + vts;
  }

  lemma ParseField(key: string, t: Token, v: Value, rest: seq<Token>, ms: seq<Member>, end: seq<Token>)
    requires t.Text? || t == True || t == False
    requires v == if t.Text? then Str(t.s) else Bool(t == True)
    requires ParseMembers(rest) == Ok(ms, end)
    ensures ParseMembers(FieldTokens(key, t) + rest) == Ok([Member(key, v)] + ms, end)
  {
    hide ParseValue, ParseMembers;
    ScalarValue(t, [Comma] + rest);
    NextMember(key, [t] + ([Comma] + rest), v, rest, ms, end);
    assert FieldTokens(key, t) + rest == [Text(key), Colon] + ([t] + ([Comma] + rest));
  }

  lemma ParseFields(e: Entry, rest: seq<Token>)
    ensures ParseMembers(FieldsTokens(e.account, GroupsTokens(e.groups, [RBrace] + rest)))
            == Ok(EntryMembers(e), rest)
  {
    hide ParseMembers, FieldTokens, GroupsTokens, GroupValues;
    var a, g := e.account, GroupsTokens(e.groups, [RBrace] + rest);
    var m5 := [Member("groups", Arr(GroupValues(e.groups)))];
    var m4 := [Member("enabled", Bool(a.enabled))] + m5;
    var m3 := [Member("last-name", Str(a.lastName))] + m4;
    var m2 := [Member("first-name", Str(a.firstName))] + m3;
    var m1 := [Member("password", Str(a.password))] + m2;
    var t4 := FieldTokens("enabled", if a.enabled then True else False) + g;
    var t3 := FieldTokens("last-name", Text(a.lastName)) + t4;
    var t2 := FieldTokens("first-name", Text(a.firstName)) + t3;
    ParseGroupsMember(e.groups, rest);
    ParseField("enabled", if a.enabled then True else False, Bool(a.enabled), g, m5, rest);
    ParseField("last-name", Text(a.lastName), Str(a.lastName), t4, m4, rest);
    ParseField("first-name", Text(a.firstName), Str(a.firstName), t3, m3, rest);
    ParseField("password", Text(a.password), Str(a.password), t2, m2, rest);
    assert m1 == EntryMembers(e);
  }

  lemma ParseEntryValue(e: Entry, rest: seq<Token>)
    ensures ParseValue([LBrace] + FieldsTokens(e.account, GroupsTokens(e.groups, [RBrace] + rest)))
            == Ok(Obj(EntryMembers(e)), rest)
  {
    hide ParseMembers, ParseValue, GroupsTokens, FieldsTokens;
    ParseFields(e, rest);
    ObjectValue(FieldsTokens(e.account, GroupsTokens(e.groups, [RBrace] + rest)), EntryMembers(e), rest);
  }

  /** An entry's own tokens end in its closing brace: what follows can be moved
      inside. */
  lemma EntryThen(e: Entry, rest: seq<Token>)
    ensures EntryTokens(e) + rest ==
            [Text(e.name), Colon] + ([LBrace] + FieldsTokens(e.account, GroupsTokens(e.groups, [RBrace] + rest)))
  {
    hide GroupTokens;
    assert GroupsTokens(e.groups, [RBrace]) + rest == GroupsTokens(e.groups, [RBrace] + rest);
    FieldsThen(e.account, GroupsTokens(e.groups, [RBrace]), rest);
  }

  lemma FieldsThen(a: Account, g: seq<Token>, rest: seq<Token>)
    ensures FieldsTokens(a, g) + rest == FieldsTokens(a, g + rest)
  {
    hide FieldTokens;
  }

  lemma {:induction false} ParseEntries(es: seq<Entry>, rest: seq<Token>)
    requires es != []
    ensures ParseMembers(EntriesTokens(es) + ([RBrace] + rest)) == Ok(DocumentMembers(es), rest)
  {
    hide EntryTokens, ParseValue, ParseMembers, FieldsTokens, EntryMembers;
    var e := es[0];
    var tail := EntriesTokens(es[1..]) + ([RBrace] + rest);
    var after := if |es| == 1 then [RBrace] + rest else [Comma] + tail;
    var v := [LBrace] + FieldsTokens(e.account, GroupsTokens(e.groups, [RBrace] + after));
    assert EntriesTokens(es) + ([RBrace] + rest) == EntryTokens(e) + after;
    EntryThen(e, after);
    ParseEntryValue(e, after);
    if |es| == 1 {
      LastMember(e.name, v, Obj(EntryMembers(e)), rest);
      assert DocumentMembers(es) == [Member(e.name, Obj(EntryMembers(e)))] + DocumentMembers([]) by {
        assert es[1..] == [];
      }
      assert [Member(e.name, Obj(EntryMembers(e)))] == DocumentMembers(es);
    } else {
      ParseEntries(es[1..], rest);
      NextMember(e.name, v, Obj(EntryMembers(e)), tail, DocumentMembers(es[1..]), rest);
    }
  }

  /** The printed file is one JSON text, and this is what it says. */
  lemma DocumentReads(lines: seq<string>, es: seq<Entry>)
    requires Spelled(lines, DocumentLines(es)) && forall e <- es :: CleanEntry(e)
    ensures Read(FileText(lines)) == Document(Obj(DocumentMembers(es)))
  {
    hide Lex, ParseValue, ParseMembers, EntriesTokens, LineTokens, SeparatedLines;
    var body := SeparatedLines(EntryItems(es));
    DocumentValid(es);
    LexFile(lines, DocumentLines(es));
    LineTokensCons([Tok(LBrace)], body + [[Tok(RBrace)]]);
    LineTokensConcat(body, [[Tok(RBrace)]]);
    LineTokens1([Tok(RBrace)]);
    EntriesAsTokens(es);
    Tokens1(LBrace);
    Tokens1(RBrace);
    assert DocumentLines(es) == [[Tok(LBrace)]] + (body + [[Tok(RBrace)]]);
    var ts := EntriesTokens(es) + ([RBrace] + []);
    assert LineTokens(DocumentLines(es)) == [LBrace] + ts;
    if es == [] {
      EmptyObject();
    } else {
      ParseEntries(es, []);
      ObjectValue(ts, DocumentMembers(es), []);
    }
  }

  lemma Tokens1(t: Token)
    ensures TokensOf([Tok(t)]) == [t]
  {
    assert TokensOf([Tok(t)]) == [t] + TokensOf([Tok(t)][1..]);
  }

  lemma EmptyObject()
    ensures EntriesTokens([]) == [] && DocumentMembers([]) == []
    ensures ParseValue([LBrace] + ([] + ([RBrace] + []))) == Ok(Obj([]), [])
  {
    assert [LBrace] + ([] + ([RBrace] + [])) == [LBrace, RBrace];
    assert ParseValue([LBrace, RBrace]) == Ok(Obj([]), [LBrace, RBrace][2..]);
  }

  lemma {:induction false} SeparatedValid(items: seq<Item>)
    requires forall i <- items :: ValidLines(i.body) && ValidLine(i.last)
    ensures ValidLines(SeparatedLines(items))
  {
    if items != [] {
      var i := items[0];
      assert i in items;
      SeparatedValid(items[1..]);
      assert ValidLine(i.last + [Tok(Comma)]);
    }
  }

  lemma {:induction false} GroupsValid(gs: seq<string>)
    requires forall g <- gs :: Clean(g)
    ensures forall i <- GroupItems(gs) :: ValidLines(i.body) && ValidLine(i.last)
  {
    if gs != [] {
      GroupsValid(gs[1..]);
      assert gs[0] in gs;
    }
  }

  lemma KeyValueValid(a: Piece, key: string, b: Piece)
    requires ValidPiece(a) && ValidPiece(b) && Clean(key)
    ensures ValidLine([a, Tok(Text(key)), Tok(Colon), Space(" "), b])
    ensures ValidLine([a, Tok(Text(key)), Tok(Colon), Space(" "), b, Tok(Comma)])
  {
    assert ValidPiece(Tok(Text(key))) && ValidPiece(Space(" ")) && ValidPiece(Tok(Colon)) && ValidPiece(Tok(Comma));
    hide ValidPiece;
  }

  lemma FieldsValid(e: Entry)
    requires CleanEntry(e)
    ensures ValidLines(FieldLines(e))
  {
    var four := Space("    ");
    KeyValueValid(Space("  "), e.name, Tok(LBrace));
    KeyValueValid(four, "password", Tok(Text(e.account.password)));
    KeyValueValid(four, "first-name", Tok(Text(e.account.firstName)));
    KeyValueValid(four, "last-name", Tok(Text(e.account.lastName)));
    KeyValueValid(four, "enabled", Tok(if e.account.enabled then True else False));
    KeyValueValid(four, "groups", Tok(LBracket));
    hide ValidLine;
  }

  lemma EntryValid(e: Entry)
    requires CleanEntry(e)
    ensures ValidLines(EntryItem(e).body) && ValidLine(EntryItem(e).last)
  {
    hide SeparatedLines, GroupItems, FieldLines;
    GroupsValid(e.groups);
    SeparatedValid(GroupItems(e.groups));
    FieldsValid(e);
    assert ValidLine([Space("    "), Tok(RBracket)]);
  }

  lemma {:induction false} EntriesValid(es: seq<Entry>)
    requires forall e <- es :: CleanEntry(e)
    ensures forall i <- EntryItems(es) :: ValidLines(i.body) && ValidLine(i.last)
  {
    hide ValidLines, ValidLine, EntryItem, CleanEntry;
    if es != [] {
      EntryValid(es[0]);
      EntriesValid(es[1..]);
    }
  }

  lemma DocumentValid(es: seq<Entry>)
    requires forall e <- es :: CleanEntry(e)
    ensures ValidLines(DocumentLines(es))
  {
    hide SeparatedLines;
    EntriesValid(es);
    SeparatedValid(EntryItems(es));
    assert ValidLine([Tok(LBrace)]) && ValidLine([Tok(RBrace)]);
  }

  // -------------------------------------------------------------- the provider

  /** What a property tree makes of a value: the text of a scalar. */
  function Data(v: Value): string
  {
    match v
    case Str(s) => s
    case Num(digits) => digits
    case Bool(b) => if b then "true" else "false"
    case Nil => "null"
    case _ => ""
  }

  function Children(v: Value): seq<Member>
  {
    match v
    case Obj(ms) => ms
    case Arr(vs) => seq(|vs|, i requires 0 <= i < |vs| => Member("", vs[i]))
    case _ => []
  }

  datatype Found = Found(v: Value) | Missing

  /** The first child of that name. */
  function Child(ms: seq<Member>, key: string): Found
  {
    if ms == [] then Missing else if ms[0].key == key then Found(ms[0].value) else Child(ms[1..], key)
  }

  datatype ReadAccount = Has(a: Account) | Throws

  /** Reading one account throws if a field is missing or `enabled` is not a
      truth value. */
  function AccountFrom(v: Value): ReadAccount
  {
    var ms := Children(v);
    var pw, fn, ln := Child(ms, "password"), Child(ms, "first-name"), Child(ms, "last-name");
    var en, gs := Child(ms, "enabled"), Child(ms, "groups");
    if pw.Missing? || fn.Missing? || ln.Missing? || en.Missing? || gs.Missing? then Throws
    else if Data(en.v) !in ["true", "false", "1", "0"] then Throws
    else
      Has(Account(Data(pw.v), Data(fn.v), Data(ln.v), Data(en.v) in ["true", "1"],
                                  set g <- Children(gs.v) :: Data(g.value)))
  }

  datatype Outcome = Success | Unreadable | Thrown

  datatype LoadResult = LoadResult(outcome: Outcome, accounts: map<string, Account>)

  function LoadMembers(ms: seq<Member>, m: map<string, Account>): LoadResult
    decreases |ms|
  {
    if ms == [] then LoadResult(Success, m)
    else
      var a := AccountFrom(ms[0].value);
      if a.Throws? then LoadResult(Thrown, m) else LoadMembers(ms[1..], m[ms[0].key := a.a])
  }

  /** Loading replaces all accounts, unless the file cannot be read. */
  function Load(text: string, m: map<string, Account>): LoadResult
  {
    var d := Read(text);
    if d.Invalid? then LoadResult(Outcome.Unreadable, m) else LoadMembers(Children(d.v), map[])
  }

  function SpellEach(pss: seq<seq<Piece>>): (lines: seq<string>)
    ensures Spelled(lines, pss)
  {
    seq(|pss|, i requires 0 <= i < |pss| => SpellAll(pss[i]))
  }

  /** The entries of these accounts, with the groups in order. */
  ghost predicate Listing(es: seq<Entry>, names: seq<string>, m: map<string, Account>)
  {
    && NamesOf(es) == names
    && forall e <- es :: e.name in m && e.account == m[e.name]
                         && ListsGroups(e.groups, e.account.groups) && Sorted(e.groups)
  }

  lemma ListingStart(names: seq<string>, m: map<string, Account>)
    ensures Listing([], names[..0], m)
  {
  }

  lemma ListingStep(es: seq<Entry>, names: seq<string>, i: nat, m: map<string, Account>, e: Entry)
    requires i < |names| && Listing(es, names[..i], m)
    requires e.name == names[i] && e.name in m && e.account == m[e.name]
    requires ListsGroups(e.groups, e.account.groups) && Sorted(e.groups)
    ensures Listing(es + [e], names[..i + 1], m)
  {
    hide ListsGroups, Sorted;
    assert NamesOf(es + [e]) == NamesOf(es) + [e.name];
    assert names[..i + 1] == names[..i] + [names[i]];
  }

  lemma ListingDone(es: seq<Entry>, names: seq<string>, m: map<string, Account>)
    requires Listing(es, names, m) && ListsGroups(names, m.Keys)
    ensures Lists(es, m) && (forall e <- es :: Sorted(e.groups)) && NamesOf(es) == names
  {
    hide Sorted;
    assert |NamesOf(es)| == |es|;
  }

  lemma SpellBraces()
    ensures SpellAll([Tok(LBrace)]) == "{" && SpellAll([Tok(RBrace)]) == "}"
  {
    Spell1(Tok(LBrace));
    Spell1(Tok(RBrace));
  }

  // --------------------------------------------------------------- round trip

  lemma {:induction false} GroupsRead(gs: seq<string>)
    ensures |GroupValues(gs)| == |gs| && forall i :: 0 <= i < |gs| ==> GroupValues(gs)[i] == Str(gs[i])
  {
    if gs != [] {
      GroupsRead(gs[1..]);
    }
  }

  lemma GroupSetReads(gs: seq<string>)
    ensures (set g <- Children(Arr(GroupValues(gs))) :: Data(g.value)) == set g <- gs
  {
    hide GroupValues;
    GroupsRead(gs);
    var cs := Children(Arr(GroupValues(gs)));
    assert forall i :: 0 <= i < |cs| ==> Data(cs[i].value) == gs[i];
    var read := set g <- cs :: Data(g.value);
    forall g <- gs ensures g in read {
      var i :| 0 <= i < |gs| && gs[i] == g;
      assert cs[i] in cs;
    }
  }

  lemma EntryReads(e: Entry)
    requires ListsGroups(e.groups, e.account.groups)
    ensures AccountFrom(Obj(EntryMembers(e))) == Has(e.account)
  {
    hide Child, GroupValues;
    var ms := EntryMembers(e);
    GroupSetReads(e.groups);
    ChildAt(ms, 0);
    ChildAt(ms, 1);
    ChildAt(ms, 2);
    ChildAt(ms, 3);
    ChildAt(ms, 4);
  }

  lemma {:induction false} ChildAt(ms: seq<Member>, i: nat)
    requires i < |ms| && forall j :: 0 <= j < i ==> ms[j].key != ms[i].key
    ensures Child(ms, ms[i].key) == Found(ms[i].value)
  {
    if i > 0 {
      ChildAt(ms[1..], i - 1);
    }
  }

  /** The first member of that name. */
  predicate FirstAt(ms: seq<Member>, key: string, i: nat)
  {
    i < |ms| && ms[i].key == key && forall j :: 0 <= j < i ==> ms[j].key != key
  }

  /** An account is read from the first member of each of the five names; anything
      but true, false, 1 or 0 for `enabled` throws. */
  lemma AccountIsItsMembers(v: Value, p: nat, f: nat, l: nat, e: nat, g: nat)
    requires var ms := Children(v);
      && FirstAt(ms, "password", p) && FirstAt(ms, "first-name", f) && FirstAt(ms, "last-name", l)
      && FirstAt(ms, "enabled", e) && FirstAt(ms, "groups", g)
    ensures var ms := Children(v); var enabled := Data(ms[e].value);
      AccountFrom(v) ==
        if enabled == "true" || enabled == "1" || enabled == "false" || enabled == "0" then
          Has(Account(Data(ms[p].value), Data(ms[f].value), Data(ms[l].value), enabled == "true" || enabled == "1",
                      set x <- Children(ms[g].value) :: Data(x.value)))
        else Throws
  {
    hide Child, Children, Data;
    var ms := Children(v);
    ChildAt(ms, p);
    ChildAt(ms, f);
    ChildAt(ms, l);
    ChildAt(ms, e);
    ChildAt(ms, g);
  }

  /** A missing member throws. */
  lemma MissingMemberThrows(v: Value, key: string)
    requires key in ["password", "first-name", "last-name", "enabled", "groups"]
    requires forall m <- Children(v) :: m.key != key
    ensures AccountFrom(v) == Throws
  {
    hide Child, Children, Data;
    NoChild(Children(v), key);
  }

  lemma {:induction false} NoChild(ms: seq<Member>, key: string)
    requires forall m <- ms :: m.key != key
    ensures Child(ms, key) == Missing
  {
    if ms != [] {
      NoChild(ms[1..], key);
    }
  }

  /** What a property tree makes of scalars. */
  lemma ScalarTexts(s: string)
    ensures Data(Str(s)) == s && Data(Num(s)) == s
    ensures Data(Bool(true)) == "true" && Data(Bool(false)) == "false" && Data(Nil) == "null"
    ensures Data(Obj([])) == "" && Data(Arr([])) == ""
  {
  }

  /** The first lines of an entry, character by character. */
  lemma FieldLinesSpelled(e: Entry)
    ensures SpellEach(FieldLines(e)) ==
      ["  \"" + e.name + "\": {",
       "    \"password\": \"" + e.account.password + "\",",
       "    \"first-name\": \"" + e.account.firstName + "\",",
       "    \"last-name\": \"" + e.account.lastName + "\",",
       "    \"enabled\": " + (if e.account.enabled then "true" else "false") + ",",
       "    \"groups\": ["]
  {
    hide SpellAll, Field, NameLine;
    SpellTexts(e.account);
    SpellOthers(e);
  }

  function AddAll(m: map<string, Account>, es: seq<Entry>): map<string, Account>
    decreases |es|
  {
    if es == [] then m else AddAll(m[es[0].name := es[0].account], es[1..])
  }

  lemma {:induction false} MembersLoad(es: seq<Entry>, m: map<string, Account>)
    requires forall e <- es :: ListsGroups(e.groups, e.account.groups)
    ensures LoadMembers(DocumentMembers(es), m) == LoadResult(Success, AddAll(m, es))
    decreases |es|
  {
    hide AccountFrom, EntryMembers, ListsGroups;
    if es != [] {
      EntryReads(es[0]);
      assert DocumentMembers(es)[1..] == DocumentMembers(es[1..]);
      MembersLoad(es[1..], m[es[0].name := es[0].account]);
    }
  }

  lemma {:induction false} AddAllAdds(m: map<string, Account>, es: seq<Entry>)
    requires NoDuplicates(NamesOf(es))
    ensures AddAll(m, es).Keys == m.Keys + set n <- NamesOf(es)
    ensures forall e <- es :: e.name in AddAll(m, es) && AddAll(m, es)[e.name] == e.account
    ensures forall n <- m.Keys :: n !in NamesOf(es) ==> n in AddAll(m, es) && AddAll(m, es)[n] == m[n]
    decreases |es|
  {
    if es != [] {
      var e, m' := es[0], m[es[0].name := es[0].account];
      assert NamesOf(es) == [e.name] + NamesOf(es[1..]);
      AddAllAdds(m', es[1..]);
      assert e.name !in NamesOf(es[1..]);
    }
  }

  /** Saving and loading again gives the accounts back, whatever was loaded
      before: the text is valid JSON at both levels of trailing commas, with or
      without accounts, with or without groups. */
  lemma SaveThenLoad(es: seq<Entry>, m: map<string, Account>, before: map<string, Account>)
    requires Lists(es, m) && forall e <- es :: CleanEntry(e)
    ensures Load(FileText(SpellEach(DocumentLines(es))), before) == LoadResult(Success, m)
  {
    hide Read, DocumentMembers, LoadMembers, DocumentLines, AddAll, FileText;
    DocumentReads(SpellEach(DocumentLines(es)), es);
    MembersLoad(es, map[]);
    AddAllAdds(map[], es);
    var r := AddAll(map[], es);
    forall n <- m.Keys ensures r[n] == m[n] {
      assert n in NamesOf(es);
      var i :| 0 <= i < |es| && NamesOf(es)[i] == n;
      assert es[i] in es;
    }
    assert r == m;
  }
}
