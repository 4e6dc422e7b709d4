/** What the textual replacements of the supervisor mean: values in which `$`,
    `{` and `}` occur only as part of `${NAME}` are sequences of literals and
    references, and replacing text is substituting references. */
module TemplateMeaning {
  import opened Replace
  import opened Seqs
  import opened Templates

  datatype Token = Lit(c: char) | Ref(name: string)

  predicate Plain(s: string) { '$' !in s && '{' !in s && '}' !in s }

  predicate WellFormedToken(t: Token)
  {
    match t case Lit(c) => c !in "${}" case Ref(n) => Plain(n)
  }

  predicate WellFormed(ts: seq<Token>) { forall t <- ts :: WellFormedToken(t) }

  function RenderToken(t: Token): string
  {
    match t case Lit(c) => [c] case Ref(n) => Reference(n)
  }

  function Render(ts: seq<Token>): string
  {
    if ts == [] then [] else RenderToken(ts[0]) + Render(ts[1..])
  }

  // ------------------------------------------- replacing text is substituting

  function Subst(ts: seq<Token>, name: string, by_: seq<Token>): seq<Token>
  {
    if ts == [] then []
    else (if ts[0] == Ref(name) then by_ else [ts[0]]) + Subst(ts[1..], name, by_)
  }

  lemma {:induction false} RenderConcat(a: seq<Token>, b: seq<Token>)
    ensures Render(a + b) == Render(a) + Render(b)
  {
    if a == [] {
      assert a + b == b;
    } else {
      assert (a + b)[1..] == a[1..] + b;
      RenderConcat(a[1..], b);
      Assoc(RenderToken(a[0]), Render(a[1..]), Render(b));
    }
  }

  /** Two different references never match as text, whatever follows. */
  lemma ReferencesDiffer(m: string, n: string, rest: string)
    requires Plain(m) && Plain(n) && m != n
    ensures !(Reference(n) <= Reference(m) + rest)
  {
    var s, t := Reference(n), Reference(m) + rest;
    assert forall i :: 0 <= i < |n| ==> s[i + 2] == n[i];
    assert forall i :: 0 <= i < |m| ==> t[i + 2] == m[i];
    assert s[|n| + 2] == t[|m| + 2] == '}';
    if |n| == |m| {
      var i :| 0 <= i < |n| && n[i] != m[i];
      assert s[i + 2] != t[i + 2];
    } else if |n| < |m| {
      assert m[|n|] in m && s[|n| + 2] != t[|n| + 2];
    } else {
      assert n[|m|] in n && s[|m| + 2] != t[|m| + 2];
    }
  }

  lemma ReplaceMiss(c: char, rest: string, needle: string, text: string)
    requires needle != [] && !(needle <= [c] + rest)
    ensures ReplaceAll([c] + rest, needle, text) == [c] + ReplaceAll(rest, needle, text)
  {
    assert ([c] + rest)[1..] == rest;
  }

  /** Another reference at the front of a text is left alone. */
  lemma ReplaceOther(other: string, rest: string, name: string, text: string)
    requires Plain(other) && Plain(name) && other != name
    ensures ReplaceAll(Reference(other) + rest, Reference(name), text) ==
            Reference(other) + ReplaceAll(rest, Reference(name), text)
  {
    hide ReplaceAll;
    var needle, tail := Reference(name), "{" + other + "}";
    ReferencesDiffer(other, name, rest);
    assert Reference(other) == ['$'] + tail;
    assert Reference(other) + rest == ['$'] + (tail + rest);
    ReplaceMiss('$', tail + rest, needle, text);
    ReplaceSkips(tail, rest, needle, text);
    Assoc(['$'], tail, ReplaceAll(rest, needle, text));
  }

  /** One token at the front of a text, seen by replace_all. */
  lemma ReplaceToken(t: Token, rest: string, name: string, text: string)
    requires WellFormedToken(t) && Plain(name)
    ensures ReplaceAll(RenderToken(t) + rest, Reference(name), text) ==
            (if t == Ref(name) then text else RenderToken(t)) + ReplaceAll(rest, Reference(name), text)
  {
    hide ReplaceAll;
    if t == Ref(name) {
      ReplaceHit(rest, Reference(name), text);
    } else if t.Lit? {
      assert Reference(name)[0] == '$' && '$' !in RenderToken(t);
      ReplaceSkips(RenderToken(t), rest, Reference(name), text);
    } else {
      ReplaceOther(t.name, rest, name, text);
    }
  }

  lemma {:induction false} ReplaceIsSubst(ts: seq<Token>, name: string, by_: seq<Token>)
    requires WellFormed(ts) && Plain(name)
    ensures ReplaceAll(Render(ts), Reference(name), Render(by_)) == Render(Subst(ts, name, by_))
  {
    if ts != [] {
      var rest := Subst(ts[1..], name, by_);
      ReplaceToken(ts[0], Render(ts[1..]), name, Render(by_));
      ReplaceIsSubst(ts[1..], name, by_);
      RenderConcat(if ts[0] == Ref(name) then by_ else [ts[0]], rest);
      assert Render([ts[0]]) == RenderToken(ts[0]) + Render([ts[0]][1..]);
    }
  }

  lemma {:induction false} SubstWellFormed(ts: seq<Token>, name: string, by_: seq<Token>)
    requires WellFormed(ts) && WellFormed(by_)
    ensures WellFormed(Subst(ts, name, by_))
  {
    if ts != [] {
      SubstWellFormed(ts[1..], name, by_);
    }
  }

  // ------------------------------------------------------ the syntax of references

  /** Between plain texts, a dollar sign and a name in braces is replaced by the
      value, whatever the value contains. */
  lemma ReferenceIsReplaced(before: string, name: string, behind: string, text: string)
    requires Plain(before) && Plain(name) && Plain(behind)
    ensures ReplaceAll(before + ['$', '{'] + name + ['}'] + behind, Reference(name), text) == before + text + behind
  {
    hide ReplaceAll;
    var needle := Reference(name);
    var whole := ['$', '{'] + name + ['}'];
    assert needle == whole;
    assert before + ['$', '{'] + name + ['}'] + behind == before + (whole + behind);
    ReplaceSkips(before, needle + behind, needle, text);
    ReplaceHit(behind, needle, text);
    PlainIsLeftAlone(behind, name, text);
    Assoc(before, text, behind);
  }

  /** Plain text is left alone, and so is another name, and a name in braces without
      the dollar sign. */
  lemma PlainIsLeftAlone(s: string, name: string, text: string)
    requires '$' !in s
    ensures ReplaceAll(s, Reference(name), text) == s
  {
    hide ReplaceAll;
    ReplaceSkips(s, [], Reference(name), text);
    assert s + [] == s;
    NothingToReplace(Reference(name), text);
    assert s + ReplaceAll([], Reference(name), text) == s;
  }

  lemma NothingToReplace(needle: string, text: string)
    requires needle != []
    ensures ReplaceAll([], needle, text) == []
  {
  }

  // ------------------------------------------------------ recursive expansion

  /** A configured constant in parsed form. */
  datatype Parsed = Parsed(name: string, body: seq<Token>)

  predicate ValidList(ps: seq<Parsed>)
  {
    forall p <- ps :: Plain(p.name) && WellFormed(p.body)
  }

  function Text(ps: seq<Parsed>): (cs: seq<Constant>)
    ensures |cs| == |ps|
    ensures forall i :: 0 <= i < |ps| ==> cs[i] == Constant(ps[i].name, Render(ps[i].body))
  {
    seq(|ps|, i requires 0 <= i < |ps| => Constant(ps[i].name, Render(ps[i].body)))
  }

  /** The nearest constant of that name before position i, or -1. */
  function Nearest(ps: seq<Parsed>, name: string, i: nat): (k: int)
    requires i <= |ps|
    ensures -1 <= k < i
    ensures k >= 0 ==> ps[k].name == name && forall j :: k < j < i ==> ps[j].name != name
    ensures k < 0 ==> forall j :: 0 <= j < i ==> ps[j].name != name
  {
    if i == 0 then -1 else if ps[i - 1].name == name then i - 1 else Nearest(ps, name, i - 1)
  }

  /** Full recursive expansion: a reference to a constant before position i
      stands for the expansion of that constant at its own position; every
      other reference stays. */
  function Expand(ps: seq<Parsed>, ts: seq<Token>, i: nat): seq<Token>
    requires i <= |ps|
    decreases i, |ts|
  {
    if ts == [] then []
    else ExpandToken(ps, ts[0], i) + Expand(ps, ts[1..], i)
  }

  function ExpandToken(ps: seq<Parsed>, t: Token, i: nat): seq<Token>
    requires i <= |ps|
    decreases i, 0
  {
    if t.Lit? then [t]
    else
      var k := Nearest(ps, t.name, i);
      if k < 0 then [t] else Expand(ps, ps[k].body, k)
  }

  lemma {:induction false} ExpandConcat(ps: seq<Parsed>, a: seq<Token>, b: seq<Token>, i: nat)
    requires i <= |ps|
    ensures Expand(ps, a + b, i) == Expand(ps, a, i) + Expand(ps, b, i)
  {
    if a == [] {
      assert a + b == b;
    } else {
      assert (a + b)[1..] == a[1..] + b;
      ExpandConcat(ps, a[1..], b, i);
    }
  }

  lemma ExpandSingle(ps: seq<Parsed>, t: Token, i: nat)
    requires i <= |ps|
    ensures Expand(ps, [t], i) == ExpandToken(ps, t, i)
  {
    assert Expand(ps, [t][1..], i) == [];
  }

  lemma {:induction false} ExpandNothing(ps: seq<Parsed>, ts: seq<Token>)
    ensures Expand(ps, ts, 0) == ts
  {
    if ts != [] {
      ExpandNothing(ps, ts[1..]);
    }
  }

  /** Substituting the last constant first and expanding the rest is expanding
      everything. */
  lemma {:induction false} ExpandStep(ps: seq<Parsed>, ts: seq<Token>, i: nat)
    requires 0 < i <= |ps|
    ensures Expand(ps, Subst(ts, ps[i - 1].name, ps[i - 1].body), i - 1) == Expand(ps, ts, i)
  {
    if ts != [] {
      var p, t := ps[i - 1], ts[0];
      var head := if t == Ref(p.name) then p.body else [t];
      ExpandStep(ps, ts[1..], i);
      ExpandConcat(ps, head, Subst(ts[1..], p.name, p.body), i - 1);
      ExpandSingle(ps, t, i - 1);
      assert Expand(ps, head, i - 1) == ExpandToken(ps, t, i);
    }
  }

  /** The inner loop of extract_constants on parsed values. */
  function Down(ps: seq<Parsed>, ts: seq<Token>, i: nat): seq<Token>
    requires i <= |ps|
    decreases i
  {
    if i == 0 then ts else Down(ps, Subst(ts, ps[i - 1].name, ps[i - 1].body), i - 1)
  }

  lemma {:induction false} ResolveDownIsDown(ps: seq<Parsed>, ts: seq<Token>, i: nat)
    requires ValidList(ps) && WellFormed(ts) && i <= |ps|
    ensures ResolveDown(Render(ts), Text(ps), i) == Render(Down(ps, ts, i))
    decreases i
  {
    hide Render, Subst, ReplaceAll, WellFormed, Reference;
    if i > 0 {
      var p := ps[i - 1];
      assert p in ps;
      ReplaceIsSubst(ts, p.name, p.body);
      SubstWellFormed(ts, p.name, p.body);
      ResolveDownIsDown(ps, Subst(ts, p.name, p.body), i - 1);
    }
  }

  /** The inner loop computes the full expansion. */
  lemma {:induction false} DownExpands(ps: seq<Parsed>, ts: seq<Token>, i: nat)
    requires i <= |ps|
    ensures Down(ps, ts, i) == Expand(ps, ts, i)
    decreases i
  {
    if i == 0 {
      ExpandNothing(ps, ts);
    } else {
      DownExpands(ps, Subst(ts, ps[i - 1].name, ps[i - 1].body), i - 1);
      ExpandStep(ps, ts, i);
    }
  }

  /** extract_constants, for every list of constants whose values are well
      formed: the i-th extracted value is the recursive expansion of the i-th
      configured value. */
  lemma ExtractedIsExpanded(ps: seq<Parsed>, i: nat)
    requires ValidList(ps) && i < |ps|
    ensures ResolveDown(Text(ps)[i].value, Text(ps), i) == Render(Expand(ps, ps[i].body, i))
  {
    assert ps[i] in ps;
    ResolveDownIsDown(ps, ps[i].body, i);
    DownExpands(ps, ps[i].body, i);
  }

  // -------------------------------------------------- no reference survives

  predicate Names(ps: seq<Parsed>, name: string) { exists p :: p in ps && p.name == name }

  /** No token refers to a constant of the list. */
  predicate Closed(ps: seq<Parsed>, ts: seq<Token>)
  {
    forall t <- ts :: t.Ref? ==> !Names(ps, t.name)
  }

  /** References to constants point to earlier constants only. */
  predicate PointsBackwards(ps: seq<Parsed>, i: nat)
    requires i < |ps|
  {
    forall t <- ps[i].body :: t.Ref? && Names(ps, t.name) ==> Nearest(ps, t.name, i) >= 0
  }

  lemma {:induction false} BackwardsCloses(ps: seq<Parsed>, ts: seq<Token>, i: nat)
    requires i <= |ps| && forall k :: 0 <= k < i ==> PointsBackwards(ps, k)
    requires forall t <- ts :: t.Ref? && Names(ps, t.name) ==> Nearest(ps, t.name, i) >= 0
    ensures Closed(ps, Expand(ps, ts, i))
    decreases i, |ts|
  {
    if ts != [] {
      var t := ts[0];
      BackwardsCloses(ps, ts[1..], i);
      if t.Ref? {
        var k := Nearest(ps, t.name, i);
        if k >= 0 {
          assert PointsBackwards(ps, k);
          BackwardsCloses(ps, ps[k].body, k);
        }
      }
      assert forall u <- ExpandToken(ps, t, i) :: u.Ref? ==> !Names(ps, u.name);
    }
  }

  /** A reference that does not point backwards survives unchanged. */
  lemma {:induction false} ForwardSurvives(ps: seq<Parsed>, ts: seq<Token>, i: nat, t: Token)
    requires i <= |ps| && t in ts && t.Ref? && Nearest(ps, t.name, i) < 0
    ensures t in Expand(ps, ts, i)
  {
    if t == ts[0] {
      assert ExpandToken(ps, t, i) == [t];
    } else {
      ForwardSurvives(ps, ts[1..], i, t);
    }
  }

  lemma NoTokenSurvives(ps: seq<Parsed>)
    ensures (forall i :: 0 <= i < |ps| ==> Closed(ps, Expand(ps, ps[i].body, i)))
            <==> (forall i :: 0 <= i < |ps| ==> PointsBackwards(ps, i))
  {
    if forall i :: 0 <= i < |ps| ==> PointsBackwards(ps, i) {
      forall i | 0 <= i < |ps| ensures Closed(ps, Expand(ps, ps[i].body, i)) {
        assert PointsBackwards(ps, i);
        BackwardsCloses(ps, ps[i].body, i);
      }
    } else {
      var i :| 0 <= i < |ps| && !PointsBackwards(ps, i);
      var t :| t in ps[i].body && t.Ref? && Names(ps, t.name) && Nearest(ps, t.name, i) < 0;
      ForwardSurvives(ps, ps[i].body, i, t);
    }
  }

  predicate OccursAt(text: string, what: string, k: nat)
  {
    k + |what| <= |text| && text[k..k + |what|] == what
  }

  /** A reference occurs in a text somewhere. */
  ghost predicate Occurs(text: string, what: string)
  {
    exists k: nat :: OccursAt(text, what, k)
  }

  lemma {:induction false} ReplacingNothingKeepsLength(text: string, what: string)
    requires what != ""
    ensures |ReplaceAll(text, what, "")| <= |text|
    decreases |text|
  {
    if |what| <= |text| {
      ReplacingNothingKeepsLength(if what <= text then text[|what|..] else text[1..], what);
    }
  }

  lemma {:induction false} ReplacingOccurrenceShortens(text: string, what: string)
    requires what != "" && Occurs(text, what)
    ensures |ReplaceAll(text, what, "")| < |text|
    decreases |text|
  {
    var k: nat :| OccursAt(text, what, k);
    if what <= text {
      ReplacingNothingKeepsLength(text[|what|..], what);
    } else {
      assert k > 0;
      assert OccursAt(text[1..], what, k - 1);
      ReplacingOccurrenceShortens(text[1..], what);
    }
  }

  lemma {:induction false} SubstAbsent(ts: seq<Token>, name: string)
    requires Ref(name) !in ts
    ensures Subst(ts, name, []) == ts
  {
    if ts != [] {
      SubstAbsent(ts[1..], name);
    }
  }

  lemma OccursInside(before: string, what: string, behind: string)
    ensures Occurs(before + (what + behind), what)
  {
    var text := before + (what + behind);
    assert text[|before|..|before| + |what|] == what;
    assert OccursAt(text, what, |before|);
  }

  lemma RenderOne(t: Token)
    ensures Render([t]) == RenderToken(t)
  {
    assert Render([t]) == RenderToken(t) + Render([t][1..]);
  }

  /** In a well-formed text a reference occurs only as a token of its own. */
  lemma OccursIffToken(ts: seq<Token>, name: string)
    requires WellFormed(ts) && Plain(name)
    ensures Occurs(Render(ts), Reference(name)) <==> Ref(name) in ts
  {
    hide Render, Occurs, Subst, ReplaceAll;
    if Ref(name) in ts {
      var j :| 0 <= j < |ts| && ts[j] == Ref(name);
      var before, behind := ts[..j], ts[j + 1..];
      assert ts == before + ([ts[j]] + behind);
      RenderConcat(before, [ts[j]] + behind);
      RenderConcat([ts[j]], behind);
      RenderOne(ts[j]);
      OccursInside(Render(before), Reference(name), Render(behind));
    } else if Occurs(Render(ts), Reference(name)) {
      SubstAbsent(ts, name);
      RenderNothing();
      ReplaceIsSubst(ts, name, []);
      ReplacingOccurrenceShortens(Render(ts), Reference(name));
    }
  }

  lemma RenderNothing()
    ensures Render([]) == ""
  {
  }

  lemma {:induction false} ExpandWellFormed(ps: seq<Parsed>, ts: seq<Token>, i: nat)
    requires ValidList(ps) && WellFormed(ts) && i <= |ps|
    ensures WellFormed(Expand(ps, ts, i))
    decreases i, |ts|
  {
    if ts != [] {
      ExpandWellFormed(ps, ts[1..], i);
      if ts[0].Ref? {
        var k := Nearest(ps, ts[0].name, i);
        if k >= 0 {
          assert ps[k] in ps;
          ExpandWellFormed(ps, ps[k].body, k);
        }
      }
      assert WellFormed(ExpandToken(ps, ts[0], i));
    }
  }

  /** The text extract_constants leaves in constant i. */
  function ExtractedText(ps: seq<Parsed>, i: nat): string
    requires i < |ps|
  {
    ResolveDown(Text(ps)[i].value, Text(ps), i)
  }

  /** A constant's text contains no reference to any constant. */
  ghost predicate FreeOfReferences(ps: seq<Parsed>, text: string)
  {
    forall p <- ps :: !Occurs(text, Reference(p.name))
  }

  lemma FreeIffClosed(ps: seq<Parsed>, i: nat)
    requires ValidList(ps) && i < |ps|
    ensures FreeOfReferences(ps, ExtractedText(ps, i)) <==> Closed(ps, Expand(ps, ps[i].body, i))
  {
    hide Occurs, Expand, ResolveDown;
    var ts := Expand(ps, ps[i].body, i);
    assert ps[i] in ps;
    ExtractedIsExpanded(ps, i);
    ExpandWellFormed(ps, ps[i].body, i);
    forall p | p in ps ensures Occurs(Render(ts), Reference(p.name)) <==> Ref(p.name) in ts {
      OccursIffToken(ts, p.name);
    }
  }

  /** No extracted text contains a reference to any constant if and only if every
      configured reference points backwards. */
  lemma NoReferenceSurvives(ps: seq<Parsed>)
    requires ValidList(ps)
    ensures (forall i :: 0 <= i < |ps| ==> FreeOfReferences(ps, ExtractedText(ps, i)))
            <==> (forall i :: 0 <= i < |ps| ==> PointsBackwards(ps, i))
  {
    hide FreeOfReferences, ExtractedText, Closed, PointsBackwards;
    forall i | 0 <= i < |ps|
      ensures FreeOfReferences(ps, ExtractedText(ps, i)) <==> Closed(ps, Expand(ps, ps[i].body, i))
    {
      FreeIffClosed(ps, i);
    }
    NoTokenSurvives(ps);
  }

  // ---------------------------------------------- resolving against a vector

  /** Sequential substitution, first entry first: what resolve over a vector
      does. */
  function Sequential(ts: seq<Token>, ps: seq<Parsed>): seq<Token>
    decreases |ps|
  {
    if ps == [] then ts else Sequential(Subst(ts, ps[0].name, ps[0].body), ps[1..])
  }

  lemma {:induction false} ResolveEachIsSequential(ts: seq<Token>, ps: seq<Parsed>)
    requires WellFormed(ts) && ValidList(ps)
    ensures ResolveEach(Render(ts), Text(ps)) == Render(Sequential(ts, ps))
    decreases |ps|
  {
    if ps != [] {
      assert ps[0] in ps && Text(ps)[1..] == Text(ps[1..]);
      ReplaceIsSubst(ts, ps[0].name, ps[0].body);
      SubstWellFormed(ts, ps[0].name, ps[0].body);
      ResolveEachIsSequential(Subst(ts, ps[0].name, ps[0].body), ps[1..]);
    }
  }

  /** Simultaneous substitution by a table. */
  function Simultaneous(ts: seq<Token>, ps: seq<Parsed>): seq<Token>
  {
    if ts == [] then [] else Lookup(ts[0], ps) + Simultaneous(ts[1..], ps)
  }

  function Lookup(t: Token, ps: seq<Parsed>): seq<Token>
  {
    if ps == [] then [t] else if t == Ref(ps[0].name) then ps[0].body else Lookup(t, ps[1..])
  }

  /** Entries whose values refer to no entry. */
  predicate ClosedList(ps: seq<Parsed>) { forall p <- ps :: Closed(ps, p.body) }

  lemma {:induction false} SimultaneousConcat(a: seq<Token>, b: seq<Token>, ps: seq<Parsed>)
    ensures Simultaneous(a + b, ps) == Simultaneous(a, ps) + Simultaneous(b, ps)
  {
    if a == [] {
      assert a + b == b;
    } else {
      assert (a + b)[1..] == a[1..] + b;
      SimultaneousConcat(a[1..], b, ps);
    }
  }

  lemma {:induction false} LookupUnknown(t: Token, ps: seq<Parsed>)
    requires t.Ref? ==> !Names(ps, t.name)
    ensures Lookup(t, ps) == [t]
  {
    if ps != [] {
      assert ps[0] in ps;
      assert t.Ref? ==> !Names(ps[1..], t.name) by {
        assert forall p <- ps[1..] :: p in ps;
      }
      LookupUnknown(t, ps[1..]);
    }
  }

  lemma {:induction false} SimultaneousClosed(ts: seq<Token>, ps: seq<Parsed>)
    requires Closed(ps, ts)
    ensures Simultaneous(ts, ps) == ts
  {
    if ts != [] {
      LookupUnknown(ts[0], ps);
      SimultaneousClosed(ts[1..], ps);
    }
  }

  lemma {:induction false} SimultaneousStep(ts: seq<Token>, ps: seq<Parsed>)
    requires ps != [] && Closed(ps[1..], ps[0].body)
    ensures Simultaneous(Subst(ts, ps[0].name, ps[0].body), ps[1..]) == Simultaneous(ts, ps)
  {
    if ts != [] {
      var p := ps[0];
      var head := if ts[0] == Ref(p.name) then p.body else [ts[0]];
      SimultaneousStep(ts[1..], ps);
      SimultaneousConcat(head, Subst(ts[1..], p.name, p.body), ps[1..]);
      SimultaneousClosed(p.body, ps[1..]);
      assert Simultaneous([ts[0]][1..], ps[1..]) == [];
    }
  }

  lemma TailClosed(ps: seq<Parsed>)
    requires ps != [] && ClosedList(ps)
    ensures Closed(ps[1..], ps[0].body) && ClosedList(ps[1..])
  {
    assert ps[0] in ps;
    forall n: string | Names(ps[1..], n) ensures Names(ps, n) {
      var p :| p in ps[1..] && p.name == n;
      assert p in ps;
    }
  }

  /** When no value refers to a listed name, resolving one entry after the other
      is resolving all of them at once. */
  lemma {:induction false} SequentialIsSimultaneous(ts: seq<Token>, ps: seq<Parsed>)
    requires ClosedList(ps)
    ensures Sequential(ts, ps) == Simultaneous(ts, ps)
    decreases |ps|
  {
    if ps == [] {
      SimultaneousClosed(ts, ps);
    } else {
      TailClosed(ps);
      SequentialIsSimultaneous(Subst(ts, ps[0].name, ps[0].body), ps[1..]);
      SimultaneousStep(ts, ps);
    }
  }

  predicate DistinctNames(ps: seq<Parsed>)
  {
    forall i, j :: 0 <= i < j < |ps| ==> ps[i].name != ps[j].name
  }

  lemma {:induction false} LookupFinds(p: Parsed, ps: seq<Parsed>)
    requires p in ps && DistinctNames(ps)
    ensures Lookup(Ref(p.name), ps) == p.body
  {
    if ps[0] != p {
      LookupFinds(p, ps[1..]);
    }
  }

  lemma LookupOrder(t: Token, ps: seq<Parsed>, qs: seq<Parsed>)
    requires DistinctNames(ps) && DistinctNames(qs) && forall p :: p in ps <==> p in qs
    ensures Lookup(t, ps) == Lookup(t, qs)
  {
    if t.Ref? && Names(ps, t.name) {
      var p :| p in ps && p.name == t.name;
      LookupFinds(p, ps);
      LookupFinds(p, qs);
    } else {
      assert t.Ref? && Names(qs, t.name) ==> Names(ps, t.name);
      LookupUnknown(t, ps);
      LookupUnknown(t, qs);
    }
  }

  /** With distinct names the order of the vector does not matter. */
  lemma ResolveOrderIrrelevant(ts: seq<Token>, ps: seq<Parsed>, qs: seq<Parsed>)
    requires DistinctNames(ps) && DistinctNames(qs) && forall p :: p in ps <==> p in qs
    requires ClosedList(ps)
    ensures Sequential(ts, ps) == Sequential(ts, qs)
  {
    assert forall n: string :: Names(qs, n) ==> Names(ps, n);
    assert ClosedList(qs);
    SequentialIsSimultaneous(ts, ps);
    SequentialIsSimultaneous(ts, qs);
    SimultaneousOrder(ts, ps, qs);
  }

  lemma {:induction false} SimultaneousOrder(ts: seq<Token>, ps: seq<Parsed>, qs: seq<Parsed>)
    requires DistinctNames(ps) && DistinctNames(qs) && forall p :: p in ps <==> p in qs
    ensures Simultaneous(ts, ps) == Simultaneous(ts, qs)
  {
    if ts != [] {
      LookupOrder(ts[0], ps, qs);
      SimultaneousOrder(ts[1..], ps, qs);
    }
  }

  lemma {:induction false} LookupResult(t: Token, ps: seq<Parsed>)
    ensures (Lookup(t, ps) == [t] && (t.Ref? ==> !Names(ps, t.name)))
            || exists p <- ps :: Lookup(t, ps) == p.body
  {
    if ps != [] && t != Ref(ps[0].name) {
      LookupResult(t, ps[1..]);
      if t.Ref? && Names(ps, t.name) {
        var p :| p in ps && p.name == t.name;
        assert p in ps[1..];
      }
    }
  }

  lemma {:induction false} ResolveCloses(ts: seq<Token>, ps: seq<Parsed>)
    requires ClosedList(ps)
    ensures Closed(ps, Simultaneous(ts, ps))
  {
    if ts != [] {
      LookupResult(ts[0], ps);
      assert Closed(ps, Lookup(ts[0], ps));
      ResolveCloses(ts[1..], ps);
    }
  }

  /** When a value does refer to a name, the order matters: "${A}" becomes "x" if A,
      which is "${B}", comes before B, and "${B}" if it comes behind. */
  lemma OrderMatters()
    ensures var a, b := Constant("A", "${B}"), Constant("B", "x");
      ResolveEach("${A}", [a, b]) == "x" && ResolveEach("${A}", [b, a]) == "${B}"
  {
    hide ReplaceAll;
    var a, b := Constant("A", "${B}"), Constant("B", "x");
    assert [a, b][1..] == [b] && [b, a][1..] == [a];
    assert [b][1..] == [] && [a][1..] == [];
    ResolveTwo("${A}", a, b);
    ResolveTwo("${A}", b, a);
    ReferenceIsReplaced("", "A", "", "${B}");
    ReferenceIsReplaced("", "B", "", "x");
    assert "" + ['$', '{'] + "A" + ['}'] + "" == "${A}" && "" + "${B}" + "" == "${B}";
    assert "" + ['$', '{'] + "B" + ['}'] + "" == "${B}" && "" + "x" + "" == "x";
    ReplaceOther("A", "", "B", "x");
    NothingToReplace(Reference("B"), "x");
    assert Reference("A") + "" == "${A}" && Reference("A") + [] == Reference("A");
  }

  lemma ResolveTwo(value: string, a: Constant, b: Constant)
    ensures ResolveEach(value, [a, b])
         == ReplaceAll(ReplaceAll(value, Reference(a.name), a.value), Reference(b.name), b.value)
  {
    hide ReplaceAll;
    var cs := [a, b];
    assert cs[1..] == [b] && [b][1..] == [];
    var once := ReplaceAll(value, Reference(a.name), a.value);
    assert ResolveEach(value, cs) == ResolveEach(once, [b]);
    assert ResolveEach(once, [b]) == ResolveEach(ReplaceAll(once, Reference(b.name), b.value), []);
  }

  /** Resolving twice is resolving once. */
  lemma ResolveIdempotent(ts: seq<Token>, ps: seq<Parsed>)
    requires ClosedList(ps)
    ensures Sequential(Sequential(ts, ps), ps) == Sequential(ts, ps)
  {
    SequentialIsSimultaneous(ts, ps);
    SequentialIsSimultaneous(Sequential(ts, ps), ps);
    ResolveCloses(ts, ps);
    SimultaneousClosed(Simultaneous(ts, ps), ps);
  }
}
