/** yogi-supervisor's FileWatcher: wildcard patterns are compiled to POSIX basic
    regular expressions (section 9.3 of IEEE Std 1003.1) by seven rewrite
    passes over the pattern, and file names are then tested for a full match. */
module Glob {
  import opened Replace

  // ---------------------------------------------------------------- wildcards

  /** `*` stands for any run of characters, `?` for one character, everything
      else for itself. */
  predicate GlobMatches(pattern: string, name: string)
    decreases |pattern| + |name|
  {
    if pattern == [] then name == []
    else if pattern[0] == '*' then
      GlobMatches(pattern[1..], name) || (name != [] && GlobMatches(pattern, name[1..]))
    else
      && name != []
      && (pattern[0] == '?' || pattern[0] == name[0])
      && GlobMatches(pattern[1..], name[1..])
  }

  /** A star matches any run of characters. */
  lemma {:induction false} StarMatchesAnyRun(rest: string, name: string)
    ensures GlobMatches(['*'] + rest, name) <==> exists k :: 0 <= k <= |name| && GlobMatches(rest, name[k..])
    decreases |name|
  {
    var p := ['*'] + rest;
    assert p[1..] == rest && name[0..] == name;
    if name != [] {
      StarMatchesAnyRun(rest, name[1..]);
      if k :| 0 <= k <= |name[1..]| && GlobMatches(rest, name[1..][k..]) {
        assert name[1..][k..] == name[k + 1..];
      }
      if k :| 0 <= k <= |name| && GlobMatches(rest, name[k..]) {
        if k > 0 {
          assert name[1..][k - 1..] == name[k..];
        }
      }
    }
  }

  /** A question mark matches any one character, another character itself, and
      nothing matches nothing. */
  lemma OneCharacter(c: char, rest: string, name: string)
    ensures GlobMatches([], name) <==> name == []
    ensures GlobMatches(['?'] + rest, name) <==> name != [] && GlobMatches(rest, name[1..])
    ensures c != '*' && c != '?' ==>
      (GlobMatches([c] + rest, name) <==> name != [] && name[0] == c && GlobMatches(rest, name[1..]))
  {
    assert (['?'] + rest)[1..] == rest && ([c] + rest)[1..] == rest;
  }

  predicate NulFree(s: string) { '\0' !in s }

  // ------------------------------------------- basic regular expressions (BRE)

  datatype Atom = AnyChar | Literal(c: char)

  datatype Piece = Piece(atom: Atom, starred: bool)

  /** Outcome of reading a BRE: `Unsupported` covers bracket expressions,
      subexpressions, intervals, back-references and everything the standard
      leaves undefined. */
  datatype Bre = Pieces(ps: seq<Piece>) | Unsupported

  /** The characters whose escaped form section 9.3.2 defines as the character
      itself. */
  predicate Special(c: char) { c in ".[\\*^$" }

  /** Reads a BRE from left to right. `start` is true where a `*` is an ordinary
      character and a `^` is an anchor. Anchors add nothing to a full match. */
  function ParseBre(s: string, start: bool): Bre
    decreases |s|, 0
  {
    if s == [] then Pieces([])
    else if s[0] == '\\' then
      if |s| >= 2 && Special(s[1]) then WithAtom(Literal(s[1]), s[2..]) else Unsupported
    else if s[0] == '[' then Unsupported
    else if s[0] == '.' then WithAtom(AnyChar, s[1..])
    else if s[0] == '*' && !start then Unsupported
    else if s[0] == '^' && start then ParseBre(s[1..], true)
    else if s == "$" then Pieces([])
    else WithAtom(Literal(s[0]), s[1..])
  }

  /** An atom has been read; a `*` directly behind it repeats it. */
  function WithAtom(atom: Atom, rest: string): Bre
    decreases |rest|, 1
  {
    var starred := rest != [] && rest[0] == '*';
    var tail := ParseBre(if starred then rest[1..] else rest, false);
    if tail.Pieces? then Pieces([Piece(atom, starred)] + tail.ps) else Unsupported
  }

  /** A period matches every character except NUL (section 9.3.4). */
  predicate AtomMatches(atom: Atom, c: char)
  {
    match atom
    case AnyChar => c != '\0'
    case Literal(l) => c == l
  }

  /** `name` is a concatenation of strings matched by the pieces. */
  ghost predicate PiecesMatch(ps: seq<Piece>, name: string)
  {
    if ps == [] then name == []
    else if ps[0].starred then
      exists k :: 0 <= k <= |name| && Repeats(ps[0].atom, name[..k]) && PiecesMatch(ps[1..], name[k..])
    else
      name != [] && AtomMatches(ps[0].atom, name[0]) && PiecesMatch(ps[1..], name[1..])
  }

  predicate Repeats(atom: Atom, s: string) { forall c <- s :: AtomMatches(atom, c) }

  ghost predicate BreMatches(bre: string, name: string)
  {
    var b := ParseBre(bre, true);
    b.Pieces? && PiecesMatch(b.ps, name)
  }

  // ------------------------------------------------------------- the compiler

  /** What the seven passes amount to for one character. */
  function Translate(c: char): string
  {
    if c == '*' then ".*"
    else if c == '?' then "."
    else if Special(c) then ['\\', c]
    else [c]
  }

  /** The seven passes of wildcard_pattern_to_basic_posix_grammar, in order.
      They are sequential rewrites of one string, yet none of them touches what
      an earlier one produced: the result is the character-wise translation. */
  method WildcardPatternToBasicPosixGrammar(pattern: string) returns (p: string)
    ensures p == FlatMap(pattern, Translate)
  {
    p := ReplaceInPlace(pattern, "\\", "\\\\");
    FirstPass(pattern, p);
    p := ReplaceInPlace(p, ".", "\\.");
    NextPass(pattern, 2, p, ".", "\\.");
    p := ReplaceInPlace(p, "[", "\\[");
    NextPass(pattern, 3, p, "[", "\\[");
    p := ReplaceInPlace(p, "*", ".*");
    NextPass(pattern, 4, p, "*", ".*");
    p := ReplaceInPlace(p, "^", "\\^");
    NextPass(pattern, 5, p, "^", "\\^");
    p := ReplaceInPlace(p, "$", "\\$");
    NextPass(pattern, 6, p, "$", "\\$");
    p := ReplaceInPlace(p, "?", ".");
    NextPass(pattern, 7, p, "?", ".");
    LastPass(pattern);
  }

  /** What the passes up to the n-th make of one character. */
  function Upto(n: nat, c: char): string
    requires 1 <= n <= 7
  {
    if c == '?' then (if n == 7 then "." else "?")
    else if c == '\\' then "\\\\"
    else if c == '.' && n >= 2 then "\\."
    else if c == '[' && n >= 3 then "\\["
    else if c == '*' && n >= 4 then ".*"
    else if c == '^' && n >= 5 then "\\^"
    else if c == '$' && n >= 6 then "\\$"
    else [c]
  }

  function PassChar(n: nat): char
    requires 2 <= n <= 7
  {
    if n == 2 then '.' else if n == 3 then '[' else if n == 4 then '*'
    else if n == 5 then '^' else if n == 6 then '$' else '?'
  }

  function PassText(n: nat): string
    requires 2 <= n <= 7
  {
    if n == 4 then ".*" else if n == 7 then "." else ['\\', PassChar(n)]
  }

  /** The n-th pass changes a character only if no earlier pass has: everything
      an earlier pass emits is free of the character this one looks for. */
  lemma PassOnChar(n: nat, c: char)
    requires 2 <= n <= 7
    ensures var g := x => if x == PassChar(n) then PassText(n) else [x];
            FlatMap(Upto(n - 1, c), g) == Upto(n, c)
  {
    var g := x => if x == PassChar(n) then PassText(n) else [x];
    var u := Upto(n - 1, c);
    if |u| == 1 {
      assert FlatMap(u[1..], g) == [];
    } else {
      assert FlatMap(u[1..][1..], g) == [];
      assert FlatMap(u[1..], g) == g(u[1]);
    }
  }

  /** The pattern after the first n passes. */
  function After(pattern: string, n: nat): string
    requires 1 <= n <= 7
  {
    FlatMap(pattern, c => Upto(n, c))
  }

  lemma FirstPass(pattern: string, p: string)
    requires p == ReplaceAll(pattern, "\\", "\\\\")
    ensures p == After(pattern, 1)
  {
    var g := x => if x == '\\' then "\\\\" else [x];
    ReplaceCharIsFlatMap(pattern, '\\', "\\\\", g);
    FlatMapAgrees(pattern, g, c => Upto(1, c));
  }

  lemma NextPass(pattern: string, n: nat, p: string, needle: string, text: string)
    requires 2 <= n <= 7 && needle == [PassChar(n)] && text == PassText(n)
    requires p == ReplaceAll(After(pattern, n - 1), needle, text)
    ensures p == After(pattern, n)
  {
    var f, h := c => Upto(n - 1, c), c => Upto(n, c);
    var g := x => if x == PassChar(n) then PassText(n) else [x];
    forall c <- pattern ensures h(c) == FlatMap(f(c), g) {
      PassOnChar(n, c);
    }
    FlatMapFuses(pattern, f, g, h);
    ReplaceCharIsFlatMap(FlatMap(pattern, f), PassChar(n), PassText(n), g);
  }

  lemma LastPass(pattern: string)
    ensures After(pattern, 7) == FlatMap(pattern, Translate)
  {
    FlatMapAgrees(pattern, c => Upto(7, c), Translate);
  }

  // ------------------------------------------------------ meaning preservation

  /** The piece a pattern character compiles to. */
  function PieceOf(c: char): Piece
  {
    if c == '*' then Piece(AnyChar, true)
    else if c == '?' then Piece(AnyChar, false)
    else Piece(Literal(c), false)
  }

  function PiecesOf(pattern: string): seq<Piece>
  {
    if pattern == [] then [] else [PieceOf(pattern[0])] + PiecesOf(pattern[1..])
  }

  /** A translated pattern never starts with a repetition symbol, so a translated
      literal is never repeated by accident. */
  lemma NoLeadingStar(pattern: string)
    ensures var t := FlatMap(pattern, Translate); t != [] ==> t[0] != '*'
  {
  }

  /** Every translated pattern is a well-formed BRE that needs no bracket,
      subexpression, interval, back-reference or anchor, and it has exactly one
      piece for every pattern character. */
  lemma {:induction false} TranslationParses(pattern: string, start: bool)
    ensures ParseBre(FlatMap(pattern, Translate), start) == Pieces(PiecesOf(pattern))
  {
    if pattern != [] {
      var c, rest := pattern[0], FlatMap(pattern[1..], Translate);
      var t := FlatMap(pattern, Translate);
      assert t == Translate(c) + rest;
      TranslationParses(pattern[1..], false);
      NoLeadingStar(pattern[1..]);
      if c == '*' {
        assert t[1..] == ['*'] + rest && t[1..][1..] == rest;
      } else if c == '?' {
        assert t[1..] == rest;
      } else if Special(c) {
        assert t[2..] == rest;
      } else {
        assert t[1..] == rest && t[0] != '$';
      }
    }
  }

  lemma {:induction false} PiecesMatchIsGlob(pattern: string, name: string)
    requires NulFree(name)
    ensures PiecesMatch(PiecesOf(pattern), name) <==> GlobMatches(pattern, name)
    decreases |pattern| + |name|
  {
    if pattern != [] {
      var ps := PiecesOf(pattern);
      assert ps[1..] == PiecesOf(pattern[1..]);
      if pattern[0] == '*' {
        StarUnrolls(ps, name);
        PiecesMatchIsGlob(pattern[1..], name);
        if name != [] {
          PiecesMatchIsGlob(pattern, name[1..]);
        }
      } else if name != [] {
        assert name[0] in name;
        PiecesMatchIsGlob(pattern[1..], name[1..]);
      }
    }
  }

  /** A starred period either matches nothing or one more character. */
  lemma StarUnrolls(ps: seq<Piece>, name: string)
    requires NulFree(name) && ps != [] && ps[0] == Piece(AnyChar, true)
    ensures PiecesMatch(ps, name) <==>
            PiecesMatch(ps[1..], name) || (name != [] && PiecesMatch(ps, name[1..]))
  {
    if PiecesMatch(ps, name) {
      var k :| 0 <= k <= |name| && Repeats(AnyChar, name[..k]) && PiecesMatch(ps[1..], name[k..]);
      if k == 0 {
        assert name[0..] == name;
      } else {
        assert name[1..][..k - 1] == name[1..k] && name[1..][k - 1..] == name[k..];
      }
    }
    if PiecesMatch(ps[1..], name) {
      assert name[0..] == name && Repeats(AnyChar, name[..0]);
    }
    if name != [] && PiecesMatch(ps, name[1..]) {
      var k :| 0 <= k <= |name| - 1 && Repeats(AnyChar, name[1..][..k]) && PiecesMatch(ps[1..], name[1..][k..]);
      assert name[1..][k..] == name[k + 1..];
      assert Repeats(AnyChar, name[..k + 1]);
    }
  }

  /** The compiled pattern fully matches a file name exactly when the wildcard
      pattern does. */
  lemma CompiledPatternMeansGlob(pattern: string, name: string)
    requires NulFree(name)
    ensures BreMatches(FlatMap(pattern, Translate), name) <==> GlobMatches(pattern, name)
  {
    TranslationParses(pattern, true);
    PiecesMatchIsGlob(pattern, name);
  }

  /** NUL is the one character for which the two disagree: no file name
      contains it. */
  lemma NulIsNotMatched()
    ensures GlobMatches("?", "\0") && !BreMatches(FlatMap("?", Translate), "\0")
  {
    TranslationParses("?", true);
    assert PiecesOf("?") == [Piece(AnyChar, false)];
    assert GlobMatches("?"[1..], "\0"[1..]);
  }
}
