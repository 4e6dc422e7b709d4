/** yogi-cpp's paths: names of terminals and processes, joined with '/'. */
module Paths {

  datatype Result<T> = Ok(value: T) | BadPath(path: string)

  /** What the constructor throws on. */
  predicate HasDoubleSlash(s: string) { exists i :: 0 <= i < |s| - 1 && s[i] == '/' == s[i + 1] }

  function MakePath(str: string): Result<string>
  {
    if HasDoubleSlash(str) then BadPath(str)
    else if |str| > 1 && str[|str| - 1] == '/' then Ok(str[..|str| - 1])
    else Ok(str)
  }

  predicate IsAbsolute(p: string) { p != "" && p[0] == '/' }

  predicate IsRoot(p: string) { p == "/" }

  /** operator/. */
  function Divide(p: string, other: string): Result<string>
  {
    if IsAbsolute(other) then BadPath(other)
    else if IsRoot(p) then MakePath(p + other)
    else MakePath(p + "/" + other)
  }

  predicate Valid(p: string)
  {
    !HasDoubleSlash(p) && (p != "" && p[|p| - 1] == '/' ==> IsRoot(p))
  }

  /** The constructor makes valid paths only, leaves valid ones alone, and
      throws on a double slash only. */
  lemma ConstructorMakesValid(str: string)
    ensures MakePath(str).Ok? <==> !HasDoubleSlash(str)
    ensures MakePath(str).Ok? ==> Valid(MakePath(str).value)
    ensures Valid(str) ==> MakePath(str) == Ok(str)
  {
    if !HasDoubleSlash(str) && |str| > 1 && str[|str| - 1] == '/' {
      assert str[|str| - 2] != '/';
    }
  }

  // ----------------------------------------------------------------- segments

  /** Everything between slashes, empty parts included. */
  function Split(s: string): (parts: seq<string>)
    ensures parts != []
  {
    if s == "" then [""]
    else
      var before := Split(s[..|s| - 1]);
      var c := s[|s| - 1];
      if c == '/' then before + [""]
      else before[..|before| - 1] + [before[|before| - 1] + [c]]
  }

  function NonEmpty(parts: seq<string>): seq<string>
  {
    if parts == [] then []
    else NonEmpty(parts[..|parts| - 1]) + if parts[|parts| - 1] == "" then [] else [parts[|parts| - 1]]
  }

  /** The names a path consists of. */
  function Segments(p: string): seq<string> { NonEmpty(Split(p)) }

  function Spell(absolute: bool, segments: seq<string>): string
  {
    (if absolute then "/" else "") + Slashed(segments)
  }

  function Slashed(parts: seq<string>): string
  {
    if parts == [] then ""
    else if |parts| == 1 then parts[0]
    else Slashed(parts[..|parts| - 1]) + "/" + parts[|parts| - 1]
  }

  lemma {:induction false} SlashedLast(parts: seq<string>, t: string)
    requires parts != []
    ensures Slashed(parts[..|parts| - 1] + [parts[|parts| - 1] + t]) == Slashed(parts) + t
  {
    var n := |parts| - 1;
    var q := parts[..n] + [parts[n] + t];
    assert q[..n] == parts[..n];
    if n > 0 {
      assert Slashed(parts[..n]) + "/" + (parts[n] + t) == (Slashed(parts[..n]) + "/" + parts[n]) + t;
    }
  }

  lemma {:induction false} SlashedSplit(s: string)
    ensures Slashed(Split(s)) == s
  {
    if s != "" {
      var n := |s| - 1;
      SlashedSplit(s[..n]);
      var before := Split(s[..n]);
      assert s == s[..n] + [s[n]];
      if s[n] == '/' {
        assert (before + [""])[..|before|] == before;
      } else {
        SlashedLast(before, [s[n]]);
      }
    }
  }

  lemma SplitSnoc(s: string, c: char)
    ensures c == '/' ==> Split(s + [c]) == Split(s) + [""]
    ensures c != '/' ==> Split(s + [c]) == Split(s)[..|Split(s)| - 1] + [Split(s)[|Split(s)| - 1] + [c]]
  {
    assert (s + [c])[..|s|] == s;
  }

  lemma NoDoubleSlashBefore(t: string, c: char)
    requires !HasDoubleSlash(t + [c])
    ensures !HasDoubleSlash(t)
    ensures c == '/' && t != "" ==> t[|t| - 1] != '/'
  {
    var s := t + [c];
    if t != "" {
      assert s[|t| - 1] == t[|t| - 1] && s[|t|] == c;
    }
    forall i | 0 <= i < |t| - 1 ensures !(t[i] == '/' == t[i + 1]) {
      assert s[i] == t[i] && s[i + 1] == t[i + 1];
    }
  }

  /** A part is empty where two slashes meet, or a slash meets an end. */
  lemma {:induction false} EmptyParts(s: string)
    requires !HasDoubleSlash(s)
    ensures forall i :: 0 < i < |Split(s)| - 1 ==> Split(s)[i] != ""
    ensures Split(s)[|Split(s)| - 1] == "" <==> s == "" || s[|s| - 1] == '/'
    ensures |Split(s)| > 1 ==> (Split(s)[0] == "" <==> IsAbsolute(s))
    ensures |Split(s)| == 1 <==> '/' !in s
  {
    hide Split, HasDoubleSlash;
    if s == "" {
      SplitNothing();
    } else {
      var t, c := s[..|s| - 1], s[|s| - 1];
      assert s == t + [c];
      NoDoubleSlashBefore(t, c);
      EmptyParts(t);
      SplitSnoc(t, c);
      if t == "" {
        SplitNothing();
      } else {
        assert t[0] == s[0];
      }
    }
  }

  lemma {:induction false} NonEmptyAll(parts: seq<string>)
    requires forall i :: 0 <= i < |parts| ==> parts[i] != ""
    ensures NonEmpty(parts) == parts
  {
    if parts != [] {
      NonEmptyAll(parts[..|parts| - 1]);
      assert parts == parts[..|parts| - 1] + [parts[|parts| - 1]];
    }
  }

  lemma {:induction false} NonEmptyConcat(x: seq<string>, y: seq<string>)
    ensures NonEmpty(x + y) == NonEmpty(x) + NonEmpty(y)
  {
    if y == [] {
      assert x + y == x;
    } else {
      var n := |y| - 1;
      NonEmptyConcat(x, y[..n]);
      assert (x + y)[..|x + y| - 1] == x + y[..n];
    }
  }

  lemma {:induction false} SlashedEmptyFirst(parts: seq<string>)
    ensures parts != [] ==> Slashed([""] + parts) == "/" + Slashed(parts)
  {
    if |parts| > 1 {
      var n := |parts| - 1;
      SlashedEmptyFirst(parts[..n]);
      assert ([""] + parts)[..n + 1] == [""] + parts[..n];
    } else if |parts| == 1 {
      assert ([""] + parts)[..1] == [""];
    }
  }

  lemma NonEmptyOfEmptyFirst(parts: seq<string>)
    requires forall i :: 0 <= i < |parts| ==> parts[i] != ""
    ensures NonEmpty([""] + parts) == parts
  {
    NonEmptyConcat([""], parts);
    assert [""][..0] == [];
    NonEmptyAll(parts);
  }

  lemma RootHasNoSegments()
    ensures Segments("") == Segments("/") == []
  {
    SplitNothing();
    assert [""][..0] == [] && ["", ""][..1] == [""];
  }

  /** A valid path is spelled by its names and by whether it is absolute; the
      empty path and the root have no names. */
  lemma PathIsItsSegments(p: string)
    requires Valid(p)
    ensures p == Spell(IsAbsolute(p), Segments(p))
    ensures forall x <- Segments(p) :: x != ""
  {
    hide Split, NonEmpty, HasDoubleSlash;
    RootHasNoSegments();
    if p != "" && !IsRoot(p) {
      var parts := Split(p);
      EmptyParts(p);
      SlashedSplit(p);
      if IsAbsolute(p) {
        var names := parts[1..];
        assert parts == [""] + names;
        NonEmptyOfEmptyFirst(names);
        SlashedEmptyFirst(names);
      } else {
        NonEmptyAll(parts);
      }
    }
  }

  lemma {:induction false} SplitConcat(a: string, b: string)
    ensures Split(a + "/" + b) == Split(a) + Split(b)
  {
    hide Split;
    if b == "" {
      assert a + "/" + b == a + ['/'];
      SplitSnoc(a, '/');
      SplitNothing();
    } else {
      var m := |b| - 1;
      var s := a + "/" + b[..m];
      SplitConcat(a, b[..m]);
      assert b == b[..m] + [b[m]];
      assert a + "/" + b == s + [b[m]];
      SplitSnoc(s, b[m]);
      SplitSnoc(b[..m], b[m]);
    }
  }

  lemma SplitNothing()
    ensures Split("") == [""] && Split("/") == ["", ""]
  {
    assert "/"[..0] == "" && Split("") == [""];
  }

  // --------------------------------------------------------------------- joining

  lemma TrailingSlash(s: string)
    requires s != "" && s[|s| - 1] == '/'
    ensures Segments(s[..|s| - 1]) == Segments(s)
  {
    var before := Split(s[..|s| - 1]);
    assert (before + [""])[..|before|] == before;
  }

  /** Joining a valid path with a valid one fails exactly when the second is
      absolute. It joins the lists of names, and the result is absolute when the
      first path is absolute or empty. */
  lemma DivideJoinsSegments(p: string, other: string)
    requires Valid(p) && Valid(other)
    ensures Divide(p, other).Ok? <==> !IsAbsolute(other)
    ensures Divide(p, other).Ok? ==>
      var r := Divide(p, other).value;
      && Valid(r)
      && Segments(r) == Segments(p) + Segments(other)
      && (IsAbsolute(r) <==> IsAbsolute(p) || p == "")
      && r != ""
  {
    hide Split, NonEmpty;
    if !IsAbsolute(other) {
      var s := if IsRoot(p) then p + other else p + "/" + other;
      assert !HasDoubleSlash(s) by {
        forall i | 0 <= i < |s| - 1 ensures !(s[i] == '/' == s[i + 1]) {
          var k := |s| - |other|;
          if i < |p| - 1 {
            assert s[i] == p[i] && s[i + 1] == p[i + 1];
          } else if i >= k {
            assert s[i] == other[i - k] && s[i + 1] == other[i - k + 1];
          }
        }
      }
      ConstructorMakesValid(s);
      if IsRoot(p) {
        assert s == "" + "/" + other;
        SplitConcat("", other);
        NonEmptyConcat(Split(""), Split(other));
        RootHasNoSegments();
      } else {
        SplitConcat(p, other);
        NonEmptyConcat(Split(p), Split(other));
      }
      assert Segments(s) == Segments(p) + Segments(other);
      if |s| > 1 && s[|s| - 1] == '/' {
        TrailingSlash(s);
      }
    }
  }

  function Then(r: Result<string>, other: string): Result<string>
  {
    match r
    case Ok(p) => Divide(p, other)
    case BadPath(_) => r
  }

  function After(p: string, r: Result<string>): Result<string>
  {
    match r
    case Ok(other) => Divide(p, other)
    case BadPath(_) => r
  }

  /** Both throw, or both give the same path. */
  predicate Agree(x: Result<string>, y: Result<string>) { x.Ok? && y.Ok? ==> x == y }

  predicate Same(x: Result<string>, y: Result<string>) { (x.Ok? <==> y.Ok?) && Agree(x, y) }

  /** Joining is associative, except that an empty path in the middle makes the
      right-hand side absolute, which cannot be joined to anything. */
  lemma DivideAssociatesIff(a: string, b: string, c: string)
    requires Valid(a) && Valid(b) && Valid(c)
    ensures Same(Then(Divide(a, b), c), After(a, Divide(b, c))) <==> !(b == "" && !IsAbsolute(c))
    ensures Agree(Then(Divide(a, b), c), After(a, Divide(b, c)))
  {
    hide Divide, Valid, IsAbsolute, Segments;
    DivideJoinsSegments(a, b);
    DivideJoinsSegments(b, c);
    if Divide(a, b).Ok? {
      DivideJoinsSegments(Divide(a, b).value, c);
    }
    if Divide(b, c).Ok? {
      DivideJoinsSegments(a, Divide(b, c).value);
    }
    EmptyIsRelative();
    var x, y := Then(Divide(a, b), c), After(a, Divide(b, c));
    if x.Ok? && y.Ok? {
      assert (Segments(a) + Segments(b)) + Segments(c) == Segments(a) + (Segments(b) + Segments(c));
      PathIsItsSegments(x.value);
      PathIsItsSegments(y.value);
    }
  }

  lemma EmptyIsRelative()
    ensures !IsAbsolute("")
  {
  }

  // ----------------------------------------------------------------- the objects

  class Path {
    var str: string

    ghost predicate IsValid()
      reads this
    {
      Valid(str)
    }

    constructor ()
      ensures IsValid() && str == ""
    {
      str := "";
    }

    method Assign(s: string) returns (ok: bool)
      requires IsValid()
      modifies this
      ensures IsValid()
      ensures ok <==> MakePath(s).Ok?
      ensures str == if ok then MakePath(s).value else old(str)
    {
      ConstructorMakesValid(s);
      var i := 0;
      while i + 1 < |s| && !(s[i] == '/' == s[i + 1])
        invariant 0 <= i && (i == 0 || i < |s|)
        invariant forall j :: 0 <= j < i ==> !(s[j] == '/' == s[j + 1])
      {
        i := i + 1;
      }
      ok := i + 1 >= |s|;
      if ok {
        str := s;
        if |str| > 1 && str[|str| - 1] == '/' {
          str := str[..|str| - 1];
        }
      }
    }

    method Clear()
      modifies this
      ensures IsValid() && str == ""
    {
      str := "";
    }

    /** operator/=, which leaves the path alone when it throws. */
    method DivideAssign(other: Path) returns (ok: bool)
      requires IsValid() && other.IsValid()
      modifies this
      ensures IsValid()
      ensures ok <==> !IsAbsolute(old(other.str))
      ensures if ok then Divide(old(str), old(other.str)) == Ok(str) else str == old(str)
    {
      DivideJoinsSegments(str, other.str);
      if IsAbsolute(other.str) {
        return false;
      }
      if IsRoot(str) {
        ok := Assign(str + other.str);
      } else {
        ok := Assign(str + "/" + other.str);
      }
    }
  }
}
