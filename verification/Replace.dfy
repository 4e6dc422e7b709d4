/** The string primitive the supervisor is built on: boost::replace_all, a
    left-to-right scan that replaces every non-overlapping occurrence. */
module Replace {
  import opened Seqs

  function ReplaceAll(s: string, needle: string, text: string): string
    requires needle != []
    decreases |s|
  {
    if |s| < |needle| then s
    else if needle <= s then text + ReplaceAll(s[|needle|..], needle, text)
    else [s[0]] + ReplaceAll(s[1..], needle, text)
  }

  /** One step of the scan at position i. */
  lemma ScanStep(s: string, i: nat, needle: string, text: string)
    requires needle != [] && i + |needle| <= |s|
    ensures ReplaceAll(s[i..], needle, text) ==
            if s[i..i + |needle|] == needle then text + ReplaceAll(s[i + |needle|..], needle, text)
            else [s[i]] + ReplaceAll(s[i + 1..], needle, text)
  {
    var t := s[i..];
    assert s[i..i + |needle|] == t[..|needle|];
    assert t[|needle|..] == s[i + |needle|..];
    assert t[1..] == s[i + 1..];
  }

  lemma ScanEnds(s: string, i: nat, needle: string, text: string)
    requires i <= |s| && |s| - i < |needle|
    ensures ReplaceAll(s[i..], needle, text) == s[i..]
  {
  }

  /** The in-place scan: `done` is final, the rest is still to be searched. */
  method ReplaceInPlace(s: string, needle: string, text: string) returns (r: string)
    requires needle != []
    ensures r == ReplaceAll(s, needle, text)
  {
    hide ReplaceAll;
    var done, i := [], 0;
    assert s[0..] == s;
    while |needle| <= |s| - i
      invariant 0 <= i <= |s|
      invariant done + ReplaceAll(s[i..], needle, text) == ReplaceAll(s, needle, text)
    {
      ScanStep(s, i, needle, text);
      if s[i..i + |needle|] == needle {
        Assoc(done, text, ReplaceAll(s[i + |needle|..], needle, text));
        done, i := done + text, i + |needle|;
      } else {
        Assoc(done, [s[i]], ReplaceAll(s[i + 1..], needle, text));
        done, i := done + [s[i]], i + 1;
      }
    }
    ScanEnds(s, i, needle, text);
    r := done + s[i..];
  }

  /** A stretch in which no occurrence can start is copied unchanged. */
  lemma {:induction false} ReplaceSkips(x: string, t: string, needle: string, text: string)
    requires needle != [] && needle[0] !in x
    ensures ReplaceAll(x + t, needle, text) == x + ReplaceAll(t, needle, text)
  {
    if x == [] {
      assert x + t == t;
    } else if |x + t| >= |needle| {
      assert (x + t)[0] == x[0] && (x + t)[1..] == x[1..] + t;
      ReplaceSkips(x[1..], t, needle, text);
      Assoc([x[0]], x[1..], ReplaceAll(t, needle, text));
      assert [x[0]] + x[1..] == x;
    }
  }

  /** An occurrence at the front is replaced and the scan goes on behind it. */
  lemma ReplaceHit(t: string, needle: string, text: string)
    requires needle != []
    ensures ReplaceAll(needle + t, needle, text) == text + ReplaceAll(t, needle, text)
  {
    assert (needle + t)[|needle|..] == t;
  }

  /** Rewriting every character on its own. */
  function FlatMap(s: string, f: char -> string): string
  {
    if s == [] then [] else f(s[0]) + FlatMap(s[1..], f)
  }

  lemma {:induction false} FlatMapConcat(s: string, t: string, f: char -> string)
    ensures FlatMap(s + t, f) == FlatMap(s, f) + FlatMap(t, f)
  {
    if s == [] {
      assert s + t == t;
    } else {
      assert (s + t)[1..] == s[1..] + t;
      FlatMapConcat(s[1..], t, f);
      Assoc(f(s[0]), FlatMap(s[1..], f), FlatMap(t, f));
    }
  }

  /** Two character-wise passes in a row are one character-wise pass. */
  lemma {:induction false} FlatMapFuses(s: string, f: char -> string, g: char -> string, h: char -> string)
    requires forall c <- s :: h(c) == FlatMap(f(c), g)
    ensures FlatMap(FlatMap(s, f), g) == FlatMap(s, h)
  {
    if s != [] {
      FlatMapConcat(f(s[0]), FlatMap(s[1..], f), g);
      FlatMapFuses(s[1..], f, g, h);
    }
  }

  lemma {:induction false} FlatMapAgrees(s: string, f: char -> string, g: char -> string)
    requires forall c <- s :: f(c) == g(c)
    ensures FlatMap(s, f) == FlatMap(s, g)
  {
    if s != [] {
      FlatMapAgrees(s[1..], f, g);
    }
  }

  /** replace_all with a one-character needle is such a pass. */
  lemma {:induction false} ReplaceCharIsFlatMap(s: string, c: char, text: string, f: char -> string)
    requires forall x :: f(x) == if x == c then text else [x]
    ensures ReplaceAll(s, [c], text) == FlatMap(s, f)
  {
    if s != [] {
      ReplaceCharIsFlatMap(s[1..], c, text, f);
      assert [c] <= s <==> s[0] == c;
    }
  }
}
