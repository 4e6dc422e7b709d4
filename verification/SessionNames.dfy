/** yogi-account-manager names each session after its account, an optional tag
    and a counter it keeps for every account. The name is also that of the
    session's storage section, which is cleared when the session begins and ends. */
module SessionNames {

  /** The counters are 32 bits wide. */
  const WRAP: nat := 0x1_0000_0000

  function Wrap(n: nat): nat { n % WRAP }

  lemma WrapNext(n: nat)
    ensures Wrap(Wrap(n) + 1) == Wrap(n + 1)
  {
  }

  lemma WrapSmall(n: nat)
    requires n < WRAP
    ensures Wrap(n) == n
  {
  }

  // ------------------------------------------------------------- decimal numbers

  predicate IsDigit(c: char) { '0' <= c <= '9' }

  function Digit(d: nat): (c: char)
    requires d < 10
    ensures IsDigit(c)
  {
    '0' + d as char
  }

  /** std::to_string. */
  function Decimal(n: nat): (s: string)
    ensures s != "" && forall c <- s :: IsDigit(c)
  {
    if n < 10 then [Digit(n)] else Decimal(n / 10) + [Digit(n % 10)]
  }

  function Value(s: string): int
  {
    if s == "" then 0 else Value(s[..|s| - 1]) * 10 + (s[|s| - 1] as int - '0' as int)
  }

  lemma {:induction false} DecimalReads(n: nat)
    ensures Value(Decimal(n)) == n
  {
    if n < 10 {
      assert [Digit(n)][..0] == [];
    } else {
      DecimalReads(n / 10);
      var d := Decimal(n / 10);
      assert (d + [Digit(n % 10)])[..|d|] == d;
    }
  }

  lemma DecimalInjective(m: nat, n: nat)
    requires Decimal(m) == Decimal(n)
    ensures m == n
  {
    DecimalReads(m);
    DecimalReads(n);
  }

  // ---------------------------------------------------------------- session names

  function Suffix(tag: string, count: nat): string
  {
    if tag == "" then Decimal(count) else tag + "-" + Decimal(count)
  }

  function Name(username: string, tag: string, count: nat): string
  {
    username + "-" + Suffix(tag, count)
  }

  /** Everything before the number. */
  function Stem(username: string, tag: string): string
  {
    username + "-" + if tag == "" then "" else tag + "-"
  }

  lemma NameParts(username: string, tag: string, count: nat)
    ensures Name(username, tag, count) == Stem(username, tag) + Decimal(count)
    ensures Stem(username, tag)[|Stem(username, tag)| - 1] == '-'
  {
    if tag != "" {
      assert username + "-" + (tag + "-" + Decimal(count)) == (username + "-" + (tag + "-")) + Decimal(count);
    } else {
      assert Stem(username, tag) == username + "-";
    }
  }

  /** What follows the last '-' is the number, so it can be told apart. */
  lemma LastDash(a: string, b: string, x: string, y: string)
    requires a != "" && a[|a| - 1] == '-' && b != "" && b[|b| - 1] == '-'
    requires '-' !in x && '-' !in y && a + x == b + y
    ensures a == b && x == y
  {
    var s := a + x;
    assert s[|a| - 1] == '-' && (b + y)[|b| - 1] == '-';
    assert a == s[..|a|] && b == (b + y)[..|b|];
    assert x == s[|a|..] && y == (b + y)[|b|..];
  }

  /** Two names are the same exactly when what comes before the number and the
      numbers are. */
  lemma NamesCollideIff(u: string, t: string, m: nat, v: string, w: string, n: nat)
    ensures Name(u, t, m) == Name(v, w, n) <==> Stem(u, t) == Stem(v, w) && m == n
  {
    NameParts(u, t, m);
    NameParts(v, w, n);
    if Name(u, t, m) == Name(v, w, n) {
      assert '-' !in Decimal(m) && '-' !in Decimal(n);
      LastDash(Stem(u, t), Stem(v, w), Decimal(m), Decimal(n));
      DecimalInjective(m, n);
    }
  }

  lemma SameAccountStems(u: string, t: string, w: string)
    ensures Stem(u, t) == Stem(u, w) <==> t == w
  {
    var x, y := if t == "" then "" else t + "-", if w == "" then "" else w + "-";
    assert x == Stem(u, t)[|u| + 1..] && y == Stem(u, w)[|u| + 1..];
    if x == y && t != "" && w != "" {
      assert t == x[..|t|] && w == y[..|w|];
    }
  }

  /** One username is the other followed by '-' and anything. */
  predicate Extends(u: string, v: string) { u + "-" <= v || v + "-" <= u }

  /** Of two different accounts with the same stem, one extends the other. */
  lemma SameStemExtends(u: string, t: string, v: string, w: string)
    requires Stem(u, t) == Stem(v, w) && u != v
    ensures Extends(u, v)
  {
    var s, r := Stem(u, t), Stem(v, w);
    assert u + "-" <= s && v + "-" <= r;
    assert u == s[..|u|] && v == r[..|v|];
    if |u| < |v| {
      assert u + "-" == s[..|u| + 1];
      assert u + "-" <= v;
    } else if |v| < |u| {
      assert v + "-" == r[..|v| + 1];
      assert v + "-" <= u;
    }
  }

  /** A tag that makes up for the difference. */
  lemma ImitatingTag(u: string, v: string) returns (tag: string)
    requires u + "-" <= v
    ensures forall n: nat :: Name(u, tag, n) == Name(v, "x", n)
  {
    var rest := v[|u| + 1..];
    assert v == u + "-" + rest;
    tag := rest + "-x";
    assert Stem(u, tag) == u + "-" + (rest + "-x" + "-");
    assert Stem(v, "x") == u + "-" + rest + "-" + ("x" + "-");
    assert Stem(u, tag) == Stem(v, "x");
    forall n: nat ensures Name(u, tag, n) == Name(v, "x", n) {
      NamesCollideIff(u, tag, n, v, "x", n);
    }
  }

  // ------------------------------------------------------------------ the counters

  /** number: how many sessions the account had been given when this one was
      created, itself included. */
  datatype Session = Session(username: string, tag: string, number: nat, name: string)

  function SessionsOf(sessions: seq<Session>, username: string): nat
  {
    if sessions == [] then 0
    else
      SessionsOf(sessions[..|sessions| - 1], username)
      + if sessions[|sessions| - 1].username == username then 1 else 0
  }

  predicate NamedByNumber(s: Session) { s.name == Name(s.username, s.tag, Wrap(s.number)) }

  /** Sessions in the order they were created, every one named by its number. */
  predicate Named(sessions: seq<Session>)
  {
    sessions == [] ||
    var n := |sessions| - 1;
    && Named(sessions[..n])
    && sessions[n].number == SessionsOf(sessions[..n], sessions[n].username) + 1
    && NamedByNumber(sessions[n])
  }

  lemma AddSession(sessions: seq<Session>, s: Session)
    ensures forall u :: SessionsOf(sessions + [s], u) == SessionsOf(sessions, u) + if s.username == u then 1 else 0
    ensures Named(sessions + [s]) <==>
      Named(sessions) && s.number == SessionsOf(sessions, s.username) + 1 && NamedByNumber(s)
  {
    assert (sessions + [s])[..|sessions|] == sessions;
  }

  /** What std::unordered_map::operator[] finds, or puts there. */
  function Counter(counters: map<string, nat>, username: string): nat
  {
    if username in counters then counters[username] else 0
  }

  ghost predicate Counts(counters: map<string, nat>, sessions: seq<Session>)
  {
    forall u :: Counter(counters, u) == Wrap(SessionsOf(sessions, u))
  }

  class SessionFactory {
    var counters: map<string, nat>
    ghost var sessions: seq<Session>

    ghost predicate Valid()
      reads this
    {
      Named(sessions) && Counts(counters, sessions)
    }

    constructor ()
      ensures Valid() && sessions == []
    {
      counters, sessions := map[], [];
    }

    method MakeNameSuffix(username: string, tag: string) returns (suffix: string)
      modifies this`counters
      ensures var cnt := Wrap(Counter(old(counters), username) + 1);
        suffix == Suffix(tag, cnt) && counters == old(counters)[username := cnt]
    {
      var cnt := Wrap(Counter(counters, username) + 1);
      counters := counters[username := cnt];
      if tag == "" {
        suffix := Decimal(cnt);
      } else {
        suffix := tag + "-" + Decimal(cnt);
      }
    }

    method CreateSession(username: string, tag: string) returns (name: string)
      requires Valid()
      modifies this
      ensures Valid()
      ensures |sessions| == |old(sessions)| + 1 && sessions[..|old(sessions)|] == old(sessions)
      ensures var s := sessions[|old(sessions)|]; s.username == username && s.tag == tag && s.name == name
    {
      hide Wrap, Suffix, Named, SessionsOf;
      WrapNext(SessionsOf(sessions, username));
      var suffix := MakeNameSuffix(username, tag);
      name := username + "-" + suffix;
      ghost var s := Session(username, tag, SessionsOf(sessions, username) + 1, name);
      AddSession(sessions, s);
      sessions := sessions + [s];
    }
  }

  // --------------------------------------------------------------- no two the same

  lemma {:induction false} NamedAt(sessions: seq<Session>, i: nat)
    requires Named(sessions) && i < |sessions|
    ensures NamedByNumber(sessions[i])
    ensures 1 <= sessions[i].number <= SessionsOf(sessions, sessions[i].username)
  {
    hide NamedByNumber;
    var n := |sessions| - 1;
    if i < n {
      NamedAt(sessions[..n], i);
    }
  }

  lemma {:induction false} NumbersGrow(sessions: seq<Session>, i: nat, j: nat)
    requires Named(sessions) && i < j < |sessions| && sessions[i].username == sessions[j].username
    ensures sessions[i].number < sessions[j].number
  {
    hide NamedByNumber;
    var n := |sessions| - 1;
    if j < n {
      NumbersGrow(sessions[..n], i, j);
    } else {
      NamedAt(sessions[..n], i);
    }
  }

  /** Two sessions of one account share a name exactly when they have the same
      tag and a multiple of 2^32 lies between their numbers. */
  lemma OneAccountCollidesIff(sessions: seq<Session>, i: nat, j: nat)
    requires Named(sessions) && i < |sessions| && j < |sessions| && sessions[i].username == sessions[j].username
    ensures sessions[i].name == sessions[j].name <==>
      sessions[i].tag == sessions[j].tag && Wrap(sessions[i].number) == Wrap(sessions[j].number)
  {
    hide Named, Wrap, Stem;
    var s, t := sessions[i], sessions[j];
    NamedAt(sessions, i);
    NamedAt(sessions, j);
    NamesCollideIff(s.username, s.tag, Wrap(s.number), t.username, t.tag, Wrap(t.number));
    SameAccountStems(s.username, s.tag, t.tag);
  }

  /** The first session of an account has the number 1. */
  lemma FirstSession(s: Session)
    requires Named([s])
    ensures s.tag == "" ==> s.name == s.username + "-" + "1"
    ensures s.tag != "" ==> s.name == s.username + "-" + (s.tag + "-" + "1")
  {
    assert [s][..0] == [];
    WrapSmall(1);
    assert Decimal(1) == "1";
  }

  /** The most significant digit comes first. */
  lemma DecimalExample()
    ensures Decimal(0) == "0" && Decimal(4096) == "4096"
    ensures Name("ann", "web", 12) == "ann" + "-" + ("web" + "-" + "12")
  {
    assert Decimal(4) == "4" && Decimal(40) == "40" && Decimal(409) == "409";
    assert Decimal(1) == "1" && Decimal(12) == "12";
  }

  /** So fewer than 2^32 sessions of one account all have different names. */
  lemma OneAccountDistinct(sessions: seq<Session>, i: nat, j: nat)
    requires Named(sessions) && i < j < |sessions| && sessions[i].username == sessions[j].username
    requires SessionsOf(sessions, sessions[i].username) < WRAP
    ensures sessions[i].name != sessions[j].name
  {
    hide Named, Wrap, SessionsOf;
    OneAccountCollidesIff(sessions, i, j);
    NumbersGrow(sessions, i, j);
    NamedAt(sessions, i);
    NamedAt(sessions, j);
    WrapSmall(sessions[i].number);
    WrapSmall(sessions[j].number);
  }

  /** Two accounts collide: some history of sessions gives one of each the same
      name, and so the same storage section. */
  ghost predicate Collide(u: string, v: string)
  {
    exists sessions: seq<Session>, i: nat, j: nat :: Collision(sessions, i, j, u, v)
  }

  predicate Collision(sessions: seq<Session>, i: nat, j: nat, u: string, v: string)
  {
    && Named(sessions) && i < |sessions| && j < |sessions|
    && sessions[i].username == u && sessions[j].username == v && sessions[i].name == sessions[j].name
  }

  lemma CollisionExtends(sessions: seq<Session>, i: nat, j: nat, u: string, v: string)
    requires Collision(sessions, i, j, u, v) && u != v
    ensures Extends(u, v)
  {
    hide Named, Wrap, Stem, Extends;
    var s, t := sessions[i], sessions[j];
    NamedAt(sessions, i);
    NamedAt(sessions, j);
    NamesCollideIff(u, s.tag, Wrap(s.number), v, t.tag, Wrap(t.number));
    SameStemExtends(u, s.tag, v, t.tag);
  }

  /** The first session of each, the tag imitating the longer username. */
  lemma FirstSessionsCollide(u: string, v: string) returns (sessions: seq<Session>)
    requires u + "-" <= v
    ensures |sessions| == 2 && Collision(sessions, 0, 1, u, v)
  {
    hide Named, Wrap, Name;
    var tag := ImitatingTag(u, v);
    var s, t := Session(u, tag, 1, Name(u, tag, 1)), Session(v, "x", 1, Name(v, "x", 1));
    WrapSmall(1);
    NoSessions();
    AddSession([], s);
    AddSession([s], t);
    assert [] + [s] == [s] && u != v;
    sessions := [s] + [t];
  }

  lemma NoSessions()
    ensures Named([]) && forall u :: SessionsOf([], u) == 0
  {
  }

  /** Two accounts can collide if and only if one username is the other followed
      by '-' and anything: a tag then imitates the longer one. */
  lemma AccountsCollideIff(u: string, v: string)
    requires u != v
    ensures Collide(u, v) <==> Extends(u, v)
  {
    hide Collision;
    if Collide(u, v) {
      var sessions: seq<Session>, i: nat, j: nat :| Collision(sessions, i, j, u, v);
      CollisionExtends(sessions, i, j, u, v);
    }
    if u + "-" <= v {
      var sessions := FirstSessionsCollide(u, v);
    } else if v + "-" <= u {
      var sessions := FirstSessionsCollide(v, u);
      SwapCollision(sessions, 0, 1, v, u);
    }
  }

  lemma SwapCollision(sessions: seq<Session>, i: nat, j: nat, u: string, v: string)
    requires Collision(sessions, i, j, u, v)
    ensures Collision(sessions, j, i, v, u)
  {
  }

  /** So the sessions of all accounts have different names if no username extends
      another. */
  lemma AllDistinct(sessions: seq<Session>, i: nat, j: nat)
    requires Named(sessions) && i < j < |sessions|
    requires forall s <- sessions :: SessionsOf(sessions, s.username) < WRAP
    requires forall s <- sessions, t <- sessions :: !Extends(s.username, t.username)
    ensures sessions[i].name != sessions[j].name
  {
    hide Named, Wrap, SessionsOf, Extends;
    var s, t := sessions[i], sessions[j];
    assert s in sessions && t in sessions;
    if s.username == t.username {
      OneAccountDistinct(sessions, i, j);
    } else if s.name == t.name {
      CollisionExtends(sessions, i, j, s.username, t.username);
    }
  }

  /** For example, the first sessions of "a" and "a-b" can have one name. */
  lemma DashesCollide() returns (sessions: seq<Session>)
    ensures Named(sessions) && |sessions| == 2
    ensures sessions[0].username != sessions[1].username && sessions[0].name == sessions[1].name
  {
    assert "a" + "-" <= "a-b";
    sessions := FirstSessionsCollide("a", "a-b");
  }
}
