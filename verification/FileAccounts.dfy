/** yogi-account-manager's FileAccountProvider itself. */
module FileAccounts {
  import opened Json
  import opened Accounts
  import opened AccountEscapes

  class FileAccountProvider {
    var accounts: map<string, Account>

    constructor ()
      ensures accounts == map[]
    {
      accounts := map[];
    }

    /** Writes the accounts in the order of their names, groups in order. Loading
        what is written gives them back exactly if their strings are clean. */
    method SaveAccounts() returns (text: string)
      ensures exists es: seq<Entry> ::
        && Lists(es, accounts) && Sorted(NamesOf(es)) && (forall e <- es :: Sorted(e.groups))
        && text == FileText(SpellEach(DocumentLines(es)))
      ensures forall before :: Load(text, before) == LoadResult(Success, accounts) <==> CleanAccounts(accounts)
    {
      ghost var es;
      text, es := PrintAccounts();
      forall before ensures Load(text, before) == LoadResult(Success, accounts) <==> CleanAccounts(accounts) {
        SaveThenLoadIff(es, accounts, before);
      }
    }

    method PrintAccounts() returns (text: string, ghost es: seq<Entry>)
      ensures Lists(es, accounts) && Sorted(NamesOf(es)) && forall e <- es :: Sorted(e.groups)
      ensures text == FileText(SpellEach(DocumentLines(es)))
    {
      hide SpellAll, CommaLines, SeparatedLines, EntryItem, EntryItems, Listing, NoDuplicates, Sorted, ListsGroups;
      var names := SortedElements(accounts.Keys);
      assert accounts != map[] <==> accounts.Keys != {};
      ghost var head := [[Tok(LBrace)]];
      SpellBraces();
      SpelledLine("{", [Tok(LBrace)]);
      var lines := ["{"];
      es := [];
      NoItems();
      ListingStart(names, accounts);
      for i := 0 to |names|
        invariant Listing(es, names[..i], accounts)
        invariant Spelled(lines, head + CommaLines(EntryItems(es)))
      {
        assert names[i] in (set n <- names);
        var account := accounts[names[i]];
        var groups := SortedElements(account.groups);
        var e := Entry(names[i], account, groups);
        lines := PushAccount(lines, head + CommaLines(EntryItems(es)), e);
        EntryItemsAppend(es, e);
        CommaLinesAppend(EntryItems(es), EntryItem(e));
        assert head + CommaLines(EntryItems(es + [e])) ==
               head + CommaLines(EntryItems(es)) + EntryItem(e).body + [EntryItem(e).last + [Tok(Comma)]];
        ListingStep(es, names, i, accounts, e);
        es := es + [e];
      }
      assert names[..|names|] == names;
      ListingDone(es, names, accounts);
      EntryItemsLength(es);
      if accounts != map[] {
        lines := PopComma(lines, head, EntryItems(es));
      }
      lines := Push(lines, head + SeparatedLines(EntryItems(es)), "}", [Tok(RBrace)]);
      assert lines == SpellEach(DocumentLines(es));
      text := FileText(lines);
    }

    /** An unreadable file leaves the accounts alone. Otherwise what was there before
        is gone, and the accounts are those read: all of them, or those in front of
        the first that throws. */
    method LoadAccounts(text: string) returns (outcome: Outcome)
      modifies this
      ensures outcome == Outcome.Unreadable <==> Read(text).Invalid?
      ensures outcome == Outcome.Unreadable ==> accounts == old(accounts)
      ensures outcome == Success ==> AllRead(Children(Read(text).v)) && HoldsExactly(accounts, Children(Read(text).v))
      ensures outcome == Thrown ==>
        var ms := Children(Read(text).v);
        exists i :: 0 <= i < |ms| && AccountFrom(ms[i].value).Throws? && AllRead(ms[..i])
                    && HoldsExactly(accounts, ms[..i])
      ensures LoadResult(outcome, accounts) == Load(text, old(accounts))
    {
      hide AccountFrom, Children, Read, LoadMembers, HoldsExactly;
      var d := Read(text);
      if d.Invalid? {
        return Outcome.Unreadable;
      }
      while accounts != map[]
        decreases |accounts|
      {
        var n :| n in accounts;
        assert (accounts - {n}).Keys == accounts.Keys - {n};
        accounts := accounts - {n};
      }
      outcome := AddAccounts(Children(d.v));
    }

    /** The loop over the children of the document. */
    method AddAccounts(ms: seq<Member>) returns (outcome: Outcome)
      requires accounts == map[]
      modifies this
      ensures LoadResult(outcome, accounts) == LoadMembers(ms, map[])
      ensures outcome == Success || outcome == Thrown
      ensures outcome == Success ==> AllRead(ms) && HoldsExactly(accounts, ms)
      ensures outcome == Thrown ==>
        exists i :: 0 <= i < |ms| && AccountFrom(ms[i].value).Throws? && AllRead(ms[..i])
                    && HoldsExactly(accounts, ms[..i])
    {
      hide AccountFrom, LoadMembers, HoldsExactly;
      assert ms[0..] == ms;
      NothingHeldYet();
      for i := 0 to |ms|
        invariant LoadMembers(ms[i..], accounts) == LoadMembers(ms, map[])
        invariant AllRead(ms[..i]) && HoldsExactly(accounts, ms[..i])
      {
        var a := AccountFrom(ms[i].value);
        LoadOne(ms, i, accounts);
        if a.Throws? {
          return Thrown;
        }
        OneMoreHeld(accounts, ms[..i], ms[i]);
        accounts := accounts[ms[i].key := a.a];
      }
      assert ms[..|ms|] == ms && ms[|ms|..] == [];
      LoadNone(accounts);
      outcome := Success;
    }
  }

  lemma LoadOne(ms: seq<Member>, i: nat, m: map<string, Account>)
    requires i < |ms|
    ensures var a := AccountFrom(ms[i].value);
      LoadMembers(ms[i..], m) ==
        if a.Throws? then LoadResult(Thrown, m) else LoadMembers(ms[i + 1..], m[ms[i].key := a.a])
    ensures ms[..i + 1] == ms[..i] + [ms[i]]
  {
    hide AccountFrom;
    assert ms[i..][0] == ms[i] && ms[i..][1..] == ms[i + 1..];
  }

  lemma LoadNone(m: map<string, Account>)
    ensures LoadMembers([], m) == LoadResult(Success, m)
  {
  }

  lemma NothingHeldYet()
    ensures AllRead([]) && HoldsExactly(map[], [])
  {
  }

  /** Every member is an account. */
  predicate AllRead(ms: seq<Member>) { forall i :: 0 <= i < |ms| ==> AccountFrom(ms[i].value).Has? }

  /** The accounts are those the members say, the last one where a name comes more
      than once, and no others. */
  ghost predicate HoldsExactly(m: map<string, Account>, ms: seq<Member>)
    requires AllRead(ms)
  {
    && (forall n :: n in m <==> exists i :: 0 <= i < |ms| && ms[i].key == n)
    && forall i :: 0 <= i < |ms| && (forall j :: i < j < |ms| ==> ms[j].key != ms[i].key) ==>
         ms[i].key in m && m[ms[i].key] == AccountFrom(ms[i].value).a
  }

  lemma OneMoreHeld(m: map<string, Account>, ms: seq<Member>, x: Member)
    requires AllRead(ms) && HoldsExactly(m, ms) && AccountFrom(x.value).Has?
    ensures AllRead(ms + [x]) && HoldsExactly(m[x.key := AccountFrom(x.value).a], ms + [x])
  {
    hide AccountFrom;
    var all, next := ms + [x], m[x.key := AccountFrom(x.value).a];
    assert all[|ms|] == x;
    forall n ensures n in next <==> exists i :: 0 <= i < |all| && all[i].key == n {
      if n in m {
        var i :| 0 <= i < |ms| && ms[i].key == n;
        assert all[i].key == n;
      }
      if i :| 0 <= i < |all| && all[i].key == n {
        if i < |ms| {
          assert ms[i].key == n;
        }
      }
    }
    forall i | 0 <= i < |all| && (forall j :: i < j < |all| ==> all[j].key != all[i].key)
      ensures all[i].key in next && next[all[i].key] == AccountFrom(all[i].value).a
    {
      if i < |ms| {
        assert ms[i] == all[i] && all[|ms|].key != all[i].key;
        assert forall j :: i < j < |ms| ==> all[j] == ms[j];
      }
    }
  }
}
