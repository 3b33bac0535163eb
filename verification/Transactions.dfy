/** Transactions and chronological lists of them.

    A list of transactions in arrival order determines who depends on whom: on the previous
    transaction of the same account, and on the creators of the unauthenticated notes consumed. */
module Transactions {
  import opened Prelude
  import opened Dags

  /** An authenticated transaction. `storeState` is the account commitment the store reported and
      `unauthenticated` the input notes the store could not authenticate. */
  datatype Tx = Tx(
    id: nat, account: nat, initial: nat, final: nat, storeState: Option<nat>,
    nullifiers: seq<nat>, outputs: seq<nat>, unauthenticated: set<nat>,
    expiresAt: nat, authHeight: nat, details: nat)

  function Ids(txs: seq<Tx>): set<nat> {
    set t | t in txs :: t.id
  }

  function Nullifiers(txs: seq<Tx>): set<nat> {
    set t, n | t in txs && n in t.nullifiers :: n
  }

  function Outputs(txs: seq<Tx>): set<nat> {
    set t, n | t in txs && n in t.outputs :: n
  }

  /** The transactions whose id is in `keep`. */
  function Only(txs: seq<Tx>, keep: set<nat>): (r: seq<Tx>)
    ensures forall t {:trigger t in r} :: t in r <==> t in txs && t.id in keep
    ensures |r| <= |txs|
  {
    if txs == [] then [] else
      var rest := Only(txs[..|txs| - 1], keep);
      var t := txs[|txs| - 1];
      assert forall x :: x in txs <==> x in txs[..|txs| - 1] || x == t;
      if t.id in keep then rest + [t] else rest
  }

  /** The transactions whose id is not in `gone`. */
  function Without(txs: seq<Tx>, gone: set<nat>): (r: seq<Tx>)
    ensures forall t {:trigger t in r} :: t in r <==> t in txs && t.id !in gone
  {
    if txs == [] then [] else
      var rest := Without(txs[..|txs| - 1], gone);
      var t := txs[|txs| - 1];
      assert forall x :: x in txs <==> x in txs[..|txs| - 1] || x == t;
      if t.id in gone then rest else rest + [t]
  }

  /** The transactions of one account. */
  function On(txs: seq<Tx>, account: nat): (r: seq<Tx>)
    ensures forall t {:trigger t in r} :: t in r <==> t in txs && t.account == account
  {
    if txs == [] then [] else
      var rest := On(txs[..|txs| - 1], account);
      var t := txs[|txs| - 1];
      assert forall x :: x in txs <==> x in txs[..|txs| - 1] || x == t;
      if t.account == account then rest + [t] else rest
  }

  function Creator(txs: seq<Tx>, note: nat): (id: nat)
    requires note in Outputs(txs)
    ensures exists t :: t in txs && note in t.outputs && t.id == id
  {
    var t := txs[|txs| - 1];
    if note in t.outputs then t.id else Creator(txs[..|txs| - 1], note)
  }

  function AccountParent(txs: seq<Tx>, account: nat): set<nat> {
    var own := On(txs, account);
    if own == [] then {} else {own[|own| - 1].id}
  }

  /** The transactions in `txs` on which `t` directly depends. */
  function ParentsIn(txs: seq<Tx>, t: Tx): set<nat> {
    AccountParent(txs, t.account) +
    set n | n in t.unauthenticated && n in Outputs(txs) :: Creator(txs, n)
  }

  /** The dependency edges of a list, each transaction's parents taken among its predecessors. */
  function EdgesOf(txs: seq<Tx>): (e: Edges)
    ensures e.Keys == Ids(txs)
  {
    if txs == [] then map[] else
      var f := txs[..|txs| - 1];
      var t := txs[|txs| - 1];
      assert forall x :: x in txs <==> x in f || x == t;
      assert Ids(txs) == Ids(f) + {t.id};
      EdgesOf(f)[t.id := ParentsIn(f, t)]
  }

  /** Two transactions that can both be in flight: neither reuses anything of the other. */
  ghost predicate Independent(s: Tx, t: Tx) {
    && s.id != t.id
    && Elems(s.nullifiers) !! Elems(t.nullifiers)
    && Elems(s.outputs) !! Elems(t.outputs)
  }

  ghost predicate Distinct(txs: seq<Tx>) {
    var distinct :=
      && NoDup(txs)
      && forall s, t :: s in txs && t in txs && s != t ==> Independent(s, t);
    distinct
  }

  // ---------------------------------------------------------------------------------------------
  // Lists of distinct transactions

  lemma Front(txs: seq<Tx>)
    requires txs != []
    ensures var f, t := txs[..|txs| - 1], txs[|txs| - 1];
      && txs == f + [t]
      && (forall x :: x in txs <==> x in f || x == t)
      && Ids(txs) == Ids(f) + {t.id}
      && Outputs(txs) == Outputs(f) + Elems(t.outputs)
      && Nullifiers(txs) == Nullifiers(f) + Elems(t.nullifiers)
      && (Distinct(txs) ==> Distinct(f) && t !in f && t.id !in Ids(f)
                            && Elems(t.outputs) !! Outputs(f))
  {
    var f, t := txs[..|txs| - 1], txs[|txs| - 1];
    assert txs == f + [t];
    assert forall x :: x in txs <==> x in f || x == t;
    if Distinct(txs) {
      assert t !in f;
    }
  }

  lemma Members(a: seq<Tx>, b: seq<Tx>)
    ensures forall x {:trigger x in a + b} :: x in a + b <==> x in a || x in b
    ensures Ids(a + b) == Ids(a) + Ids(b)
    ensures Nullifiers(a + b) == Nullifiers(a) + Nullifiers(b)
    ensures Outputs(a + b) == Outputs(a) + Outputs(b)
  {
  }

  lemma Single(t: Tx)
    ensures Ids([t]) == {t.id}
    ensures Nullifiers([t]) == Elems(t.nullifiers)
    ensures Outputs([t]) == Elems(t.outputs)
  {
  }

  lemma {:induction false} UnfoldSelect(txs: seq<Tx>, t: Tx, ids: set<nat>)
    ensures Only(txs + [t], ids) == if t.id in ids then Only(txs, ids) + [t] else Only(txs, ids)
    ensures Without(txs + [t], ids) ==
            if t.id in ids then Without(txs, ids) else Without(txs, ids) + [t]
  {
    assert (txs + [t])[..|txs + [t]| - 1] == txs;
  }

  lemma {:induction false} UnfoldOn(txs: seq<Tx>, t: Tx, account: nat)
    ensures On(txs + [t], account) ==
            if t.account == account then On(txs, account) + [t] else On(txs, account)
  {
    assert (txs + [t])[..|txs + [t]| - 1] == txs;
  }

  lemma {:induction false} UnfoldEdges(txs: seq<Tx>, t: Tx)
    ensures EdgesOf(txs + [t]) == EdgesOf(txs)[t.id := ParentsIn(txs, t)]
  {
    assert (txs + [t])[..|txs + [t]| - 1] == txs;
  }

  lemma {:induction false} OnAppend(a: seq<Tx>, b: seq<Tx>, account: nat)
    ensures On(a + b, account) == On(a, account) + On(b, account)
    decreases |b|
  {
    if b == [] {
      assert a + b == a;
    } else {
      var f, t := b[..|b| - 1], b[|b| - 1];
      assert a + b == (a + f) + [t];
      assert b == f + [t];
      UnfoldOn(a + f, t, account);
      UnfoldOn(f, t, account);
      OnAppend(a, f, account);
    }
  }

  lemma {:induction false} Commute(txs: seq<Tx>, ids: set<nat>, account: nat)
    ensures On(Only(txs, ids), account) == Only(On(txs, account), ids)
    ensures On(Without(txs, ids), account) == Without(On(txs, account), ids)
    decreases |txs|
  {
    if txs != [] {
      var f, t := txs[..|txs| - 1], txs[|txs| - 1];
      assert txs == f + [t];
      Commute(f, ids, account);
      UnfoldSelect(f, t, ids);
      UnfoldOn(f, t, account);
      UnfoldOn(Only(f, ids), t, account);
      UnfoldOn(Without(f, ids), t, account);
      UnfoldSelect(On(f, account), t, ids);
    }
  }

  lemma {:induction false} WithoutNone(txs: seq<Tx>, ids: set<nat>)
    requires Ids(txs) !! ids
    ensures Without(txs, ids) == txs && Only(txs, ids) == []
    decreases |txs|
  {
    if txs != [] {
      Front(txs);
      WithoutNone(txs[..|txs| - 1], ids);
    }
  }

  lemma {:induction false} WithoutAll(txs: seq<Tx>, ids: set<nat>)
    requires Ids(txs) <= ids
    ensures Without(txs, ids) == [] && Only(txs, ids) == txs
    decreases |txs|
  {
    if txs != [] {
      Front(txs);
      WithoutAll(txs[..|txs| - 1], ids);
    }
  }

  lemma {:induction false} WithoutAppend(a: seq<Tx>, b: seq<Tx>, ids: set<nat>)
    ensures Without(a + b, ids) == Without(a, ids) + Without(b, ids)
    decreases |b|
  {
    if b == [] {
      assert a + b == a;
    } else {
      var f, t := b[..|b| - 1], b[|b| - 1];
      assert a + b == (a + f) + [t] && b == f + [t];
      UnfoldSelect(a + f, t, ids);
      UnfoldSelect(f, t, ids);
      WithoutAppend(a, f, ids);
    }
  }

  lemma {:induction false} SelectNoDup(txs: seq<Tx>, ids: set<nat>)
    requires NoDup(txs)
    ensures NoDup(Only(txs, ids)) && NoDup(Without(txs, ids))
    decreases |txs|
  {
    if txs != [] {
      var f, t := txs[..|txs| - 1], txs[|txs| - 1];
      assert t !in f;
      assert t !in Only(f, ids) && t !in Without(f, ids);
      SelectNoDup(f, ids);
    }
  }

  /** Splitting a list by a set of ids only rearranges it. */
  lemma {:induction false} SplitDistinct(past: seq<Tx>, txs: seq<Tx>, ids: set<nat>)
    requires Distinct(past + txs)
    ensures Distinct(past + Only(txs, ids) + Without(txs, ids))
    ensures Distinct(past + Without(txs, ids))
    ensures Distinct(txs) && Distinct(past)
  {
    var all := past + txs;
    assert forall x :: x in all <==> x in past || x in txs;
    NoDupSplit(past, txs);
    SelectNoDup(txs, ids);
    NoDupAppend(past, Without(txs, ids));
    NoDupAppend(past, Only(txs, ids));
    assert forall x :: x in past + Only(txs, ids) ==> x in all;
    var left := past + Only(txs, ids);
    assert forall x :: x in left ==> x !in Without(txs, ids);
    NoDupAppend(left, Without(txs, ids));
    assert forall x :: x in left + Without(txs, ids) ==> x in all;
    assert forall x :: x in past + Without(txs, ids) ==> x in all;
  }

  // ---------------------------------------------------------------------------------------------
  // Dependencies

  lemma ParentsArePredecessors(txs: seq<Tx>, t: Tx)
    ensures ParentsIn(txs, t) <= Ids(txs)
  {
    var own := On(txs, t.account);
    if own != [] {
      assert own[|own| - 1] in own;
    }
  }

  lemma {:induction false} EdgesStayInside(txs: seq<Tx>)
    requires Distinct(txs)
    ensures forall k :: k in EdgesOf(txs) ==> EdgesOf(txs)[k] <= Ids(txs)
    decreases |txs|
  {
    if txs != [] {
      Front(txs);
      EdgesStayInside(txs[..|txs| - 1]);
      ParentsArePredecessors(txs[..|txs| - 1], txs[|txs| - 1]);
    }
  }

  /** All that a transaction depends on comes before it in the list. */
  lemma {:induction false} EdgesPointBack(txs: seq<Tx>, i: nat)
    requires Distinct(txs) && i < |txs|
    ensures txs[i].id in EdgesOf(txs) && EdgesOf(txs)[txs[i].id] <= Ids(txs[..i])
    decreases |txs|
  {
    var f := txs[..|txs| - 1];
    EdgesFront(txs);
    if i == |f| {
      ParentsArePredecessors(f, txs[i]);
    } else {
      EdgesPointBack(f, i);
      assert f[..i] == txs[..i] && f[i].id in EdgesOf(f);
    }
  }

  lemma {:induction false} CreatorUnique(txs: seq<Tx>, t: Tx, note: nat)
    requires Distinct(txs) && t in txs && note in t.outputs
    ensures note in Outputs(txs) && Creator(txs, note) == t.id
    decreases |txs|
  {
    Front(txs);
    var last := txs[|txs| - 1];
    if note in last.outputs {
      assert note in Elems(last.outputs) && note in Elems(t.outputs);
      assert t != last ==> Independent(last, t);
    } else {
      CreatorUnique(txs[..|txs| - 1], t, note);
    }
  }

  /** Removing some transactions changes the creator of no remaining note. */
  lemma {:induction false} CreatorWithout(txs: seq<Tx>, gone: set<nat>, note: nat)
    requires Distinct(txs) && note in Outputs(txs)
    ensures Creator(txs, note) in gone <==> note !in Outputs(Without(txs, gone))
    ensures Creator(txs, note) !in gone ==>
            Creator(Without(txs, gone), note) == Creator(txs, note)
  {
    var t :| t in txs && note in t.outputs && t.id == Creator(txs, note);
    SplitDistinct([], txs, gone);
    assert [] + Without(txs, gone) == Without(txs, gone);
    if t.id in gone {
      if note in Outputs(Without(txs, gone)) {
        var s :| s in Without(txs, gone) && note in s.outputs;
        CreatorUnique(txs, s, note);
      }
    } else {
      CreatorUnique(Without(txs, gone), t, note);
    }
  }

  lemma EdgesFront(txs: seq<Tx>)
    requires Distinct(txs) && txs != []
    ensures var f, t := txs[..|txs| - 1], txs[|txs| - 1];
      && Distinct(f) && t.id !in EdgesOf(f)
      && EdgesOf(txs) == EdgesOf(f)[t.id := ParentsIn(f, t)]
  {
    Front(txs);
  }

  /** The transactions of one account form a chain. */
  lemma {:induction false} AccountChain(txs: seq<Tx>, account: nat, i: nat)
    requires Distinct(txs) && 0 < i < |On(txs, account)|
    ensures On(txs, account)[i].id in EdgesOf(txs)
    ensures On(txs, account)[i - 1].id in EdgesOf(txs)[On(txs, account)[i].id]
    decreases |txs|
  {
    EdgesFront(txs);
    var f, t := txs[..|txs| - 1], txs[|txs| - 1];
    assert txs == f + [t];
    UnfoldOn(f, t, account);
    if i < |On(f, account)| {
      AccountChain(f, account, i);
    } else {
      assert On(txs, account)[i - 1].id in AccountParent(f, account);
    }
  }

  /** A set of ids that takes a transaction's successors with it takes a suffix of each account. */
  lemma {:induction false} DescendantsTakeSuffix(txs: seq<Tx>, gone: set<nat>, account: nat,
                                                 i: nat, j: nat)
    requires Distinct(txs) && Closed(EdgesOf(txs), gone)
    requires i <= j < |On(txs, account)| && On(txs, account)[i].id in gone
    ensures On(txs, account)[j].id in gone
    decreases j - i
  {
    hide Distinct, On, EdgesOf;
    if i < j {
      AccountChain(txs, account, i + 1);
      DescendantsTakeSuffix(txs, gone, account, i + 1, j);
    }
  }

  ghost predicate AncestorClosed(e: Edges, s: set<nat>) {
    forall k, p :: k in e && k in s && p in e[k] ==> p in s
  }

  /** A set of ids that takes a transaction's ancestors with it takes a prefix of each account. */
  lemma {:induction false} AncestorsTakePrefix(txs: seq<Tx>, done: set<nat>, account: nat,
                                               i: nat, j: nat)
    requires Distinct(txs) && AncestorClosed(EdgesOf(txs), done)
    requires i <= j < |On(txs, account)| && On(txs, account)[j].id in done
    ensures On(txs, account)[i].id in done
    decreases j - i
  {
    hide Distinct, On, EdgesOf;
    if i < j {
      AccountChain(txs, account, j);
      AncestorsTakePrefix(txs, done, account, i, j - 1);
    }
  }

  /** An ancestor-closed set splits each account's transactions into a first part and the rest. */
  lemma {:induction false} AncestorsSplitAccount(txs: seq<Tx>, done: set<nat>, account: nat)
    requires Distinct(txs) && AncestorClosed(EdgesOf(txs), done)
    ensures On(Only(txs, done), account) + On(Without(txs, done), account) == On(txs, account)
  {
    var own := On(txs, account);
    forall i, j | 0 <= i <= j < |own| && own[j].id in done ensures own[i].id in done {
      AncestorsTakePrefix(txs, done, account, i, j);
    }
    PrefixThenRest(own, done);
    Commute(txs, done, account);
  }

  /** A descendant-closed set cuts off the last part of each account's transactions. */
  lemma {:induction false} DescendantsCutAccount(txs: seq<Tx>, gone: set<nat>, account: nat)
    requires Distinct(txs) && Closed(EdgesOf(txs), gone)
    ensures var own := On(txs, account);
      On(Without(txs, gone), account) == own[..|own| - |Only(own, gone)|]
  {
    var own := On(txs, account);
    forall i, j | 0 <= i <= j < |own| && own[i].id in gone ensures own[j].id in gone {
      DescendantsTakeSuffix(txs, gone, account, i, j);
    }
    WithoutSuffix(own, gone);
    Commute(txs, gone, account);
  }

  lemma {:induction false} WithoutSuffix(s: seq<Tx>, gone: set<nat>)
    requires forall i, j :: 0 <= i <= j < |s| && s[i].id in gone ==> s[j].id in gone
    ensures Without(s, gone) == s[..|s| - |Only(s, gone)|]
    decreases |s|
  {
    if s != [] {
      Front(s);
      var f, t := s[..|s| - 1], s[|s| - 1];
      if t.id in gone {
        WithoutSuffix(f, gone);
      } else {
        assert Ids(s) !! gone;
        WithoutNone(s, gone);
      }
    }
  }

  lemma {:induction false} PrefixThenRest(s: seq<Tx>, done: set<nat>)
    requires forall i, j :: 0 <= i <= j < |s| && s[j].id in done ==> s[i].id in done
    ensures Only(s, done) + Without(s, done) == s
    decreases |s|
  {
    if s != [] {
      Front(s);
      var f, t := s[..|s| - 1], s[|s| - 1];
      if t.id in done {
        assert Ids(s) <= done;
        WithoutAll(s, done);
      } else {
        PrefixThenRest(f, done);
      }
    }
  }

  /** Removing a set of transactions and all their descendants leaves the edges of the others as
      they are: the survivors' dependencies are what they would be had the rest never arrived. */
  lemma {:induction false} EdgesWithoutDescendants(txs: seq<Tx>, gone: set<nat>)
    requires Distinct(txs) && Closed(EdgesOf(txs), gone)
    ensures EdgesOf(Without(txs, gone)) == EdgesOf(txs) - gone
    decreases |txs|
  {
    if txs != [] {
      EdgesFront(txs);
      var f, t := txs[..|txs| - 1], txs[|txs| - 1];
      assert txs == f + [t];
      ClosedBefore(EdgesOf(f), t.id, ParentsIn(f, t), gone);
      MinusInsert(EdgesOf(f), t.id, ParentsIn(f, t), gone);
      EdgesWithoutDescendants(f, gone);
      UnfoldSelect(f, t, gone);
      if t.id !in gone {
        UnfoldEdges(Without(f, gone), t);
        ParentsSurvive(f, gone, t);
      }
    }
  }

  lemma ClosedBefore(e: Edges, k: nat, ps: set<nat>, gone: set<nat>)
    requires k !in e && Closed(e[k := ps], gone)
    ensures Closed(e, gone)
    ensures k !in gone ==> ps !! gone
  {
    assert forall x :: x in e ==> e[k := ps][x] == e[x];
    if k !in gone {
      forall p | p in ps ensures p !in gone {
        assert p in e[k := ps][k];
      }
    }
  }

  lemma {:induction false} ParentsSurvive(txs: seq<Tx>, gone: set<nat>, t: Tx)
    requires Distinct(txs) && ParentsIn(txs, t) !! gone
    ensures ParentsIn(Without(txs, gone), t) == ParentsIn(txs, t)
  {
    var own := On(txs, t.account);
    Commute(txs, gone, t.account);
    if own != [] {
      var f, last := own[..|own| - 1], own[|own| - 1];
      assert own == f + [last];
      UnfoldSelect(f, last, gone);
    }
    assert Outputs(Without(txs, gone)) <= Outputs(txs);
    forall n | n in t.unauthenticated && n in Outputs(txs)
      ensures n in Outputs(Without(txs, gone))
      ensures Creator(Without(txs, gone), n) == Creator(txs, n)
    {
      assert Creator(txs, n) in ParentsIn(txs, t);
      CreatorWithout(txs, gone, n);
    }
  }

  /** Removing a set of transactions and all their ancestors removes exactly the edges to them. */
  lemma {:induction false} EdgesWithoutAncestors(txs: seq<Tx>, done: set<nat>)
    requires Distinct(txs) && AncestorClosed(EdgesOf(txs), done)
    ensures EdgesOf(Without(txs, done)) == Shrunk(EdgesOf(txs), done)
    decreases |txs|
  {
    if txs != [] {
      EdgesFront(txs);
      var f, t := txs[..|txs| - 1], txs[|txs| - 1];
      assert txs == f + [t];
      AncestorClosedBefore(EdgesOf(f), t.id, ParentsIn(f, t), done);
      EdgesWithoutAncestors(f, done);
      UnfoldSelect(f, t, done);
      ShrunkInsert(EdgesOf(f), t.id, ParentsIn(f, t), done);
      if t.id !in done {
        UnfoldEdges(Without(f, done), t);
        ParentsShrink(f, done, t);
      }
    }
  }

  lemma AncestorClosedBefore(e: Edges, k: nat, ps: set<nat>, done: set<nat>)
    requires k !in e && AncestorClosed(e[k := ps], done)
    ensures AncestorClosed(e, done)
  {
    assert forall x :: x in e ==> e[k := ps][x] == e[x];
  }

  lemma MinusInsert(e: Edges, k: nat, ps: set<nat>, gone: set<nat>)
    ensures e[k := ps] - gone == if k in gone then e - gone else (e - gone)[k := ps]
  {
  }

  lemma ShrunkInsert(e: Edges, k: nat, ps: set<nat>, done: set<nat>)
    requires k !in e
    ensures Shrunk(e[k := ps], done) ==
            if k in done then Shrunk(e, done) else Shrunk(e, done)[k := ps - done]
  {
  }

  lemma {:induction false} ParentsShrink(txs: seq<Tx>, done: set<nat>, t: Tx)
    requires Distinct(txs) && AncestorClosed(EdgesOf(txs), done)
    ensures ParentsIn(Without(txs, done), t) == ParentsIn(txs, t) - done
  {
    AccountParentShrinks(txs, done, t.account);
    assert Outputs(Without(txs, done)) <= Outputs(txs);
    forall n | n in t.unauthenticated && n in Outputs(txs)
      ensures Creator(txs, n) in done <==> n !in Outputs(Without(txs, done))
      ensures Creator(txs, n) !in done ==> Creator(Without(txs, done), n) == Creator(txs, n)
    {
      CreatorWithout(txs, done, n);
    }
  }

  lemma {:induction false} AccountParentShrinks(txs: seq<Tx>, done: set<nat>, account: nat)
    requires Distinct(txs) && AncestorClosed(EdgesOf(txs), done)
    ensures AccountParent(Without(txs, done), account) == AccountParent(txs, account) - done
  {
    var own := On(txs, account);
    Commute(txs, done, account);
    if own != [] {
      var f, last := own[..|own| - 1], own[|own| - 1];
      assert own == f + [last];
      if last.id in done {
        forall x | x in own ensures x.id in done {
          var i :| 0 <= i < |own| && own[i] == x;
          AncestorsTakePrefix(txs, done, account, i, |own| - 1);
        }
        WithoutAll(own, done);
      } else {
        UnfoldSelect(f, last, done);
      }
    }
  }
}
