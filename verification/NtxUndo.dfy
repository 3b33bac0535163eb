/** Undoing the effects of transactions on an account works in any order. */
module NtxUndo {
  import opened Prelude
  import opened NtxAccounts

  /** What a transaction does to one account: at most one delta, the notes it creates for the
      account and the notes of the account that it consumes. */
  datatype Effect = Effect(delta: Option<nat>, notes: seq<Note>, nullifiers: seq<nat>)

  // ---------------------------------------------------------------------------------------------
  // Applying: the delta, then the notes, then the nullifiers.

  function AddNotes(acc: Acc, notes: seq<Note>): Acc {
    if notes == [] then acc
    else AddNotes(acc, notes[..|notes| - 1]).AddNote(notes[|notes| - 1])
  }

  /** `None` when a note is not available, which is an `expect` that fires. */
  function NullifiersAdded(acc: Acc, ns: seq<nat>): Option<Acc> {
    if ns == [] then Some(acc) else
      var before := NullifiersAdded(acc, ns[..|ns| - 1]);
      if before.None? || ns[|ns| - 1] !in before.value.available then None
      else Some(before.value.AddNullifier(ns[|ns| - 1]))
  }

  function WithDelta(apply: ApplyDelta, acc: Acc, delta: Option<nat>): Option<Acc> {
    if delta.None? then Some(acc)
    else if acc.CanAddDelta(apply, delta.value) then Some(acc.AddDelta(apply, delta.value))
    else None
  }

  function Apply(apply: ApplyDelta, acc: Acc, e: Effect): Option<Acc> {
    var changed := WithDelta(apply, acc, e.delta);
    if changed.None? then None else NullifiersAdded(AddNotes(changed.value, e.notes), e.nullifiers)
  }

  function ApplyAll(apply: ApplyDelta, acc: Acc, es: seq<Effect>): Option<Acc> {
    if es == [] then Some(acc) else
      var before := ApplyAll(apply, acc, es[..|es| - 1]);
      if before.None? then None else Apply(apply, before.value, es[|es| - 1])
  }

  // ---------------------------------------------------------------------------------------------
  // Reverting: the delta, then the notes and then the nullifiers, each in ascending order.

  function RevertNotes(acc: Acc, ns: set<nat>): Acc
    decreases ns
  {
    if ns == {} then acc else
      var n := Min(ns);
      RevertNotes(acc.RevertNote(n), ns - {n})
  }

  function RevertNullifiers(acc: Acc, ns: set<nat>): Acc
    decreases ns
  {
    if ns == {} then acc else
      var n := Min(ns);
      RevertNullifiers(acc.RevertNullifier(n), ns - {n})
  }

  /** `None` when there is no delta to revert. */
  function Revert(acc: Acc, e: Effect): Option<Acc> {
    if e.delta.Some? && acc.inflight == [] then None else
      var changed := if e.delta.Some? then acc.RevertDelta() else acc;
      Some(RevertNullifiers(RevertNotes(changed, Nullifiers(e.notes)), Elems(e.nullifiers)))
  }

  /** Reverts the effects with the given indices, in that order. */
  function RevertAll(acc: Acc, es: seq<Effect>, order: seq<nat>): Option<Acc> {
    if order == [] then Some(acc) else
      var before := RevertAll(acc, es, order[..|order| - 1]);
      if before.None? || order[|order| - 1] >= |es| then None
      else Revert(before.value, es[order[|order| - 1]])
  }

  // ---------------------------------------------------------------------------------------------
  // The walks, all at once

  function Book(notes: seq<Note>): (book: map<nat, Note>)
    ensures book.Keys == Nullifiers(notes)
  {
    if notes == [] then map[] else
      var last := notes[|notes| - 1];
      assert forall x :: x in notes <==> x in notes[..|notes| - 1] || x == last;
      Book(notes[..|notes| - 1])[last.nullifier := last]
  }

  lemma {:induction false} AddNotesIs(acc: Acc, notes: seq<Note>)
    ensures AddNotes(acc, notes) == acc.(available := acc.available + Book(notes))
    decreases |notes|
  {
    if notes == [] {
      assert acc.available + Book(notes) == acc.available;
    } else {
      AddNotesIs(acc, notes[..|notes| - 1]);
      var f, last := Book(notes[..|notes| - 1]), notes[|notes| - 1];
      assert (acc.available + f)[last.nullifier := last] ==
             acc.available + f[last.nullifier := last];
    }
  }

  function Moved(from: map<nat, Note>, ns: set<nat>): map<nat, Note> {
    map n | n in from && n in ns :: from[n]
  }

  lemma {:induction false} NullifiersAddedIs(acc: Acc, ns: seq<nat>)
    requires NullifiersAdded(acc, ns).Some?
    ensures Elems(ns) <= acc.available.Keys
    ensures NullifiersAdded(acc, ns) == Some(acc.(
      available := acc.available - Elems(ns),
      nullified := acc.nullified + Moved(acc.available, Elems(ns))))
    decreases |ns|
  {
    if ns == [] {
      assert Elems(ns) == {};
      assert acc.available - {} == acc.available;
      assert acc.nullified + Moved(acc.available, {}) == acc.nullified;
    } else {
      var f, n := ns[..|ns| - 1], ns[|ns| - 1];
      NullifiersAddedIs(acc, f);
      assert Elems(ns) == Elems(f) + {n};
      MovedOneMore(acc.available, acc.nullified, Elems(f), n);
    }
  }

  lemma MovedOneMore(a: map<nat, Note>, u: map<nat, Note>, ns: set<nat>, n: nat)
    requires n in a - ns
    ensures (a - ns) - {n} == a - (ns + {n})
    ensures (u + Moved(a, ns))[n := (a - ns)[n]] == u + Moved(a, ns + {n})
  {
  }

  lemma {:induction false} RevertNotesIs(acc: Acc, ns: set<nat>)
    ensures RevertNotes(acc, ns) ==
            acc.(available := acc.available - ns, nullified := acc.nullified - ns)
    decreases ns
  {
    if ns == {} {
      assert acc.available - {} == acc.available && acc.nullified - {} == acc.nullified;
    } else {
      var n := Min(ns);
      RevertNotesIs(acc.RevertNote(n), ns - {n});
      assert (acc.available - {n}) - (ns - {n}) == acc.available - ns;
      assert (acc.nullified - {n}) - (ns - {n}) == acc.nullified - ns;
    }
  }

  lemma {:induction false} RevertNullifiersIs(acc: Acc, ns: set<nat>)
    ensures RevertNullifiers(acc, ns) ==
            acc.(available := acc.available + Moved(acc.nullified, ns),
                 nullified := acc.nullified - ns)
    decreases ns
  {
    if ns == {} {
      assert acc.available + Moved(acc.nullified, {}) == acc.available;
      assert acc.nullified - {} == acc.nullified;
    } else {
      var n := Min(ns);
      var next := acc.RevertNullifier(n);
      RevertNullifiersIs(next, ns - {n});
      assert next.available + Moved(next.nullified, ns - {n}) ==
             acc.available + Moved(acc.nullified, ns);
      assert next.nullified - (ns - {n}) == acc.nullified - ns;
    }
  }

  /** The whole effect of one revert. */
  lemma RevertIs(acc: Acc, e: Effect)
    requires e.delta.Some? ==> acc.inflight != []
    ensures var ns, us := Nullifiers(e.notes), Elems(e.nullifiers);
      Revert(acc, e) == Some(Acc(
        acc.committed,
        if e.delta.Some? then acc.inflight[..|acc.inflight| - 1] else acc.inflight,
        (acc.available - ns) + Moved(acc.nullified - ns, us),
        (acc.nullified - ns) - us))
  {
    var changed := if e.delta.Some? then acc.RevertDelta() else acc;
    RevertNotesIs(changed, Nullifiers(e.notes));
    RevertNullifiersIs(RevertNotes(changed, Nullifiers(e.notes)), Elems(e.nullifiers));
  }

  // ---------------------------------------------------------------------------------------------
  // Applying a list of effects

  /** The notes are new to the account: neither available nor consumed, and not created twice. */
  predicate Fresh(acc: Acc, e: Effect) {
    Nullifiers(e.notes) !! acc.available.Keys + acc.nullified.Keys
  }

  /** Every effect in the list can be applied when its turn comes, and creates only new notes. */
  predicate Applicable(apply: ApplyDelta, acc: Acc, es: seq<Effect>) {
    es == [] ||
    (var f := es[..|es| - 1];
     && Applicable(apply, acc, f)
     && ApplyAll(apply, acc, es).Some?
     && ApplyAll(apply, acc, f).Some?
     && Fresh(ApplyAll(apply, acc, f).value, es[|es| - 1]))
  }

  function DeltaCount(e: Effect): nat {
    if e.delta.Some? then 1 else 0
  }

  /** How many deltas of the list are left when the effects in `gone` are reverted. */
  function Remaining(es: seq<Effect>, gone: set<nat>): nat {
    if es == [] then 0 else
      Remaining(es[..|es| - 1], gone) +
      if |es| - 1 in gone then 0 else DeltaCount(es[|es| - 1])
  }

  /** The notes created by each effect. */
  function Made(es: seq<Effect>): (ss: seq<set<nat>>)
    ensures |ss| == |es| && forall i :: 0 <= i < |es| ==> ss[i] == Nullifiers(es[i].notes)
  {
    if es == [] then [] else Made(es[..|es| - 1]) + [Nullifiers(es[|es| - 1].notes)]
  }

  /** The notes consumed by each effect. */
  function Used(es: seq<Effect>): (ss: seq<set<nat>>)
    ensures |ss| == |es| && forall i :: 0 <= i < |es| ==> ss[i] == Elems(es[i].nullifiers)
  {
    if es == [] then [] else Used(es[..|es| - 1]) + [Elems(es[|es| - 1].nullifiers)]
  }

  /** The union of the sets whose index is not in `gone`. */
  function Union(ss: seq<set<nat>>, gone: set<nat>): set<nat> {
    if ss == [] then {} else
      Union(ss[..|ss| - 1], gone) + if |ss| - 1 in gone then {} else ss[|ss| - 1]
  }

  predicate Apart(ss: seq<set<nat>>) {
    ss == [] || (Apart(ss[..|ss| - 1]) && ss[|ss| - 1] !! Union(ss[..|ss| - 1], {}))
  }

  lemma {:induction false} UnionPush(ss: seq<set<nat>>, s: set<nat>, gone: set<nat>)
    ensures Union(ss + [s], gone) == Union(ss, gone) + if |ss| in gone then {} else s
    ensures Apart(ss + [s]) <==> Apart(ss) && s !! Union(ss, {})
  {
    assert (ss + [s])[..|ss|] == ss;
  }

  lemma {:induction false} UnionShrinks(ss: seq<set<nat>>, gone: set<nat>, more: set<nat>)
    requires gone <= more
    ensures Union(ss, more) <= Union(ss, gone)
    ensures (forall i :: 0 <= i < |ss| && i in more ==> i in gone) ==>
            Union(ss, more) == Union(ss, gone)
    ensures (forall i :: 0 <= i < |ss| ==> i in more) ==> Union(ss, more) == {}
    decreases |ss|
  {
    if ss != [] {
      UnionShrinks(ss[..|ss| - 1], gone, more);
    }
  }

  /** Taking one of several disjoint sets out of a union. */
  lemma {:induction false} UnionWithout(ss: seq<set<nat>>, gone: set<nat>, i: nat)
    requires Apart(ss) && i < |ss| && i !in gone
    ensures Union(ss, gone + {i}) == Union(ss, gone) - ss[i]
    ensures ss[i] <= Union(ss, gone)
    decreases |ss|
  {
    var f := ss[..|ss| - 1];
    UnionShrinks(f, {}, gone);
    if i == |f| {
      UnionShrinks(f, gone, gone + {i});
    } else {
      UnionWithout(f, gone, i);
    }
  }

  /** All notes the account ever had available. */
  function Library(available: map<nat, Note>, es: seq<Effect>): map<nat, Note> {
    if es == [] then available
    else Library(available, es[..|es| - 1]) + Book(es[|es| - 1].notes)
  }

  /** The notes of `t` are those of `acc` and those created by effects that were not reverted,
      consumed or not as those effects have it. */
  predicate NotesLeft(acc: Acc, es: seq<Effect>, gone: set<nat>, t: Acc) {
    var left :=
      && Left(acc.available.Keys, acc.nullified.Keys, Union(Made(es), gone),
              Union(Used(es), gone), t.available.Keys, t.nullified.Keys)
      && Agree(t.available, Library(acc.available, es))
      && Agree(t.nullified, Library(acc.available, es) + acc.nullified);
    left
  }

  predicate Left(available: set<nat>, nullified: set<nat>, made: set<nat>, used: set<nat>,
                 availableNow: set<nat>, nullifiedNow: set<nat>)
  {
    var left :=
      && availableNow == (available + made) - used
      && nullifiedNow == nullified + (available + made) * used;
    left
  }

  predicate Agree(m: map<nat, Note>, library: map<nat, Note>) {
    forall n :: n in m.Keys ==> n in library && m[n] == library[n]
  }

  /** Each note is created and consumed at most once, is not one that was there already, and is
      there when it is consumed. */
  predicate Once(acc: Acc, es: seq<Effect>) {
    var once :=
      && Apart(Made(es)) && Apart(Used(es))
      && Separate(acc.available.Keys, acc.nullified.Keys, Union(Made(es), {}),
                  Union(Used(es), {}))
      && Library(acc.available, es).Keys == acc.available.Keys + Union(Made(es), {});
    once
  }

  predicate Separate(available: set<nat>, nullified: set<nat>, made: set<nat>, used: set<nat>) {
    var separate :=
      && available !! nullified && made !! available + nullified
      && used !! nullified && used <= available + made;
    separate
  }

  /** The notes after all effects were applied. */
  lemma {:induction false} AppliedNotes(apply: ApplyDelta, acc: Acc, es: seq<Effect>)
    requires Applicable(apply, acc, es) && acc.available.Keys !! acc.nullified.Keys
    ensures ApplyAll(apply, acc, es).Some?
    ensures Once(acc, es) && NotesLeft(acc, es, {}, ApplyAll(apply, acc, es).value)
    decreases |es|
  {
    if es != [] {
      var f, e := es[..|es| - 1], es[|es| - 1];
      assert es == f + [e];
      AppliedNotes(apply, acc, f);
      var t, t' := ApplyAll(apply, acc, f).value, ApplyAll(apply, acc, es).value;
      AppliedOne(apply, t, e, t');
      UnionPush(Made(f), Nullifiers(e.notes), {});
      UnionPush(Used(f), Elems(e.nullifiers), {});
      OnceMore(acc, f, e, t, t');
    }
  }

  /** The notes after one more effect. */
  predicate Follows(t: Acc, e: Effect, t': Acc) {
    var there := t.available + Book(e.notes);
    var follows :=
      && Elems(e.nullifiers) <= there.Keys
      && t'.available == there - Elems(e.nullifiers)
      && t'.nullified == t.nullified + Moved(there, Elems(e.nullifiers));
    follows
  }

  lemma AppliedOne(apply: ApplyDelta, t: Acc, e: Effect, t': Acc)
    requires Apply(apply, t, e) == Some(t')
    ensures Follows(t, e, t')
  {
    var changed := WithDelta(apply, t, e.delta).value;
    AddNotesIs(changed, e.notes);
    NullifiersAddedIs(AddNotes(changed, e.notes), e.nullifiers);
  }

  lemma OnceMore(acc: Acc, f: seq<Effect>, e: Effect, t: Acc, t': Acc)
    requires Once(acc, f) && NotesLeft(acc, f, {}, t) && Fresh(t, e) && Follows(t, e, t')
    ensures Once(acc, f + [e]) && NotesLeft(acc, f + [e], {}, t')
  {
    var es := f + [e];
    assert es[..|f|] == f && Made(es) == Made(f) + [Nullifiers(e.notes)];
    assert Used(es) == Used(f) + [Elems(e.nullifiers)];
    assert Library(acc.available, es) == Library(acc.available, f) + Book(e.notes);
    UnionPush(Made(f), Nullifiers(e.notes), {});
    UnionPush(Used(f), Elems(e.nullifiers), {});
    KeysAfterOne(t, e, t');
    SetsAfterOne(acc.available.Keys, acc.nullified.Keys, Union(Made(f), {}), Union(Used(f), {}),
                 Nullifiers(e.notes), Elems(e.nullifiers), t.available.Keys, t.nullified.Keys);
    ValuesAfterOne(Library(acc.available, f), acc.nullified, t, e, t');
    hide Made, Used, Library, Union, Elems, Nullifiers, Agree, Separate, Left, Follows;
  }

  lemma KeysAfterOne(t: Acc, e: Effect, t': Acc)
    requires Follows(t, e, t')
    ensures Elems(e.nullifiers) <= t.available.Keys + Nullifiers(e.notes)
    ensures t'.available.Keys == (t.available.Keys + Nullifiers(e.notes)) - Elems(e.nullifiers)
    ensures t'.nullified.Keys == t.nullified.Keys + Elems(e.nullifiers)
  {
  }

  lemma SetsAfterOne(a: set<nat>, u: set<nat>, made: set<nat>, used: set<nat>, ks: set<nat>,
                     ns: set<nat>, ta: set<nat>, tu: set<nat>)
    requires Separate(a, u, made, used) && Left(a, u, made, used, ta, tu)
    requires ks !! ta + tu && ns <= ta + ks
    ensures ks !! made && ns !! used && Separate(a, u, made + ks, used + ns)
    ensures Left(a, u, made + ks, used + ns, (ta + ks) - ns, tu + ns)
    ensures (a + made) + ks == a + (made + ks)
  {
  }

  lemma ValuesAfterOne(library: map<nat, Note>, nullified: map<nat, Note>, t: Acc, e: Effect,
                       t': Acc)
    requires Agree(t.available, library) && Agree(t.nullified, library + nullified)
    requires Fresh(t, e) && Follows(t, e, t')
    requires nullified.Keys <= t.nullified.Keys && t.available.Keys !! t.nullified.Keys
    ensures Agree(t'.available, library + Book(e.notes))
    ensures Agree(t'.nullified, library + Book(e.notes) + nullified)
  {
  }

  lemma {:induction false} LibraryKeeps(available: map<nat, Note>, es: seq<Effect>, n: nat)
    requires n in available && n !in Union(Made(es), {})
    ensures n in Library(available, es) && Library(available, es)[n] == available[n]
    decreases |es|
  {
    if es != [] {
      assert Made(es)[..|es| - 1] == Made(es[..|es| - 1]);
      LibraryKeeps(available, es[..|es| - 1], n);
    }
  }

  // ---------------------------------------------------------------------------------------------
  // Reverting one effect after another

  lemma {:induction false} RemainingWithout(es: seq<Effect>, gone: set<nat>, i: nat)
    requires i < |es| && i !in gone
    ensures Remaining(es, gone) == Remaining(es, gone + {i}) + DeltaCount(es[i])
    decreases |es|
  {
    var f := es[..|es| - 1];
    if i == |f| {
      RemainingSame(f, gone, gone + {i});
    } else {
      RemainingWithout(f, gone, i);
    }
  }

  lemma {:induction false} RemainingSame(es: seq<Effect>, a: set<nat>, b: set<nat>)
    requires forall i :: 0 <= i < |es| ==> (i in a <==> i in b)
    ensures Remaining(es, a) == Remaining(es, b)
    decreases |es|
  {
    if es != [] {
      RemainingSame(es[..|es| - 1], a, b);
    }
  }

  lemma {:induction false} RemainingNone(es: seq<Effect>, gone: set<nat>)
    requires forall i :: 0 <= i < |es| ==> i in gone
    ensures Remaining(es, gone) == 0
    decreases |es|
  {
    if es != [] {
      RemainingNone(es[..|es| - 1], gone);
    }
  }

  /** Applying only pushes onto the states in flight. */
  lemma {:induction false} AppliedStates(apply: ApplyDelta, acc: Acc, es: seq<Effect>)
    requires ApplyAll(apply, acc, es).Some?
    ensures var t := ApplyAll(apply, acc, es).value;
      && t.committed == acc.committed && acc.inflight <= t.inflight
      && |t.inflight| == |acc.inflight| + Remaining(es, {})
    decreases |es|
  {
    if es != [] {
      var f, e := es[..|es| - 1], es[|es| - 1];
      AppliedStates(apply, acc, f);
      var changed := WithDelta(apply, ApplyAll(apply, acc, f).value, e.delta).value;
      AddNotesIs(changed, e.notes);
      NullifiersAddedIs(AddNotes(changed, e.notes), e.nullifiers);
    }
  }

  /** What is left of the states in flight. */
  predicate StatesLeft(acc: Acc, full: seq<nat>, left: nat, t: Acc) {
    && |acc.inflight| + left <= |full|
    && t.committed == acc.committed
    && t.inflight == full[..|acc.inflight| + left]
  }

  lemma {:induction false} RevertOne(acc: Acc, es: seq<Effect>, full: seq<nat>, gone: set<nat>,
                                     i: nat, t: Acc)
    requires Once(acc, es) && NotesLeft(acc, es, gone, t)
    requires StatesLeft(acc, full, Remaining(es, gone), t)
    requires i < |es| && i !in gone
    ensures Revert(t, es[i]).Some?
    ensures NotesLeft(acc, es, gone + {i}, Revert(t, es[i]).value)
    ensures StatesLeft(acc, full, Remaining(es, gone + {i}), Revert(t, es[i]).value)
  {
    hide Once, NotesLeft, Revert, Remaining, Moved, Nullifiers, Elems;
    RemainingWithout(es, gone, i);
    RevertIs(t, es[i]);
    assert StatesLeft(acc, full, Remaining(es, gone + {i}), Revert(t, es[i]).value);
    RevertedNotes(acc, es, gone, i, t, Revert(t, es[i]).value);
  }

  lemma RevertedNotes(acc: Acc, es: seq<Effect>, gone: set<nat>, i: nat, t: Acc, t': Acc)
    requires Once(acc, es) && NotesLeft(acc, es, gone, t) && i < |es| && i !in gone
    requires var ns, us := Nullifiers(es[i].notes), Elems(es[i].nullifiers);
      t'.available == (t.available - ns) + Moved(t.nullified - ns, us) &&
      t'.nullified == (t.nullified - ns) - us
    ensures NotesLeft(acc, es, gone + {i}, t')
  {
    UnionWithout(Made(es), gone, i);
    UnionWithout(Used(es), gone, i);
    UnionShrinks(Made(es), {}, gone);
    UnionShrinks(Used(es), {}, gone);
    var ns, us := Nullifiers(es[i].notes), Elems(es[i].nullifiers);
    hide Made, Used, Union, Apart, Nullifiers, Elems, Library;
    RevertedSets(acc.available.Keys, acc.nullified.Keys, Union(Made(es), {}),
                 Union(Used(es), {}), Union(Made(es), gone), Union(Used(es), gone), ns, us,
                 t.available.Keys, t.nullified.Keys);
    RevertedKeys(t, ns, us, t');
    hide Left, Separate;
    RevertedValues(Library(acc.available, es), acc.nullified, t, ns, us, t');
  }

  lemma RevertedKeys(t: Acc, ns: set<nat>, us: set<nat>, t': Acc)
    requires t'.available == (t.available - ns) + Moved(t.nullified - ns, us)
    requires t'.nullified == (t.nullified - ns) - us
    ensures t'.available.Keys == (t.available.Keys - ns) + (t.nullified.Keys - ns) * us
    ensures t'.nullified.Keys == (t.nullified.Keys - ns) - us
  {
  }

  lemma RevertedSets(a: set<nat>, u: set<nat>, made0: set<nat>, used0: set<nat>,
                     made: set<nat>, used: set<nat>, ns: set<nat>, us: set<nat>,
                     ta: set<nat>, tu: set<nat>)
    requires Separate(a, u, made0, used0) && made <= made0 && used <= used0
    requires Left(a, u, made, used, ta, tu) && ns <= made && us <= used
    ensures Left(a, u, made - ns, used - us, (ta - ns) + (tu - ns) * us, (tu - ns) - us)
    ensures us !! u
  {
  }

  lemma RevertedValues(library: map<nat, Note>, nullified: map<nat, Note>, t: Acc,
                       ns: set<nat>, us: set<nat>, t': Acc)
    requires Agree(t.available, library) && Agree(t.nullified, library + nullified)
    requires us !! nullified.Keys
    requires t'.available == (t.available - ns) + Moved(t.nullified - ns, us)
    requires t'.nullified == (t.nullified - ns) - us
    ensures Agree(t'.available, library) && Agree(t'.nullified, library + nullified)
  {
  }

  lemma {:induction false} RevertSome(acc: Acc, es: seq<Effect>, t: Acc, order: seq<nat>)
    requires Once(acc, es) && NotesLeft(acc, es, {}, t)
    requires StatesLeft(acc, t.inflight, Remaining(es, {}), t)
    requires NoDup(order) && forall i :: i in order ==> i < |es|
    ensures RevertAll(t, es, order).Some?
    ensures NotesLeft(acc, es, Elems(order), RevertAll(t, es, order).value)
    ensures StatesLeft(acc, t.inflight, Remaining(es, Elems(order)),
                       RevertAll(t, es, order).value)
    decreases |order|
  {
    if order == [] {
      assert Elems(order) == {};
    } else {
      var f, i := order[..|order| - 1], order[|order| - 1];
      assert order == f + [i];
      NoDupSplit(f, [i]);
      assert forall j :: j in f ==> j in order;
      RevertSome(acc, es, t, f);
      assert i !in f && Elems(order) == Elems(f) + {i};
      RevertOne(acc, es, t.inflight, Elems(f), i, RevertAll(t, es, f).value);
    }
  }

  /** Whatever transactions did to an account, reverting them all in any order, not only newest
      first, gives back the account as it was. */
  lemma {:induction false} UndoInAnyOrder(apply: ApplyDelta, acc: Acc, es: seq<Effect>,
                                          order: seq<nat>)
    requires Applicable(apply, acc, es) && acc.available.Keys !! acc.nullified.Keys
    requires NoDup(order) && forall i: nat :: i in order <==> i < |es|
    ensures ApplyAll(apply, acc, es).Some?
    ensures RevertAll(ApplyAll(apply, acc, es).value, es, order) == Some(acc)
  {
    AppliedNotes(apply, acc, es);
    AppliedStates(apply, acc, es);
    var t := ApplyAll(apply, acc, es).value;
    hide Applicable, ApplyAll, RevertAll, Once, NotesLeft, Remaining;
    assert t.inflight[..|t.inflight|] == t.inflight;
    RevertSome(acc, es, t, order);
    forall i | 0 <= i < |es| ensures i in Elems(order) {
      assert i in order;
    }
    AllReverted(acc, es, t.inflight, Elems(order), RevertAll(t, es, order).value);
  }

  lemma {:induction false} AllReverted(acc: Acc, es: seq<Effect>, full: seq<nat>, gone: set<nat>,
                                       t: Acc)
    requires Once(acc, es) && NotesLeft(acc, es, gone, t)
    requires StatesLeft(acc, full, Remaining(es, gone), t) && acc.inflight <= full
    requires forall i :: 0 <= i < |es| ==> i in gone
    ensures t == acc
  {
    RemainingNone(es, gone);
    UnionShrinks(Made(es), {}, gone);
    UnionShrinks(Used(es), {}, gone);
    AllNotesReverted(acc, es, gone, t);
    hide Once, NotesLeft, Made, Used, Union;
    assert full[..|acc.inflight|] == acc.inflight;
  }

  lemma {:induction false} AllNotesReverted(acc: Acc, es: seq<Effect>, gone: set<nat>, t: Acc)
    requires Once(acc, es) && NotesLeft(acc, es, gone, t)
    requires Union(Made(es), gone) == {} && Union(Used(es), gone) == {}
    ensures t.available == acc.available && t.nullified == acc.nullified
  {
    forall n | n in acc.available
      ensures n in Library(acc.available, es)
      ensures Library(acc.available, es)[n] == acc.available[n]
    {
      LibraryKeeps(acc.available, es, n);
    }
    hide Made, Used, Union, Library, Apart;
  }
}
