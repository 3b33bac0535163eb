/** The rotating queue: what one search does, when it panics, and how long an account waits. */
module NtxSelection {
  import opened Prelude
  import opened NtxAccounts
  import opened NtxStates

  predicate Selectable(accounts: map<nat, Acc>, busy: set<nat>, p: nat) {
    p !in busy && p in accounts && accounts[p].available != map[]
  }

  predicate Prunable(accounts: map<nat, Acc>, busy: set<nat>, p: nat) {
    p !in busy && p in accounts && accounts[p].IsEmpty()
  }

  /** In the queue, free, and not tracked any more. */
  predicate Lost(accounts: map<nat, Acc>, busy: set<nat>, p: nat) {
    p !in busy && p !in accounts
  }

  /** The first place where a search ends: a selectable account, or one that is lost. */
  function Stop(accounts: map<nat, Acc>, busy: set<nat>, queue: seq<nat>): (k: nat)
    ensures k <= |queue|
    ensures k < |queue| ==>
      Selectable(accounts, busy, queue[k]) || Lost(accounts, busy, queue[k])
    ensures forall i :: 0 <= i < k ==>
      !Selectable(accounts, busy, queue[i]) && !Lost(accounts, busy, queue[i])
  {
    if queue == [] then 0
    else if Selectable(accounts, busy, queue[0]) || Lost(accounts, busy, queue[0]) then 0
    else 1 + Stop(accounts, busy, queue[1..])
  }

  function Pruned(accounts: map<nat, Acc>, busy: set<nat>, queue: seq<nat>): set<nat> {
    set p | p in queue && Prunable(accounts, busy, p)
  }

  /** What is left of the accounts that were passed, in their order. */
  function Kept(accounts: map<nat, Acc>, busy: set<nat>, queue: seq<nat>): (r: seq<nat>)
    ensures forall p :: p in r <==> p in queue && !Prunable(accounts, busy, p)
  {
    if queue == [] then [] else
      (if Prunable(accounts, busy, queue[0]) then [] else [queue[0]]) +
      Kept(accounts, busy, queue[1..])
  }

  /** What a search of the whole queue comes to. */
  function SearchResult(accounts: map<nat, Acc>, busy: set<nat>, queue: seq<nat>, tail: seq<nat>)
      : Option<Found>
  {
    var k := Stop(accounts, busy, queue);
    var passed := queue[..k];
    var accounts' := accounts - Pruned(accounts, busy, passed);
    var kept := tail + Kept(accounts, busy, passed);
    if k == |queue| then Some(Found(accounts', kept, None))
    else if queue[k] !in accounts then None
    else Some(Found(accounts', queue[k + 1..] + kept + [queue[k]], Some(queue[k])))
  }

  lemma {:induction false} KeptSame(accounts: map<nat, Acc>, accounts': map<nat, Acc>,
                                    busy: set<nat>, queue: seq<nat>)
    requires forall p :: p in queue ==>
      (Prunable(accounts, busy, p) <==> Prunable(accounts', busy, p))
    ensures Kept(accounts, busy, queue) == Kept(accounts', busy, queue)
    ensures Pruned(accounts, busy, queue) == Pruned(accounts', busy, queue)
    decreases |queue|
  {
    if queue != [] {
      KeptSame(accounts, accounts', busy, queue[1..]);
    }
  }

  lemma {:induction false} StopSame(accounts: map<nat, Acc>, accounts': map<nat, Acc>,
                                    busy: set<nat>, queue: seq<nat>)
    requires forall p :: p in queue ==>
      (Selectable(accounts, busy, p) <==> Selectable(accounts', busy, p)) &&
      (Lost(accounts, busy, p) <==> Lost(accounts', busy, p))
    ensures Stop(accounts, busy, queue) == Stop(accounts', busy, queue)
    decreases |queue|
  {
    if queue != [] {
      StopSame(accounts, accounts', busy, queue[1..]);
    }
  }

  /** Dropping an account changes nothing for a queue it is not in. */
  lemma {:induction false} DropSame(accounts: map<nat, Acc>, busy: set<nat>, c: nat,
                                    queue: seq<nat>, tail: seq<nat>)
    requires c !in queue && Prunable(accounts, busy, c)
    ensures SearchResult(accounts - {c}, busy, queue, tail) ==
            SearchResult(accounts, busy, [c] + queue, tail)
  {
    var accounts' := accounts - {c};
    StopSame(accounts, accounts', busy, queue);
    var k := Stop(accounts, busy, queue);
    assert ([c] + queue)[1..] == queue;
    assert Stop(accounts, busy, [c] + queue) == k + 1;
    assert ([c] + queue)[..k + 1] == [c] + queue[..k];
    DropPassed(accounts, busy, c, queue[..k]);
    hide Stop, Kept, Pruned, Prunable;
    if k < |queue| {
      assert ([c] + queue)[k + 1] == queue[k];
      assert ([c] + queue)[k + 2..] == queue[k + 1..];
    }
  }

  lemma {:induction false} DropPassed(accounts: map<nat, Acc>, busy: set<nat>, c: nat,
                                      passed: seq<nat>)
    requires c !in passed && Prunable(accounts, busy, c)
    ensures Kept(accounts, busy, [c] + passed) == Kept(accounts - {c}, busy, passed)
    ensures accounts - Pruned(accounts, busy, [c] + passed) ==
            (accounts - {c}) - Pruned(accounts - {c}, busy, passed)
  {
    KeptSame(accounts, accounts - {c}, busy, passed);
    assert ([c] + passed)[1..] == passed;
    assert Pruned(accounts, busy, [c] + passed) == Pruned(accounts, busy, passed) + {c};
  }

  /** Passing an account that stays moves it to the back. */
  lemma {:induction false} PassSame(accounts: map<nat, Acc>, busy: set<nat>, c: nat,
                                    queue: seq<nat>, tail: seq<nat>)
    requires !Prunable(accounts, busy, c)
    requires !Selectable(accounts, busy, c) && !Lost(accounts, busy, c)
    ensures SearchResult(accounts, busy, queue, tail + [c]) ==
            SearchResult(accounts, busy, [c] + queue, tail)
  {
    var k := Stop(accounts, busy, queue);
    assert ([c] + queue)[1..] == queue;
    assert Stop(accounts, busy, [c] + queue) == k + 1;
    var passed := queue[..k];
    assert ([c] + queue)[..k + 1] == [c] + passed;
    assert ([c] + passed)[1..] == passed;
    assert Kept(accounts, busy, [c] + passed) == [c] + Kept(accounts, busy, passed);
    assert Pruned(accounts, busy, [c] + passed) == Pruned(accounts, busy, passed);
    assert tail + ([c] + Kept(accounts, busy, passed)) ==
           (tail + [c]) + Kept(accounts, busy, passed);
    assert k < |queue| ==> ([c] + queue)[k + 1] == queue[k];
    assert k < |queue| ==> ([c] + queue)[k + 2..] == queue[k + 1..];
  }

  lemma {:induction false} SearchFrom(accounts: map<nat, Acc>, busy: set<nat>,
                                      queue: seq<nat>, tail: seq<nat>)
    requires NoDup(queue)
    ensures Search(accounts, busy, queue + tail, |queue|) ==
            SearchResult(accounts, busy, queue, tail)
    decreases |queue|
  {
    if queue == [] {
      assert accounts - Pruned(accounts, busy, []) == accounts;
      assert queue + tail == tail + [];
    } else {
      var c, rest := queue[0], queue[1..];
      assert queue == [c] + rest;
      NoDupSplit([c], rest);
      assert c !in rest by { assert c in [c]; }
      assert (queue + tail)[1..] == rest + tail;
      assert (queue + tail)[1..] + [c] == rest + (tail + [c]);
      if Selectable(accounts, busy, c) || Lost(accounts, busy, c) {
        StopsHere(accounts, busy, c, rest, tail);
      } else if Prunable(accounts, busy, c) {
        SearchFrom(accounts - {c}, busy, rest, tail);
        DropSame(accounts, busy, c, rest, tail);
      } else {
        SearchFrom(accounts, busy, rest, tail + [c]);
        PassSame(accounts, busy, c, rest, tail);
      }
    }
  }

  lemma {:induction false} StopsHere(accounts: map<nat, Acc>, busy: set<nat>, c: nat,
                                     rest: seq<nat>, tail: seq<nat>)
    requires Selectable(accounts, busy, c) || Lost(accounts, busy, c)
    ensures Search(accounts, busy, [c] + rest + tail, |rest| + 1) ==
            SearchResult(accounts, busy, [c] + rest, tail)
  {
    assert ([c] + rest)[..0] == [];
    assert accounts - Pruned(accounts, busy, []) == accounts;
    assert ([c] + rest + tail)[1..] == rest + tail;
    assert ([c] + rest)[1..] == rest;
    assert rest + tail + [c] == rest + (tail + []) + [c];
  }

  // ---------------------------------------------------------------------------------------------
  // One call

  /** One call looks at each account at most once, prunes exactly the free, empty accounts it
      passes, sends the others to the back in their order, and ends at the first account that can
      be selected. It panics exactly when it comes first to one that is lost. */
  lemma {:induction false} SearchIsExact(accounts: map<nat, Acc>, busy: set<nat>, queue: seq<nat>)
    requires NoDup(queue)
    ensures Search(accounts, busy, queue, |queue|) == SearchResult(accounts, busy, queue, [])
    ensures Search(accounts, busy, queue, |queue|).None? <==>
            exists j :: 0 <= j < |queue| && Lost(accounts, busy, queue[j]) &&
                        forall i :: 0 <= i < j ==> !Selectable(accounts, busy, queue[i])
  {
    SearchFrom(accounts, busy, queue, []);
    assert queue + [] == queue;
  }

  /** Free, and either not tracked any more or pruned at an earlier place in the queue. */
  predicate LostAt(accounts: map<nat, Acc>, busy: set<nat>, queue: seq<nat>, j: nat)
    requires j < |queue|
  {
    Lost(accounts, busy, queue[j]) ||
    (Prunable(accounts, busy, queue[j]) && queue[j] in queue[..j])
  }

  ghost predicate MeetsLost(accounts: map<nat, Acc>, busy: set<nat>, queue: seq<nat>, n: nat)
    requires n <= |queue|
  {
    exists j :: 0 <= j < n && LostAt(accounts, busy, queue, j) &&
                forall i :: 0 <= i < j ==> !Selectable(accounts, busy, queue[i])
  }

  /** Whatever is in the queue, even twice: a call panics exactly when it comes to a lost place
      before it comes to a selectable account. */
  lemma {:induction false} SearchFails(accounts: map<nat, Acc>, busy: set<nat>, queue: seq<nat>,
                                       n: nat)
    requires n <= |queue|
    ensures Search(accounts, busy, queue, n).None? <==> MeetsLost(accounts, busy, queue, n)
    decreases n
  {
    if n > 0 {
      var c := queue[0];
      if c in busy || c !in accounts || Selectable(accounts, busy, c) {
        if c in busy {
          SearchFails(accounts, busy, queue[1..] + [c], n - 1);
          PassesFirst(accounts, accounts, busy, queue, queue[1..] + [c], n);
        } else {
          assert queue[..0] == [];
          assert LostAt(accounts, busy, queue, 0) <==> c !in accounts;
        }
      } else if accounts[c].IsEmpty() {
        SearchFails(accounts - {c}, busy, queue[1..], n - 1);
        PassesFirst(accounts, accounts - {c}, busy, queue, queue[1..], n);
      } else {
        SearchFails(accounts, busy, queue[1..] + [c], n - 1);
        PassesFirst(accounts, accounts, busy, queue, queue[1..] + [c], n);
      }
    }
  }

  /** Passing the first place, with its account pruned if it can be. */
  lemma PassesFirst(accounts: map<nat, Acc>, accounts': map<nat, Acc>, busy: set<nat>,
                    queue: seq<nat>, queue': seq<nat>, n: nat)
    requires 0 < n <= |queue| && n - 1 <= |queue'|
    requires queue'[..n - 1] == queue[1..n]
    requires !Selectable(accounts, busy, queue[0]) && !Lost(accounts, busy, queue[0])
    requires accounts' == if Prunable(accounts, busy, queue[0]) then accounts - {queue[0]}
                          else accounts
    ensures MeetsLost(accounts', busy, queue', n - 1) <==> MeetsLost(accounts, busy, queue, n)
  {
    assert forall i :: 0 <= i < n - 1 ==> queue'[i] == queue'[..n - 1][i] == queue[i + 1];
    forall j | 0 <= j < n - 1
      ensures LostAt(accounts', busy, queue', j) <==> LostAt(accounts, busy, queue, j + 1)
      ensures Selectable(accounts', busy, queue'[j]) <==> Selectable(accounts, busy, queue[j + 1])
    {
      assert queue[..j + 1] == [queue[0]] + queue'[..j];
    }
    assert !LostAt(accounts, busy, queue, 0);
    if MeetsLost(accounts, busy, queue, n) {
      var j :| 0 <= j < n && LostAt(accounts, busy, queue, j) &&
               forall i :: 0 <= i < j ==> !Selectable(accounts, busy, queue[i]);
      assert LostAt(accounts', busy, queue', j - 1);
    }
    if MeetsLost(accounts', busy, queue', n - 1) {
      var j :| 0 <= j < n - 1 && LostAt(accounts', busy, queue', j) &&
               forall i :: 0 <= i < j ==> !Selectable(accounts', busy, queue'[i]);
      assert LostAt(accounts, busy, queue, j + 1);
      forall i | 0 <= i < j + 1 ensures !Selectable(accounts, busy, queue[i]) {
        assert i > 0 ==> !Selectable(accounts', busy, queue'[i - 1]);
      }
    }
  }

  /** Every tracked account is in the queue, once. */
  ghost predicate Covers(queue: seq<nat>, accounts: set<nat>) {
    NoDup(queue) && Elems(queue) == accounts
  }

  /** With the queue in order a call never panics, selects nothing exactly when nothing can be
      selected, and leaves the queue in order. */
  lemma {:induction false} SearchSucceeds(accounts: map<nat, Acc>, busy: set<nat>, queue: seq<nat>)
    requires Covers(queue, accounts.Keys)
    ensures var found := Search(accounts, busy, queue, |queue|);
      && found.Some?
      && (found.value.chosen.None? <==> forall p :: !Selectable(accounts, busy, p))
      && (found.value.chosen.Some? ==> Selectable(accounts, busy, found.value.chosen.value))
      && Covers(found.value.queue, found.value.accounts.Keys)
  {
    CoversNoDup(queue, accounts.Keys);
    hide Covers, Selectable, SearchResult, Search, Lost, NoDup;
    ResultCovers(accounts, busy, queue);
    SearchIsExact(accounts, busy, queue);
  }

  lemma {:induction false} ResultCovers(accounts: map<nat, Acc>, busy: set<nat>, queue: seq<nat>)
    requires Covers(queue, accounts.Keys)
    ensures var r := SearchResult(accounts, busy, queue, []);
      && r.Some?
      && (r.value.chosen.None? <==> forall p :: !Selectable(accounts, busy, p))
      && (r.value.chosen.Some? ==> Selectable(accounts, busy, r.value.chosen.value))
      && Covers(r.value.queue, r.value.accounts.Keys)
  {
    StopFinds(accounts, busy, queue);
    hide Covers, Kept, Selectable, Stop, Pruned;
    var k := Stop(accounts, busy, queue);
    if k == |queue| {
      AllPassed(accounts, busy, queue);
      assert queue[..k] == queue;
    } else {
      SearchCovers(accounts, busy, queue, k);
    }
  }

  lemma CoversNoDup(queue: seq<nat>, accounts: set<nat>)
    requires Covers(queue, accounts)
    ensures NoDup(queue)
  {
  }

  /** In a queue that is in order no account is lost, and a selectable one is found. */
  lemma {:induction false} StopFinds(accounts: map<nat, Acc>, busy: set<nat>, queue: seq<nat>)
    requires Covers(queue, accounts.Keys)
    ensures var k := Stop(accounts, busy, queue);
      && (k < |queue| ==> Selectable(accounts, busy, queue[k]) && queue[k] in accounts)
      && (k == |queue| <==> forall p :: !Selectable(accounts, busy, p))
  {
    forall p | p in queue ensures p in accounts && !Lost(accounts, busy, p) {
      assert p in Elems(queue);
    }
    forall p | Selectable(accounts, busy, p) ensures Stop(accounts, busy, queue) < |queue| {
      assert p in Elems(queue);
      var i :| 0 <= i < |queue| && queue[i] == p;
    }
  }

  lemma {:induction false} AllPassed(accounts: map<nat, Acc>, busy: set<nat>, queue: seq<nat>)
    requires Covers(queue, accounts.Keys)
    ensures Covers([] + Kept(accounts, busy, queue),
                   accounts.Keys - Pruned(accounts, busy, queue))
  {
    assert queue == queue + [];
    PassedCovers(accounts, busy, queue, []);
  }

  lemma {:induction false} SearchCovers(accounts: map<nat, Acc>, busy: set<nat>,
                                        queue: seq<nat>, k: nat)
    requires Covers(queue, accounts.Keys) && k < |queue|
    ensures var passed := queue[..k];
      Covers(queue[k + 1..] + ([] + Kept(accounts, busy, passed)) + [queue[k]],
             accounts.Keys - Pruned(accounts, busy, passed))
  {
    var passed, rest := queue[..k], queue[k..];
    assert queue == passed + rest;
    PassedCovers(accounts, busy, passed, rest);
    hide Kept, Prunable, Pruned, Covers;
    var kept := Kept(accounts, busy, passed);
    assert [] + kept == kept;
    assert rest == [queue[k]] + queue[k + 1..];
    hide Stop;
    Rearranged(queue[k], queue[k + 1..], kept, accounts.Keys - Pruned(accounts, busy, passed));
  }

  lemma {:induction false} PassedCovers(accounts: map<nat, Acc>, busy: set<nat>,
                                        passed: seq<nat>, rest: seq<nat>)
    requires Covers(passed + rest, accounts.Keys)
    ensures Covers(rest + Kept(accounts, busy, passed),
                   accounts.Keys - Pruned(accounts, busy, passed))
  {
    NoDupSplit(passed, rest);
    KeptNoDup(accounts, busy, passed);
    KeptSet(accounts, busy, passed);
    assert Elems(passed + rest) == Elems(passed) + Elems(rest);
    hide Kept, Prunable, Pruned, NoDup;
    CoversLeft(passed, rest, Kept(accounts, busy, passed), Pruned(accounts, busy, passed));
  }

  lemma {:induction false} KeptSet(accounts: map<nat, Acc>, busy: set<nat>, queue: seq<nat>)
    ensures Elems(Kept(accounts, busy, queue)) == Elems(queue) - Pruned(accounts, busy, queue)
    ensures Pruned(accounts, busy, queue) <= Elems(queue)
  {
  }

  lemma CoversLeft(passed: seq<nat>, rest: seq<nat>, kept: seq<nat>, pruned: set<nat>)
    requires NoDup(rest) && NoDup(kept) && Elems(kept) == Elems(passed) - pruned
    requires pruned <= Elems(passed) && forall p :: p in passed ==> p !in rest
    ensures Covers(rest + kept, Elems(passed) + Elems(rest) - pruned)
  {
    assert forall p :: p in kept ==> p in Elems(kept);
    assert forall p :: p in pruned ==> p in Elems(passed);
    NoDupAppend(rest, kept);
    assert Elems(rest + kept) == Elems(rest) + Elems(kept);
  }

  lemma Rearranged(c: nat, later: seq<nat>, kept: seq<nat>, accounts: set<nat>)
    requires Covers([c] + later + kept, accounts)
    ensures Covers(later + kept + [c], accounts)
  {
    assert [c] + later + kept == [c] + (later + kept);
    NoDupSplit([c], later + kept);
    assert c in [c];
    NoDupAppend(later + kept, [c]);
    assert Elems(later + kept + [c]) == Elems([c] + (later + kept));
  }

  lemma {:induction false} KeptNoDup(accounts: map<nat, Acc>, busy: set<nat>, queue: seq<nat>)
    requires NoDup(queue)
    ensures NoDup(Kept(accounts, busy, queue))
    decreases |queue|
  {
    if queue != [] {
      var c, rest := queue[0], queue[1..];
      assert queue == [c] + rest;
      NoDupSplit([c], rest);
      KeptNoDup(accounts, busy, rest);
      assert c in [c] && c !in Kept(accounts, busy, rest);
      NoDupAppend([c], Kept(accounts, busy, rest));
    }
  }

  /** In ascending order, before all others, and as many as the limit allows. */
  ghost predicate Foremost(first: seq<Note>, notes: map<nat, Note>, limit: nat) {
    var foremost :=
      && |first| <= limit
      && (forall note :: note in first ==>
            note.nullifier in notes && notes[note.nullifier] == note)
      && (forall i, j :: 0 <= i < j < |first| ==> first[i].nullifier < first[j].nullifier)
      && (forall note, n :: note in first && n in notes && notes[n] !in first ==>
            note.nullifier < n)
      && (|first| == limit || forall n :: n in notes ==> notes[n] in first);
    foremost
  }

  /** The notes of a candidate are the first ones: in ascending order, before all others, as many
      as the limit allows, and some if there are any. */
  lemma {:induction false} FirstNotesAreLeast(notes: map<nat, Note>, limit: nat)
    requires forall n :: n in notes ==> notes[n].nullifier == n
    ensures Foremost(FirstNotes(notes, limit), notes, limit)
    ensures FirstNotes(notes, limit) == [] <==> limit == 0 || notes == map[]
    decreases limit
  {
    if limit == 0 {
    } else if notes.Keys == {} {
      assert notes == map[];
    } else {
      var n := Min(notes.Keys);
      FirstNotesAreLeast(notes - {n}, limit - 1);
      hide Foremost;
      OneMore(notes, n, FirstNotes(notes - {n}, limit - 1), limit);
    }
  }

  lemma OneMore(notes: map<nat, Note>, n: nat, rest: seq<Note>, limit: nat)
    requires limit > 0 && n in notes && forall m :: m in notes ==> n <= m
    requires forall m :: m in notes ==> notes[m].nullifier == m
    requires Foremost(rest, notes - {n}, limit - 1)
    ensures Foremost([notes[n]] + rest, notes, limit)
  {
    var first := [notes[n]] + rest;
    assert forall note :: note in first <==> note == notes[n] || note in rest;
    assert forall i :: 0 < i < |first| ==> first[i] in rest;
    Ascending(notes, n, rest, limit);
    forall note, m | note in first && m in notes && notes[m] !in first ensures note.nullifier < m {
      assert m in notes - {n};
    }
    forall m | m in notes && |first| < limit ensures notes[m] in first {
      assert m != n ==> m in notes - {n};
    }
    assert forall note :: note in first ==>
      note.nullifier in notes && notes[note.nullifier] == note;
  }

  lemma Ascending(notes: map<nat, Note>, n: nat, rest: seq<Note>, limit: nat)
    requires limit > 0 && n in notes && forall m :: m in notes ==> n <= m
    requires notes[n].nullifier == n && Foremost(rest, notes - {n}, limit - 1)
    ensures var first := [notes[n]] + rest;
      forall i, j :: 0 <= i < j < |first| ==> first[i].nullifier < first[j].nullifier
  {
    var first := [notes[n]] + rest;
    forall i, j | 0 <= i < j < |first| ensures first[i].nullifier < first[j].nullifier {
      assert first[j] == rest[j - 1] && rest[j - 1] in rest;
      assert i > 0 ==> first[i] == rest[i - 1];
    }
  }

  // ---------------------------------------------------------------------------------------------
  // Fairness

  /** A call that selects another account brings `a` closer to the front, whatever else is in the
      queue, even twice. */
  lemma {:induction false} SearchAdvances(accounts: map<nat, Acc>, busy: set<nat>,
                                          queue: seq<nat>, n: nat, a: nat, position: nat)
    requires position < n <= |queue| && queue[position] == a
    requires Selectable(accounts, busy, a) && Search(accounts, busy, queue, n).Some?
    ensures var found := Search(accounts, busy, queue, n).value;
      && found.chosen.Some?
      && (found.chosen == Some(a) ||
          exists nearer :: 0 <= nearer < position && nearer < |found.queue| &&
                           found.queue[nearer] == a)
    decreases n
  {
    var c, rotated := queue[0], queue[1..] + [queue[0]];
    if position > 0 {
      assert rotated[position - 1] == a && queue[1..][position - 1] == a;
      if c in busy {
        SearchAdvances(accounts, busy, rotated, n - 1, a, position - 1);
      } else if accounts[c].IsEmpty() {
        SearchAdvances(accounts - {c}, busy, queue[1..], n - 1, a, position - 1);
      } else if accounts[c].available == map[] {
        SearchAdvances(accounts, busy, rotated, n - 1, a, position - 1);
      }
    }
  }
}
