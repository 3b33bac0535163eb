/** The cache of submitted challenges: entries by timestamp, and the number of entries for each API
    key and each account, kept up to date one entry at a time. */
module FaucetCaches {
  import opened Prelude
  import opened FaucetChallenges

  /** Accounts and API keys are opaque bytes. */
  datatype Id = Id(bytes: seq<byte>)

  /** An account and the API key it used. */
  datatype Issuer = Issuer(account: Id, key: Id)

  type Entries = map<nat, seq<Issuer>>

  // ---------------------------------------------------------------------------------------------
  // Counting entries

  /** The key of an issuer, or its account. */
  function Side(issuer: Issuer, byKey: bool): Id {
    if byKey then issuer.key else issuer.account
  }

  function TallyOf(issuers: seq<Issuer>, byKey: bool): multiset<Id> {
    if issuers == [] then multiset{} else
      TallyOf(issuers[..|issuers| - 1], byKey) +
      multiset{Side(issuers[|issuers| - 1], byKey)}
  }

  function Tally(entries: Entries, byKey: bool): multiset<Id>
    decreases entries.Keys
  {
    if entries.Keys == {} then multiset{} else
      var t := Min(entries.Keys);
      TallyOf(entries[t], byKey) + Tally(entries - {t}, byKey)
  }

  /** The entries of any one timestamp can be counted apart. */
  lemma {:induction false} TallySplit(entries: Entries, t: nat, byKey: bool)
    requires t in entries
    ensures Tally(entries, byKey) ==
            TallyOf(entries[t], byKey) + Tally(entries - {t}, byKey)
    decreases entries.Keys
  {
    var m := Min(entries.Keys);
    if t != m {
      var rest := entries - {t};
      LeastIsMin(rest.Keys, m);
      assert Tally(rest, byKey) == TallyOf(rest[m], byKey) + Tally(rest - {m}, byKey);
      assert Tally(entries, byKey) == TallyOf(entries[m], byKey) + Tally(entries - {m}, byKey);
      assert rest - {m} == entries - {m} - {t};
      hide Tally, TallyOf;
      TallySplit(entries - {m}, t, byKey);
      Swap(TallyOf(entries[m], byKey), TallyOf(entries[t], byKey), Tally(rest - {m}, byKey));
    }
  }

  lemma Swap(a: multiset<Id>, b: multiset<Id>, c: multiset<Id>)
    ensures a + (b + c) == b + (a + c)
  {
  }

  lemma {:induction false} TallyTail(issuers: seq<Issuer>, byKey: bool)
    requires issuers != []
    ensures TallyOf(issuers, byKey) ==
            multiset{Side(issuers[0], byKey)} + TallyOf(issuers[1..], byKey)
    decreases |issuers|
  {
    if |issuers| > 1 {
      var f, last := issuers[..|issuers| - 1], multiset{Side(issuers[|issuers| - 1], byKey)};
      assert TallyOf(issuers, byKey) == TallyOf(f, byKey) + last;
      assert issuers[1..][..|issuers| - 2] == f[1..];
      assert TallyOf(issuers[1..], byKey) == TallyOf(f[1..], byKey) + last;
      hide TallyOf, Side;
      TallyTail(f, byKey);
    }
  }

  /** The counters are the numbers of entries; there is no counter for nothing. */
  ghost predicate Counts(counters: map<Id, nat>, tally: multiset<Id>) {
    && (forall x :: x in counters <==> x in tally)
    && (forall x :: x in counters ==> counters[x] == tally[x])
  }

  function Incremented(counters: map<Id, nat>, x: Id): map<Id, nat> {
    counters[x := if x in counters then counters[x] + 1 else 1]
  }

  function Decremented(counters: map<Id, nat>, x: Id): map<Id, nat>
    requires x in counters && counters[x] > 0
  {
    if counters[x] == 1 then counters - {x} else counters[x := counters[x] - 1]
  }

  lemma CountOneMore(counters: map<Id, nat>, tally: multiset<Id>, x: Id)
    requires Counts(counters, tally)
    ensures Counts(Incremented(counters, x), tally + multiset{x})
  {
  }

  lemma CountOneLess(counters: map<Id, nat>, x: Id, some: multiset<Id>, rest: multiset<Id>)
    requires Counts(counters, multiset{x} + some + rest)
    ensures x in counters && counters[x] > 0
    ensures Counts(Decremented(counters, x), some + rest)
  {
    assert x in multiset{x} + some + rest;
  }

  // ---------------------------------------------------------------------------------------------
  // What the operations do to the entries

  function IssuersAt(entries: Entries, t: nat): seq<Issuer> {
    if t in entries then entries[t] else []
  }

  function Inserted(entries: Entries, t: nat, issuer: Issuer): Entries {
    if issuer in IssuersAt(entries, t) then entries
    else entries[t := IssuersAt(entries, t) + [issuer]]
  }

  function From(entries: Entries, limit: nat): Entries {
    map t | t in entries && t >= limit :: entries[t]
  }

  /** The oldest timestamp a cleanup keeps. The subtraction wraps around when the clock is not past
      the lifetime. */
  function Limit(now: nat, lifetime: nat): nat
    requires now < U64 && lifetime < U64
  {
    (now - lifetime) % U64
  }

  function Before(entries: Entries, limit: nat): Entries {
    map t | t in entries && t < limit :: entries[t]
  }

  predicate HasAccount(entries: Entries, account: Id) {
    exists t, i :: t in entries && 0 <= i < |entries[t]| && entries[t][i].account == account
  }

  lemma {:induction false} TallyInsert(entries: Entries, t: nat, issuer: Issuer, byKey: bool)
    requires issuer !in IssuersAt(entries, t)
    ensures Tally(Inserted(entries, t, issuer), byKey) ==
            Tally(entries, byKey) + multiset{Side(issuer, byKey)}
  {
    var before, entries' := IssuersAt(entries, t), Inserted(entries, t, issuer);
    TallySplit(entries', t, byKey);
    assert entries'[t] == before + [issuer] && entries' - {t} == entries - {t};
    TallyPush(before, issuer, byKey);
    TallyAt(entries, t, byKey);
    hide Tally, TallyOf, Side, Inserted, IssuersAt;
    LastOut(TallyOf(before, byKey), multiset{Side(issuer, byKey)}, Tally(entries - {t}, byKey));
  }

  lemma {:induction false} TallyPush(issuers: seq<Issuer>, issuer: Issuer, byKey: bool)
    ensures TallyOf(issuers + [issuer], byKey) ==
            TallyOf(issuers, byKey) + multiset{Side(issuer, byKey)}
  {
    assert (issuers + [issuer])[..|issuers|] == issuers;
  }

  lemma {:induction false} TallyAt(entries: Entries, t: nat, byKey: bool)
    ensures Tally(entries, byKey) ==
            TallyOf(IssuersAt(entries, t), byKey) + Tally(entries - {t}, byKey)
  {
    if t in entries {
      TallySplit(entries, t, byKey);
    } else {
      assert entries - {t} == entries;
      hide Tally;
    }
  }

  lemma LastOut(a: multiset<Id>, b: multiset<Id>, c: multiset<Id>)
    ensures a + b + c == a + c + b
  {
  }

  lemma {:induction false} TallyHas(entries: Entries, account: Id)
    ensures HasAccount(entries, account) <==> account in Tally(entries, false)
    decreases entries.Keys
  {
    if entries.Keys != {} {
      var m := Min(entries.Keys);
      TallyHas(entries - {m}, account);
      TallyOfHas(entries[m], account);
      if HasAccount(entries, account) {
        var t, i :| t in entries && 0 <= i < |entries[t]| && entries[t][i].account == account;
        if t != m {
          assert (entries - {m})[t][i].account == account;
        }
      }
      if account in TallyOf(entries[m], false) {
        var i :| 0 <= i < |entries[m]| && entries[m][i].account == account;
        assert HasAccount(entries, account);
      }
      if HasAccount(entries - {m}, account) {
        var t, i :| t in entries - {m} && 0 <= i < |entries[t]| && entries[t][i].account == account;
        assert HasAccount(entries, account);
      }
    }
  }

  lemma {:induction false} TallyOfHas(issuers: seq<Issuer>, account: Id)
    ensures account in TallyOf(issuers, false) <==>
            exists i :: 0 <= i < |issuers| && issuers[i].account == account
    decreases |issuers|
  {
    if issuers != [] {
      TallyOfHas(issuers[..|issuers| - 1], account);
      if account in TallyOf(issuers, false) && issuers[|issuers| - 1].account != account {
        var i :| 0 <= i < |issuers| - 1 && issuers[..|issuers| - 1][i].account == account;
        assert issuers[i].account == account;
      }
    }
  }

  /** The places of the entries of one timestamp that used an API key. */
  function PlacesOf(issuers: seq<Issuer>, key: Id): set<nat> {
    set i: nat | i < |issuers| && issuers[i].key == key
  }

  /** The places of all entries that used it. */
  ghost function UsesOf(entries: Entries, key: Id): set<(nat, nat)> {
    set t, i: nat | t in entries && i in PlacesOf(entries[t], key) :: (t, i)
  }

  function Placed(t: nat, places: set<nat>): set<(nat, nat)> {
    set i | i in places :: (t, i)
  }

  lemma {:induction false} TallyOfCounts(issuers: seq<Issuer>, key: Id)
    ensures TallyOf(issuers, true)[key] == |PlacesOf(issuers, key)|
    decreases |issuers|
  {
    if issuers != [] {
      var last := |issuers| - 1;
      TallyOfCounts(issuers[..last], key);
      assert PlacesOf(issuers, key) ==
        PlacesOf(issuers[..last], key) + if issuers[last].key == key then {last} else {};
    }
  }

  lemma {:induction false} PlacedCount(t: nat, places: set<nat>)
    ensures |Placed(t, places)| == |places|
    decreases places
  {
    if places != {} {
      var x :| x in places;
      PlacedCount(t, places - {x});
      assert Placed(t, places) == Placed(t, places - {x}) + {(t, x)};
    } else {
      assert Placed(t, places) == {};
    }
  }

  lemma UsesSplit(entries: Entries, t: nat, key: Id)
    requires t in entries
    ensures UsesOf(entries, key) ==
            Placed(t, PlacesOf(entries[t], key)) + UsesOf(entries - {t}, key)
    ensures Placed(t, PlacesOf(entries[t], key)) !! UsesOf(entries - {t}, key)
  {
    hide PlacesOf;
    var rest := entries - {t};
    forall u, i | (u, i) in UsesOf(entries, key)
      ensures (u, i) in Placed(t, PlacesOf(entries[t], key)) + UsesOf(rest, key)
    {
      if u != t {
        assert u in rest && rest[u] == entries[u];
      }
    }
    forall u, i | (u, i) in UsesOf(rest, key) ensures (u, i) in UsesOf(entries, key) {
      assert rest[u] == entries[u];
    }
  }

  /** The count of a key is the number of its entries. */
  lemma {:induction false} TallyCounts(entries: Entries, key: Id)
    ensures Tally(entries, true)[key] == |UsesOf(entries, key)|
    decreases entries.Keys
  {
    if entries.Keys == {} {
      assert UsesOf(entries, key) == {};
    } else {
      var m := Min(entries.Keys);
      assert Tally(entries, true) == TallyOf(entries[m], true) + Tally(entries - {m}, true);
      hide Tally, TallyOf, UsesOf, PlacesOf, Placed;
      TallyCounts(entries - {m}, key);
      TallyOfCounts(entries[m], key);
      PlacedCount(m, PlacesOf(entries[m], key));
      UsesSplit(entries, m, key);
    }
  }

  /** Splitting the entries at a timestamp splits the counts. */
  lemma {:induction false} SplitTally(entries: Entries, limit: nat, byKey: bool)
    ensures Tally(entries, byKey) ==
            Tally(Before(entries, limit), byKey) + Tally(From(entries, limit), byKey)
    decreases entries.Keys
  {
    if entries.Keys == {} {
      assert Before(entries, limit).Keys == {} && From(entries, limit).Keys == {};
    } else {
      var m := Min(entries.Keys);
      SplitTally(entries - {m}, limit, byKey);
      SplitOne(entries, limit, m);
      TallySplit(entries, m, byKey);
      if m < limit {
        TallySplit(Before(entries, limit), m, byKey);
      } else {
        TallySplit(From(entries, limit), m, byKey);
      }
      hide Tally, TallyOf, Before, From;
    }
  }

  lemma Regroup(a: multiset<Id>, b: multiset<Id>, c: multiset<Id>)
    ensures a + b + c == a + (b + c)
  {
  }

  lemma {:induction false} NothingLeft(entries: Entries, byKey: bool)
    requires entries.Keys == {}
    ensures Tally(entries, byKey) == multiset{}
  {
  }

  lemma SplitOne(entries: Entries, limit: nat, m: nat)
    requires m in entries
    ensures m < limit ==>
      && m in Before(entries, limit) && Before(entries, limit)[m] == entries[m]
      && Before(entries, limit) - {m} == Before(entries - {m}, limit)
      && From(entries, limit) == From(entries - {m}, limit)
    ensures m >= limit ==>
      && m in From(entries, limit) && From(entries, limit)[m] == entries[m]
      && From(entries, limit) - {m} == From(entries - {m}, limit)
      && Before(entries, limit) == Before(entries - {m}, limit)
  {
  }

  // ---------------------------------------------------------------------------------------------
  // The cache, updated in place

  class ChallengeCache {
    var challenges: Entries
    var challengesPerKey: map<Id, nat>
    var accountIds: map<Id, nat>

    /** Each counter equals the number of cached entries it stands for and is never zero. */
    ghost predicate Valid()
      reads this
    {
      && Counts(challengesPerKey, Tally(challenges, true))
      && Counts(accountIds, Tally(challenges, false))
    }

    constructor ()
      ensures Valid() && challenges == map[]
    {
      challenges, challengesPerKey, accountIds := map[], map[], map[];
    }

    /** Returns whether the challenge was new. */
    method InsertChallenge(timestamp: nat, issuer: Issuer) returns (isNew: bool)
      requires Valid()
      modifies this
      ensures Valid()
      ensures challenges == Inserted(old(challenges), timestamp, issuer)
      ensures isNew <==> issuer !in IssuersAt(old(challenges), timestamp)
    {
      var issuers := if timestamp in challenges then challenges[timestamp] else [];
      if issuer in issuers {
        return false;
      }
      TallyInsert(challenges, timestamp, issuer, true);
      TallyInsert(challenges, timestamp, issuer, false);
      CountOneMore(challengesPerKey, Tally(challenges, true), issuer.key);
      CountOneMore(accountIds, Tally(challenges, false), issuer.account);
      challenges := challenges[timestamp := issuers + [issuer]];
      challengesPerKey := Incremented(challengesPerKey, issuer.key);
      accountIds := Incremented(accountIds, issuer.account);
      isNew := true;
    }

    method HasChallengeForAccount(account: Id) returns (has: bool)
      requires Valid()
      ensures has <==> HasAccount(challenges, account)
    {
      TallyHas(challenges, account);
      has := account in accountIds;
    }

    method NumChallengesForApiKey(key: Id) returns (n: nat)
      requires Valid()
      ensures n == |UsesOf(challenges, key)|
    {
      TallyCounts(challenges, key);
      n := if key in challengesPerKey then challengesPerKey[key] else 0;
    }

    /** Removes the entries older than the lifetime. */
    method CleanupExpiredChallenges(now: nat, lifetime: nat)
      requires Valid() && now < U64 && lifetime < U64
      modifies this
      ensures Valid()
      ensures challenges == From(old(challenges), Limit(now, lifetime))
    {
      hide Counts, Tally, From, Before;
      var limit := Limit(now, lifetime);
      SplitTally(challenges, limit, true);
      SplitTally(challenges, limit, false);
      var expired := Before(challenges, limit);
      challenges := From(challenges, limit);
      while expired.Keys != {}
        invariant Counts(challengesPerKey, Tally(expired, true) + Tally(challenges, true))
        invariant Counts(accountIds, Tally(expired, false) + Tally(challenges, false))
        modifies `challengesPerKey, `accountIds
        decreases expired.Keys
      {
        var t := Min(expired.Keys);
        ghost var rest := expired - {t};
        TallySplit(expired, t, true);
        TallySplit(expired, t, false);
        Regroup(TallyOf(expired[t], true), Tally(rest, true), Tally(challenges, true));
        Regroup(TallyOf(expired[t], false), Tally(rest, false), Tally(challenges, false));
        DropIssuers(expired[t], Tally(rest, true) + Tally(challenges, true),
                    Tally(rest, false) + Tally(challenges, false));
        expired := expired - {t};
      }
      NothingLeft(expired, true);
      NothingLeft(expired, false);
      assert multiset{} + Tally(challenges, true) == Tally(challenges, true);
      assert multiset{} + Tally(challenges, false) == Tally(challenges, false);
    }

    /** Takes the given entries out of the counters. Neither lookup fails. */
    method DropIssuers(issuers: seq<Issuer>, ghost keys: multiset<Id>,
                       ghost accounts: multiset<Id>)
      requires Counts(challengesPerKey, TallyOf(issuers, true) + keys)
      requires Counts(accountIds, TallyOf(issuers, false) + accounts)
      modifies `challengesPerKey, `accountIds
      ensures Counts(challengesPerKey, keys) && Counts(accountIds, accounts)
    {
      for i := 0 to |issuers|
        invariant Counts(challengesPerKey, TallyOf(issuers[i..], true) + keys)
        invariant Counts(accountIds, TallyOf(issuers[i..], false) + accounts)
      {
        TallyTail(issuers[i..], true);
        TallyTail(issuers[i..], false);
        assert issuers[i..][1..] == issuers[i + 1..];
        CountOneLess(challengesPerKey, issuers[i].key, TallyOf(issuers[i + 1..], true), keys);
        CountOneLess(accountIds, issuers[i].account, TallyOf(issuers[i + 1..], false), accounts);
        challengesPerKey := Decremented(challengesPerKey, issuers[i].key);
        accountIds := Decremented(accountIds, issuers[i].account);
      }
    }
  }
}
