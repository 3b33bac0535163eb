/** Submitting challenges: difficulty, replay protection and rate limiting over whole runs. */
module FaucetPow {
  import opened Prelude
  import opened FaucetChallenges
  import opened FaucetCaches

  /** `hash` gives the first eight bytes of the hash of an encoded challenge and a nonce. */
  datatype Config = Config(scheme: Scheme, secret: seq<byte>, hash: (string, nat) -> nat,
                           lifetime: nat, growth: nat, baseline: nat)

  datatype MintError =
    | Undecodable(error: DecodeError) | ExpiredServerTimestamp(timestamp: nat, now: nat)
    | InvalidPoW | RateLimited | ChallengeAlreadyUsed

  function IssuerOf(c: Challenge): Issuer {
    Issuer(Id(c.account), Id(c.key))
  }

  // ---------------------------------------------------------------------------------------------
  // Difficulty

  /** The shifts are by less than the width of the machine word. */
  predicate Shifts(growth: nat, baseline: nat) {
    0 < growth < 64 && baseline < 64
  }

  /** The target for a key with `n` cached challenges. The shift drops the bits that leave the
      machine word. */
  function TargetFor(n: nat, growth: nat, baseline: nat): nat
    requires Shifts(growth, baseline)
  {
    MaxTarget(baseline) / Difficulty(n, growth)
  }

  function MaxTarget(baseline: nat): nat {
    (U64 - 1) / Power(2, baseline)
  }

  function Difficulty(n: nat, growth: nat): (d: nat)
    ensures d > 0
  {
    var shifted := n * Power(2, growth) % U64;
    if shifted > 1 then shifted else 1
  }

  /** The target is the largest word divided by `2^baseline` and by what is left in the word of
      `n * 2^growth`, or by one if nothing is; the two roundings come to one. */
  lemma {:induction false} TargetIs(n: nat, growth: nat, baseline: nat, d: nat)
    requires Shifts(growth, baseline) && d > 0
    requires n * Power(2, growth) % U64 == d || (n * Power(2, growth) % U64 == 0 && d == 1)
    ensures var t, divisor := TargetFor(n, growth, baseline), Power(2, baseline) * d;
      divisor * t <= U64 - 1 < divisor * (t + 1)
  {
    var p := Power(2, baseline);
    assert p > 0 && Difficulty(n, growth) == d;
    hide Power;
    RoundedOnce(U64 - 1, p, d);
  }

  lemma RoundedOnce(x: nat, p: nat, d: nat)
    requires p > 0 && d > 0
    ensures p * d * (x / p / d) <= x < p * d * (x / p / d + 1)
  {
    var q := x / p;
    var t := q / d;
    Division(x, p);
    Division(q, d);
    Rounding(x, p, d, q, t);
  }

  lemma Division(x: nat, p: nat)
    requires p > 0
    ensures p * (x / p) <= x < p * (x / p) + p
  {
  }

  lemma Rounding(x: nat, p: nat, d: nat, q: nat, t: nat)
    requires p * q <= x < p * q + p && d * t <= q < d * t + d
    ensures p * d * t <= x < p * d * (t + 1)
  {
    TimesMore(p, d * t, q);
    TimesMore(p, q + 1, d * t + d);
    Reorder(p, d, t);
  }

  lemma Reorder(p: nat, d: nat, t: nat)
    ensures d * t * p == p * d * t && (d * t + d) * p == p * d * (t + 1)
  {
  }

  /** As long as the shift does not overflow, more cached challenges never make the next one
      easier. */
  lemma {:induction false} TargetFalls(n: nat, m: nat, growth: nat, baseline: nat)
    requires Shifts(growth, baseline) && n <= m && m * Power(2, growth) < U64
    ensures TargetFor(m, growth, baseline) <= TargetFor(n, growth, baseline)
  {
    hide Power, MaxTarget;
    var p := Power(2, growth);
    assert n * p <= m * p;
    assert n * p % U64 == n * p && m * p % U64 == m * p;
    DivideByMore(MaxTarget(baseline), Difficulty(n, growth), Difficulty(m, growth));
  }

  lemma DivideByMore(x: nat, d: nat, e: nat)
    requires 0 < d <= e
    ensures x / e <= x / d
  {
    var q, r := x / e, x / d;
    TimesMore(q, d, e);
    assert e * q + x % e == x && d * r + x % d == x;
    NegativeFactor(q - r - 1, d) by {
      assert (q - r - 1) * d == q * d - r * d - d;
    }
  }

  lemma TimesMore(q: nat, d: nat, e: nat)
    requires d <= e
    ensures q * d <= q * e
  {
  }

  lemma NegativeFactor(a: int, d: nat)
    requires a * d < 0
    ensures a < 0
  {
  }

  lemma {:induction false} PowersToWord(growth: nat)
    requires 0 < growth < 64
    ensures Power(2, growth) * Power(2, 64 - growth) == U64
    ensures Power(2, growth) >= 2 && Power(2, 64 - growth) >= 2
  {
    PowerTwo63();
    PowerAdds(2, growth, 64 - growth);
    assert Power(2, 64) == 2 * Power(2, 63);
    assert Power(2, growth) == 2 * Power(2, growth - 1);
    assert Power(2, 64 - growth) == 2 * Power(2, 63 - growth);
  }

  lemma {:induction false} SomeTarget(baseline: nat)
    requires baseline < 64
    ensures MaxTarget(baseline) >= 1
  {
    if baseline == 0 {
      assert Power(2, 0) == 1;
    } else {
      PowersToWord(baseline);
      var p, q := Power(2, baseline), Power(2, 64 - baseline);
      TimesMore(p, 2, q);
      hide Power;
      assert (U64 - 1) / p >= 1;
    }
  }

  lemma DivideStrictly(x: nat, d: nat)
    requires x >= 1 && d >= 2
    ensures x / d < x
  {
    DivideByMore(x, 2, d);
  }

  /** The first number of challenges whose shift overflows is as easy as none at all, although with
      one challenge less it is harder. */
  lemma {:induction false} TargetWraps(growth: nat, baseline: nat)
    requires Shifts(growth, baseline)
    ensures var k := Power(2, 64 - growth);
      && k * Power(2, growth) == U64 && k > 0
      && TargetFor(k, growth, baseline) == TargetFor(0, growth, baseline)
      && TargetFor(k - 1, growth, baseline) < TargetFor(k, growth, baseline)
  {
    PowersToWord(growth);
    SomeTarget(baseline);
    var p, k := Power(2, growth), Power(2, 64 - growth);
    hide Power, MaxTarget;
    TimesMore(p, 2, k);
    assert (k - 1) * p == U64 - p;
    DivideStrictly(MaxTarget(baseline), Difficulty(k - 1, growth));
  }

  /** No number of challenges up to `m` makes the next one easier than a smaller number does. */
  ghost predicate NeverEasier(m: nat, growth: nat, baseline: nat)
    requires Shifts(growth, baseline)
  {
    forall n: nat, n': nat :: n <= n' <= m ==>
      TargetFor(n', growth, baseline) <= TargetFor(n, growth, baseline)
  }

  /** Up to `m` challenges more of them never make the next one easier if and only if the shift of
      `m` does not overflow. */
  lemma {:induction false} NeverEasierExactly(m: nat, growth: nat, baseline: nat)
    requires Shifts(growth, baseline)
    ensures NeverEasier(m, growth, baseline) <==> m * Power(2, growth) < U64
  {
    if m * Power(2, growth) < U64 {
      hide TargetFor, Power;
      forall n: nat, n': nat | n <= n' <= m
        ensures TargetFor(n', growth, baseline) <= TargetFor(n, growth, baseline)
      {
        TimesMore(Power(2, growth), n', m);
        TargetFalls(n, n', growth, baseline);
      }
    } else {
      TargetWraps(growth, baseline);
      hide TargetFor, Power;
      var k := Power(2, 64 - growth);
      FactorBound(k, m, Power(2, growth));
      assert k - 1 <= k <= m;
    }
  }

  lemma FactorBound(k: nat, m: nat, p: nat)
    requires k * p <= m * p && p > 0
    ensures k <= m
  {
    NegativeFactor(k - m - 1, p) by {
      assert (k - m - 1) * p == k * p - m * p - p;
    }
  }

  lemma PowerTwo63()
    ensures Power(2, 63) == 0x8000_0000_0000_0000
  {
    assert Power(2, 7) == 128 && Power(2, 8) == 256 by {
      assert Power(2, 3) == 8;
      assert Power(2, 6) == 2 * (2 * (2 * Power(2, 3)));
    }
    hide Power;
    Doubling(7, 128);
    Doubling(15, 0x8000);
    Doubling(31, 0x8000_0000);
  }

  /** From `2^k` to `2^(2k + 1)`. */
  lemma {:induction false} Doubling(k: nat, p: nat)
    requires Power(2, k) == p
    ensures Power(2, 2 * k + 1) == 2 * p * p
  {
    PowerAdds(2, k, k);
    assert Power(2, 2 * k + 1) == 2 * Power(2, k + k);
  }

  lemma {:induction false} PowerAdds(base: nat, a: nat, b: nat)
    ensures Power(base, a + b) == Power(base, a) * Power(base, b)
    decreases a
  {
    if a > 0 {
      PowerAdds(base, a - 1, b);
      assert Power(base, a + b) == base * Power(base, a - 1 + b);
    }
  }

  // ---------------------------------------------------------------------------------------------
  // Submission

  /** The checks that do not look at the cache; `None` is the panic of `Decode`. */
  function Checked(cfg: Config, account: seq<byte>, key: seq<byte>, text: string, nonce: nat,
                   now: nat): Option<Result<Challenge, MintError>>
  {
    var decoded := Decode(cfg.scheme, cfg.secret, text);
    if decoded.None? then None
    else if decoded.value.Err? then Some(Err(Undecodable(decoded.value.error)))
    else
      var c := decoded.value.value;
      Some(if IsExpired(c.timestamp, now, cfg.lifetime) then
             Err(ExpiredServerTimestamp(c.timestamp, now))
           else if cfg.hash(Encode(c), nonce) >= c.target || account != c.account || key != c.key
           then Err(InvalidPoW)
           else Ok(c))
  }

  /** A checked challenge meets the cache. */
  function Admit(entries: Entries, c: Challenge): Outcome<MintError> {
    if HasAccount(entries, Id(c.account)) then Fail(RateLimited)
    else if IssuerOf(c) in IssuersAt(entries, c.timestamp) then Fail(ChallengeAlreadyUsed)
    else Pass
  }

  class PoW {
    const cfg: Config
    const cache: ChallengeCache

    constructor (cfg: Config)
      ensures this.cfg == cfg && fresh(cache) && cache.Valid() && cache.challenges == map[]
    {
      this.cfg := cfg;
      cache := new ChallengeCache();
    }

    method ChallengeTarget(key: seq<byte>) returns (target: nat)
      requires cache.Valid() && Shifts(cfg.growth, cfg.baseline)
      ensures target ==
              TargetFor(|UsesOf(cache.challenges, Id(key))|, cfg.growth, cfg.baseline)
    {
      hide TargetFor;
      var n := cache.NumChallengesForApiKey(Id(key));
      target := TargetFor(n, cfg.growth, cfg.baseline);
    }

    method SubmitChallenge(account: seq<byte>, key: seq<byte>, text: string, nonce: nat, now: nat)
        returns (r: Outcome<MintError>)
      requires cache.Valid() && Checked(cfg, account, key, text, nonce, now).Some?
      modifies cache
      ensures cache.Valid()
      ensures var checked := Checked(cfg, account, key, text, nonce, now).value;
        if checked.Err? then r == Fail(checked.error) && cache.challenges == old(cache.challenges)
        else
          var c := checked.value;
          && r == Admit(old(cache.challenges), c)
          && cache.challenges ==
             if r.Pass? then Inserted(old(cache.challenges), c.timestamp, IssuerOf(c))
             else old(cache.challenges)
    {
      var decoded := Decode(cfg.scheme, cfg.secret, text).value;
      if decoded.Err? {
        return Fail(Undecodable(decoded.error));
      }
      var c := decoded.value;
      if IsExpired(c.timestamp, now, cfg.lifetime) {
        return Fail(ExpiredServerTimestamp(c.timestamp, now));
      }
      if cfg.hash(Encode(c), nonce) >= c.target || account != c.account || key != c.key {
        return Fail(InvalidPoW);
      }
      var limited := cache.HasChallengeForAccount(Id(account));
      if limited {
        return Fail(RateLimited);
      }
      var isNew := cache.InsertChallenge(c.timestamp, IssuerOf(c));
      r := if isNew then Pass else Fail(ChallengeAlreadyUsed);
    }
  }

  /** What a cleanup forgets would not be accepted any more. */
  predicate DropsExpired(entries: Entries, now: nat, lifetime: nat)
    requires now < U64 && lifetime < U64
  {
    forall t :: t in entries && t !in From(entries, Limit(now, lifetime)) ==>
      IsExpired(t, now, lifetime)
  }

  /** That holds exactly when the clock is past the lifetime, or nothing is cached up to now: below
      the lifetime the limit wraps, and every entry up to now is forgotten although it is valid. */
  lemma CleanupIsExact(entries: Entries, now: nat, lifetime: nat)
    requires now < U64 && lifetime < U64
    ensures DropsExpired(entries, now, lifetime) <==>
            now >= lifetime || forall t :: t in entries ==> t > now
  {
    var limit := Limit(now, lifetime);
    assert limit == if now >= lifetime then now - lifetime else U64 + now - lifetime;
    if now < lifetime && exists t :: t in entries && t <= now {
      var t :| t in entries && t <= now;
      assert t !in From(entries, limit) && !IsExpired(t, now, lifetime);
    }
  }

  // ---------------------------------------------------------------------------------------------
  // Runs

  /** What was accepted, when, and from whom. */
  datatype Acceptance = Acceptance(
    challenge: Challenge, time: nat, account: seq<byte>, key: seq<byte>, text: string, nonce: nat)

  /** `limit` is the newest bound of a timely cleanup; `accepted` lists what was accepted, in
      order. */
  datatype World = World(entries: Entries, clock: nat, limit: nat, accepted: seq<Acceptance>)

  datatype Action =
    | Submit(account: seq<byte>, key: seq<byte>, text: string, nonce: nat, now: nat)
    | Cleanup(now: nat)

  /** The clock never goes back. */
  predicate Allowed(cfg: Config, w: World, a: Action) {
    cfg.lifetime < U64 && w.clock <= a.now < U64 &&
    match a
    case Submit(account, key, text, nonce, now) =>
      Checked(cfg, account, key, text, nonce, now).Some?
    case Cleanup(now) => true
  }

  /** The clock is past the lifetime when a cleanup runs. */
  predicate Timely(cfg: Config, a: Action) {
    a.Cleanup? ==> a.now >= cfg.lifetime
  }

  function Next(cfg: Config, w: World, a: Action): World
    requires Allowed(cfg, w, a)
  {
    match a
    case Submit(account, key, text, nonce, now) =>
      var checked := Checked(cfg, account, key, text, nonce, now).value;
      if checked.Err? || Admit(w.entries, checked.value).Fail? then w.(clock := now)
      else
        var c := checked.value;
        World(Inserted(w.entries, c.timestamp, IssuerOf(c)), now, w.limit,
              w.accepted + [Acceptance(c, now, account, key, text, nonce)])
    case Cleanup(now) =>
      var limit := Limit(now, cfg.lifetime);
      World(From(w.entries, limit), now,
            if now >= cfg.lifetime then Bound(w.limit, limit) else w.limit, w.accepted)
  }

  function Bound(a: nat, b: nat): nat {
    if a < b then b else a
  }

  predicate Runs(cfg: Config, w: World, actions: seq<Action>)
    decreases |actions|
  {
    actions == [] ||
    (Allowed(cfg, w, actions[0]) && Runs(cfg, Next(cfg, w, actions[0]), actions[1..]))
  }

  function Final(cfg: Config, w: World, actions: seq<Action>): World
    requires Runs(cfg, w, actions)
    decreases |actions|
  {
    if actions == [] then w else Final(cfg, Next(cfg, w, actions[0]), actions[1..])
  }

  const START := World(map[], 0, 0, [])

  /** An accepted challenge is cached exactly while no cleanup has gone past its timestamp, and
      nothing else is cached. */
  ghost predicate CacheIsHistory(w: World) {
    forall t: nat, issuer: Issuer :: issuer in IssuersAt(w.entries, t) <==>
      t >= w.limit && exists i :: 0 <= i < |w.accepted| && Stands(w.accepted[i], t, issuer)
  }

  predicate Stands(a: Acceptance, t: nat, issuer: Issuer) {
    a.challenge.timestamp == t && IssuerOf(a.challenge) == issuer
  }

  /** A second acceptance for an account comes more than a lifetime after the timestamp of the
      first challenge. */
  ghost predicate Spaced(cfg: Config, accepted: seq<Acceptance>) {
    forall i, j ::
      (0 <= i < j < |accepted| &&
       accepted[i].challenge.account == accepted[j].challenge.account) ==>
      accepted[j].time > accepted[i].challenge.timestamp + cfg.lifetime
  }

  ghost predicate InTime(cfg: Config, accepted: seq<Acceptance>) {
    forall i :: 0 <= i < |accepted| ==>
      !IsExpired(accepted[i].challenge.timestamp, accepted[i].time, cfg.lifetime)
  }

  ghost predicate Inv(cfg: Config, w: World) {
    var inv :=
      && CacheIsHistory(w) && Spaced(cfg, w.accepted) && InTime(cfg, w.accepted)
      && (w.limit == 0 || w.limit + cfg.lifetime <= w.clock);
    inv
  }

  lemma StartInv(cfg: Config)
    ensures Inv(cfg, START)
  {
  }

  lemma CleanupInv(cfg: Config, w: World, now: nat)
    requires Inv(cfg, w) && Allowed(cfg, w, Cleanup(now)) && now >= cfg.lifetime
    ensures Inv(cfg, Next(cfg, w, Cleanup(now)))
  {
    var w' := Next(cfg, w, Cleanup(now));
    forall t: nat, issuer: Issuer
      ensures issuer in IssuersAt(w'.entries, t) <==>
        t >= now - cfg.lifetime && issuer in IssuersAt(w.entries, t)
    {
    }
    hide IssuersAt, Stands, Spaced, InTime;
  }

  lemma AcceptInv(cfg: Config, w: World, a: Acceptance)
    requires Inv(cfg, w) && w.clock <= a.time && Admit(w.entries, a.challenge).Pass?
    requires !IsExpired(a.challenge.timestamp, a.time, cfg.lifetime)
    ensures Inv(cfg, World(Inserted(w.entries, a.challenge.timestamp, IssuerOf(a.challenge)),
                           a.time, w.limit, w.accepted + [a]))
  {
    var c, now := a.challenge, a.time;
    var w' := World(Inserted(w.entries, c.timestamp, IssuerOf(c)), now, w.limit,
                    w.accepted + [a]);
    forall i | 0 <= i < |w.accepted| && w.accepted[i].challenge.account == c.account
      ensures now > w.accepted[i].challenge.timestamp + cfg.lifetime
    {
      NotCached(w, c, i);
    }
    AcceptedHistory(w, w', a);
  }

  /** What was accepted for the account before is no longer cached. */
  lemma NotCached(w: World, c: Challenge, i: nat)
    requires CacheIsHistory(w) && !HasAccount(w.entries, Id(c.account))
    requires i < |w.accepted| && w.accepted[i].challenge.account == c.account
    ensures w.accepted[i].challenge.timestamp < w.limit
  {
    var before := w.accepted[i].challenge;
    assert Stands(w.accepted[i], before.timestamp, IssuerOf(before));
    CachedHasAccount(w.entries, before.timestamp, IssuerOf(before));
  }

  lemma CachedHasAccount(entries: Entries, t: nat, issuer: Issuer)
    ensures issuer in IssuersAt(entries, t) ==> HasAccount(entries, issuer.account)
  {
    if issuer in IssuersAt(entries, t) {
      var k :| 0 <= k < |entries[t]| && entries[t][k] == issuer;
      assert entries[t][k].account == issuer.account;
    }
  }

  lemma AcceptedHistory(w: World, w': World, a: Acceptance)
    requires CacheIsHistory(w) && a.challenge.timestamp >= w.limit
    requires var c := a.challenge;
      && IssuerOf(c) !in IssuersAt(w.entries, c.timestamp)
      && w' == World(Inserted(w.entries, c.timestamp, IssuerOf(c)), a.time, w.limit,
                     w.accepted + [a])
    ensures CacheIsHistory(w')
  {
    var c := a.challenge;
    forall t: nat, issuer: Issuer
      ensures issuer in IssuersAt(w'.entries, t) <==>
        issuer in IssuersAt(w.entries, t) || (t == c.timestamp && issuer == IssuerOf(c))
      ensures (exists i :: 0 <= i < |w'.accepted| && Stands(w'.accepted[i], t, issuer)) <==>
        (exists i :: 0 <= i < |w.accepted| && Stands(w.accepted[i], t, issuer)) ||
        (t == c.timestamp && issuer == IssuerOf(c))
    {
      if i :| 0 <= i < |w.accepted| && Stands(w.accepted[i], t, issuer) {
        assert Stands(w'.accepted[i], t, issuer);
      }
      assert w'.accepted[|w.accepted|] == a;
      if t == c.timestamp && issuer == IssuerOf(c) {
        assert Stands(w'.accepted[|w.accepted|], t, issuer);
      }
    }
  }

  lemma StepInv(cfg: Config, w: World, a: Action)
    requires Inv(cfg, w) && Allowed(cfg, w, a) && Timely(cfg, a)
    ensures Inv(cfg, Next(cfg, w, a))
  {
    match a
    case Submit(account, key, text, nonce, now) =>
      var checked := Checked(cfg, account, key, text, nonce, now).value;
      if checked.Ok? && Admit(w.entries, checked.value).Pass? {
        AcceptInv(cfg, w, Acceptance(checked.value, now, account, key, text, nonce));
      }
    case Cleanup(now) => CleanupInv(cfg, w, now);
  }

  lemma {:induction false} RunInv(cfg: Config, w: World, actions: seq<Action>)
    requires Inv(cfg, w) && Runs(cfg, w, actions)
    requires forall a :: a in actions ==> Timely(cfg, a)
    ensures Inv(cfg, Final(cfg, w, actions))
    decreases |actions|
  {
    hide Inv;
    if actions != [] {
      StepInv(cfg, w, actions[0]);
      RunInv(cfg, Next(cfg, w, actions[0]), actions[1..]);
    }
  }

  /** Over every run with timely cleanups: two acceptances for one account are more than a lifetime
      apart, counted from the first challenge's timestamp, and no challenge is accepted twice. */
  lemma {:induction false} NoReplay(cfg: Config, actions: seq<Action>)
    requires Runs(cfg, START, actions) && forall a :: a in actions ==> Timely(cfg, a)
    ensures var accepted := Final(cfg, START, actions).accepted;
      && Spaced(cfg, accepted)
      && forall i, j :: 0 <= i < j < |accepted| ==> Differ(accepted[i], accepted[j])
  {
    StartInv(cfg);
    RunInv(cfg, START, actions);
    InvDiffers(cfg, Final(cfg, START, actions));
  }

  /** Not the same timestamp, account and key. */
  predicate Differ(a: Acceptance, b: Acceptance) {
    a.challenge.timestamp != b.challenge.timestamp || IssuerOf(a.challenge) != IssuerOf(b.challenge)
  }

  /** A valid challenge is turned away exactly while an earlier acceptance for its account is still
      within the bound of the newest cleanup, and then always as rate limited. */
  lemma {:induction false} LimitedExactly(cfg: Config, actions: seq<Action>, c: Challenge)
    requires Runs(cfg, START, actions) && forall a :: a in actions ==> Timely(cfg, a)
    ensures var w := Final(cfg, START, actions);
      && (Admit(w.entries, c) == Pass || Admit(w.entries, c) == Fail(RateLimited))
      && (Admit(w.entries, c).Fail? <==>
          exists i :: 0 <= i < |w.accepted| &&
                      w.accepted[i].challenge.account == c.account &&
                      w.accepted[i].challenge.timestamp >= w.limit)
  {
    StartInv(cfg);
    RunInv(cfg, START, actions);
    CachedAccounts(Final(cfg, START, actions), c);
  }

  lemma CachedAccounts(w: World, c: Challenge)
    requires CacheIsHistory(w)
    ensures Admit(w.entries, c) == Pass || Admit(w.entries, c) == Fail(RateLimited)
    ensures Admit(w.entries, c).Fail? <==>
      exists i :: 0 <= i < |w.accepted| && w.accepted[i].challenge.account == c.account &&
                  w.accepted[i].challenge.timestamp >= w.limit
  {
    if HasAccount(w.entries, Id(c.account)) {
      var t, k :| t in w.entries && 0 <= k < |w.entries[t]| &&
                  w.entries[t][k].account == Id(c.account);
      assert w.entries[t][k] in IssuersAt(w.entries, t);
      var i :| 0 <= i < |w.accepted| && Stands(w.accepted[i], t, w.entries[t][k]);
    } else {
      forall i | 0 <= i < |w.accepted| && w.accepted[i].challenge.account == c.account
        ensures w.accepted[i].challenge.timestamp < w.limit
      {
        NotCached(w, c, i);
      }
      CachedHasAccount(w.entries, c.timestamp, IssuerOf(c));
    }
  }

  // ---------------------------------------------------------------------------------------------
  // Who is accepted

  /** The challenge is one that the faucet signed itself, for a well-formed account. */
  predicate Signed(cfg: Config, c: Challenge) {
    && c.Valid() && cfg.scheme.isAccount(c.account)
    && c.signature == cfg.scheme.sign(cfg.secret, c.target, c.timestamp, c.account, c.key)
  }

  /** Not older than the lifetime, and not from the future; but if the lifetime is the largest
      there is, every challenge from the future is. */
  predicate Fresh(cfg: Config, c: Challenge, now: nat) {
    if c.timestamp <= now then now <= c.timestamp + cfg.lifetime else cfg.lifetime >= U64 - 1
  }

  predicate Worked(cfg: Config, c: Challenge, nonce: nat) {
    cfg.hash(Encode(c), nonce) < c.target
  }

  /** What the faucet asks for: the text spells a challenge that it signed for this account and
      this key, which is still fresh, and the nonce meets its target. */
  predicate Earned(cfg: Config, a: Acceptance) {
    && Spells(a.text, a.challenge) && Signed(cfg, a.challenge)
    && Fresh(cfg, a.challenge, a.time) && Worked(cfg, a.challenge, a.nonce)
    && a.account == a.challenge.account && a.key == a.challenge.key
  }

  /** The checks come to exactly that, and otherwise report what is wrong. */
  lemma ChecksAreExact(cfg: Config, a: Acceptance)
    requires cfg.scheme.Valid()
    ensures var checked := Checked(cfg, a.account, a.key, a.text, a.nonce, a.time);
      && (checked == Some(Ok(a.challenge)) <==> Earned(cfg, a))
      && (Spells(a.text, a.challenge) && Signed(cfg, a.challenge) && !Earned(cfg, a) ==>
            checked == Some(Err(
              if !Fresh(cfg, a.challenge, a.time)
              then ExpiredServerTimestamp(a.challenge.timestamp, a.time) else InvalidPoW)))
  {
    hide Decode, Encode, Spells, Scheme.Valid;
    DecodeIsExact(cfg.scheme, cfg.secret, a.text, a.challenge);
    var decoded := Decode(cfg.scheme, cfg.secret, a.text);
    if decoded.Some? && decoded.value.Ok? {
      DecodeIsExact(cfg.scheme, cfg.secret, a.text, decoded.value.value);
    }
  }

  ghost predicate AllEarned(cfg: Config, accepted: seq<Acceptance>) {
    forall i :: 0 <= i < |accepted| ==> Earned(cfg, accepted[i])
  }

  lemma StepEarned(cfg: Config, w: World, a: Action)
    requires cfg.scheme.Valid() && Allowed(cfg, w, a) && AllEarned(cfg, w.accepted)
    ensures AllEarned(cfg, Next(cfg, w, a).accepted)
  {
    hide Checked, Earned, Admit;
    if a.Submit? {
      var checked := Checked(cfg, a.account, a.key, a.text, a.nonce, a.now).value;
      if checked.Ok? {
        ChecksAreExact(cfg, Acceptance(checked.value, a.now, a.account, a.key, a.text, a.nonce));
      }
    }
  }

  lemma {:induction false} RunEarned(cfg: Config, w: World, actions: seq<Action>)
    requires cfg.scheme.Valid() && Runs(cfg, w, actions) && AllEarned(cfg, w.accepted)
    ensures AllEarned(cfg, Final(cfg, w, actions).accepted)
    decreases |actions|
  {
    hide AllEarned, Next, Allowed;
    if actions != [] {
      StepEarned(cfg, w, actions[0]);
      RunEarned(cfg, Next(cfg, w, actions[0]), actions[1..]);
    }
  }

  /** Over every run, whenever the cleanups come: everything that was accepted was earned. */
  lemma {:induction false} AcceptedAreEarned(cfg: Config, actions: seq<Action>)
    requires cfg.scheme.Valid() && Runs(cfg, START, actions)
    ensures AllEarned(cfg, Final(cfg, START, actions).accepted)
  {
    RunEarned(cfg, START, actions);
  }

  /** An earlier acceptance for the account is within the bound of the newest cleanup. */
  predicate Limited(w: World, account: seq<byte>) {
    exists i :: 0 <= i < |w.accepted| && w.accepted[i].challenge.account == account &&
                w.accepted[i].challenge.timestamp >= w.limit
  }

  function Resubmit(a: Acceptance): Action {
    Submit(a.account, a.key, a.text, a.nonce, a.time)
  }

  lemma SubmitAppends(cfg: Config, w: World, a: Acceptance)
    requires Allowed(cfg, w, Resubmit(a))
    ensures var checked := Checked(cfg, a.account, a.key, a.text, a.nonce, a.time).value;
      Next(cfg, w, Resubmit(a)).accepted == w.accepted +
        if checked.Ok? && Admit(w.entries, checked.value).Pass?
        then [a.(challenge := checked.value)] else []
  {
  }

  lemma AppendedIs<T>(s: seq<T>, more: seq<T>, x: T)
    ensures s + more == s + [x] <==> more == [x]
    ensures s + more == s <==> more == []
  {
    if s + more == s + [x] {
      assert (s + more)[|s|..] == more && (s + [x])[|s|..] == [x];
    }
    if s + more == s {
      assert |more| == 0;
    }
  }

  /** A submission is accepted if and only if it is earned and the cache admits its challenge. */
  lemma SubmitExactly(cfg: Config, w: World, a: Acceptance)
    requires cfg.scheme.Valid() && Allowed(cfg, w, Resubmit(a))
    ensures Next(cfg, w, Resubmit(a)).accepted == w.accepted + [a] <==>
            Earned(cfg, a) && Admit(w.entries, a.challenge).Pass?
  {
    ChecksAreExact(cfg, a);
    SubmitAppends(cfg, w, a);
    hide Checked, Admit, Earned, Next;
    var checked := Checked(cfg, a.account, a.key, a.text, a.nonce, a.time).value;
    AppendedIs(w.accepted, if checked.Ok? && Admit(w.entries, checked.value).Pass?
                           then [a.(challenge := checked.value)] else [], a);
  }

  /** After every run with timely cleanups: if and only if it is earned and its account is not
      limited. */
  lemma {:induction false} AcceptsExactly(cfg: Config, actions: seq<Action>, a: Acceptance)
    requires cfg.scheme.Valid() && Runs(cfg, START, actions)
    requires forall x :: x in actions ==> Timely(cfg, x)
    requires Allowed(cfg, Final(cfg, START, actions), Resubmit(a))
    ensures var w := Final(cfg, START, actions);
      Next(cfg, w, Resubmit(a)).accepted == w.accepted + [a] <==>
      Earned(cfg, a) && !Limited(w, a.account)
  {
    var w := Final(cfg, START, actions);
    SubmitExactly(cfg, w, a);
    LimitedExactly(cfg, actions, a.challenge);
    assert Earned(cfg, a) ==> a.account == a.challenge.account;
    hide Earned, Admit, Next, Runs, Final;
  }

  // ---------------------------------------------------------------------------------------------
  // Cleanups below the lifetime

  ghost predicate Replayed(accepted: seq<Acceptance>) {
    exists i, j :: 0 <= i < j < |accepted| && !Differ(accepted[i], accepted[j])
  }

  /** A challenge from the past is earned while the clock is below the lifetime. */
  predicate EarnedEarly(cfg: Config, a: Acceptance) {
    Earned(cfg, a) && a.challenge.timestamp <= a.time < cfg.lifetime
  }

  ghost predicate SomeEarnedEarly(cfg: Config) {
    exists a :: EarnedEarly(cfg, a)
  }

  lemma {:induction false} ThreeSteps(cfg: Config, w: World, w1: World, w2: World, w3: World,
                                      a: Action, b: Action, c: Action)
    requires Allowed(cfg, w, a) && Next(cfg, w, a) == w1
    requires Allowed(cfg, w1, b) && Next(cfg, w1, b) == w2
    requires Allowed(cfg, w2, c) && Next(cfg, w2, c) == w3
    ensures Runs(cfg, w, [a, b, c]) && Final(cfg, w, [a, b, c]) == w3
  {
    hide Allowed, Next;
    assert [a, b, c][1..] == [b, c] && [b, c][1..] == [c] && [c][1..] == [];
    assert Final(cfg, w3, []) == w3;
    assert Runs(cfg, w2, [c]) && Final(cfg, w2, [c]) == w3;
    assert Runs(cfg, w1, [b, c]) && Final(cfg, w1, [b, c]) == w3;
  }

  lemma EntersEmptyCache(cfg: Config, w: World, a: Acceptance)
    requires cfg.scheme.Valid() && cfg.lifetime < U64 && EarnedEarly(cfg, a)
    requires w.entries == map[] && w.clock <= a.time
    ensures Allowed(cfg, w, Resubmit(a))
    ensures var c := a.challenge;
      Next(cfg, w, Resubmit(a)) ==
      World(map[c.timestamp := [IssuerOf(c)]], a.time, w.limit, w.accepted + [a])
  {
    var c := a.challenge;
    ChecksAreExact(cfg, a);
    hide Checked, Earned, Scheme.Valid;
    assert [] + [IssuerOf(c)] == [IssuerOf(c)];
    assert !HasAccount(map[], Id(c.account));
  }

  lemma EarlyCleanupEmpties(cfg: Config, w: World, now: nat)
    requires cfg.lifetime < U64 && w.clock <= now < cfg.lifetime
    requires forall t :: t in w.entries ==> t <= now
    ensures Allowed(cfg, w, Cleanup(now))
    ensures Next(cfg, w, Cleanup(now)) == World(map[], now, w.limit, w.accepted)
  {
    assert Limit(now, cfg.lifetime) > now;
  }

  /** Such a challenge is accepted, forgotten by a cleanup at once, and accepted again. */
  lemma {:induction false} EarlyReplay(cfg: Config, once: Acceptance)
    requires cfg.scheme.Valid() && cfg.lifetime < U64 && EarnedEarly(cfg, once)
    ensures var actions := [Resubmit(once), Cleanup(once.time), Resubmit(once)];
      Runs(cfg, START, actions) && Replayed(Final(cfg, START, actions).accepted)
  {
    var submit, cleanup := Resubmit(once), Cleanup(once.time);
    hide Next, Allowed, Earned, Scheme.Valid;
    EntersEmptyCache(cfg, START, once);
    var w1 := Next(cfg, START, submit);
    EarlyCleanupEmpties(cfg, w1, once.time);
    var w2 := Next(cfg, w1, cleanup);
    EntersEmptyCache(cfg, w2, once);
    var w3 := Next(cfg, w2, submit);
    ThreeSteps(cfg, START, w1, w2, w3, submit, cleanup, submit);
    assert w3.accepted[0] == once && w3.accepted[1] == once;
  }

  /** As long as the clock is below the lifetime, only challenges from beyond the lifetime are
      cached, which no early cleanup forgets. */
  ghost predicate LateInv(cfg: Config, w: World) {
    Inv(cfg, w) &&
    (w.clock < cfg.lifetime ==>
       forall t :: t in w.entries ==> t >= cfg.lifetime && cfg.lifetime == U64 - 1)
  }

  lemma LateCleanup(cfg: Config, w: World, now: nat)
    requires LateInv(cfg, w) && Allowed(cfg, w, Cleanup(now))
    ensures LateInv(cfg, Next(cfg, w, Cleanup(now)))
  {
    if now >= cfg.lifetime {
      CleanupInv(cfg, w, now);
    } else {
      assert Limit(now, cfg.lifetime) == U64 + now - cfg.lifetime;
      assert From(w.entries, Limit(now, cfg.lifetime)) == w.entries;
    }
  }

  lemma LateSubmit(cfg: Config, w: World, a: Action)
    requires cfg.scheme.Valid() && LateInv(cfg, w) && Allowed(cfg, w, a) && a.Submit?
    requires !SomeEarnedEarly(cfg)
    ensures LateInv(cfg, Next(cfg, w, a))
  {
    StepInv(cfg, w, a);
    hide Inv, Spells, Scheme.Valid, Checked;
    var checked := Checked(cfg, a.account, a.key, a.text, a.nonce, a.now).value;
    if a.now < cfg.lifetime && checked.Ok? {
      var c := checked.value;
      var accepted := Acceptance(c, a.now, a.account, a.key, a.text, a.nonce);
      ChecksAreExact(cfg, accepted);
      assert !EarnedEarly(cfg, accepted);
      assert c.timestamp > a.now && cfg.lifetime == U64 - 1;
      assert !EarnedEarly(cfg, accepted.(time := c.timestamp));
    }
  }

  lemma {:induction false} LateRun(cfg: Config, w: World, actions: seq<Action>)
    requires cfg.scheme.Valid() && LateInv(cfg, w) && Runs(cfg, w, actions)
    requires !SomeEarnedEarly(cfg)
    ensures LateInv(cfg, Final(cfg, w, actions))
    decreases |actions|
  {
    hide LateInv, Next, SomeEarnedEarly, Scheme.Valid;
    if actions != [] {
      if actions[0].Submit? {
        LateSubmit(cfg, w, actions[0]);
      } else {
        LateCleanup(cfg, w, actions[0].now);
      }
      LateRun(cfg, Next(cfg, w, actions[0]), actions[1..]);
    }
  }

  /** Cleanups at any time: some run accepts a challenge twice if and only if some challenge is
      earned while the clock is below the lifetime. */
  lemma {:induction false} ReplayExactly(cfg: Config)
    requires cfg.scheme.Valid() && cfg.lifetime < U64
    ensures (exists actions :: Runs(cfg, START, actions) &&
                               Replayed(Final(cfg, START, actions).accepted))
            <==> SomeEarnedEarly(cfg)
  {
    if SomeEarnedEarly(cfg) {
      var a :| EarnedEarly(cfg, a);
      EarlyReplay(cfg, a);
    } else {
      StartInv(cfg);
      hide Inv, EarnedEarly, Scheme.Valid;
      forall actions | Runs(cfg, START, actions)
        ensures !Replayed(Final(cfg, START, actions).accepted)
      {
        LateRun(cfg, START, actions);
        InvDiffers(cfg, Final(cfg, START, actions));
      }
    }
  }

  lemma InvDiffers(cfg: Config, w: World)
    requires Inv(cfg, w)
    ensures !Replayed(w.accepted)
  {
    forall i, j | 0 <= i < j < |w.accepted| ensures Differ(w.accepted[i], w.accepted[j]) {
      assert !IsExpired(w.accepted[j].challenge.timestamp, w.accepted[j].time, cfg.lifetime);
    }
  }

  /** It happens with every lifetime but zero: with the clock at zero, for any scheme and any hash
      that meets the target. */
  lemma {:induction false} ReplayHappens(cfg: Config, account: seq<byte>, key: seq<byte>,
                                         target: nat, nonce: nat)
    requires cfg.scheme.Valid() && 0 < cfg.lifetime < U64 && target < U64
    requires |account| == 15 && |key| == 32 && cfg.scheme.isAccount(account)
    requires var c := NewChallenge(cfg.scheme, cfg.secret, target, 0, account, key);
      cfg.hash(Encode(c), nonce) < target
    ensures exists actions ::
      Runs(cfg, START, actions) && Replayed(Final(cfg, START, actions).accepted)
  {
    var c := NewChallenge(cfg.scheme, cfg.secret, target, 0, account, key);
    assert Spells(Encode(c), c);
    hide Decode, Encode, Runs, Replayed;
    EarlyReplay(cfg, Acceptance(c, 0, account, key, Encode(c), nonce));
  }
}
