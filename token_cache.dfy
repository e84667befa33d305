/** The token cache: a store mapping each credential to the instant until
    which it is trusted, the lookup-then-verify-then-insert protocol of
    `isValidToken`, and the expiry sweep run by the cleanup ticker.

    Time is an integer count of nanoseconds (the unit of Go's
    `time.Duration`). The remote verifier is an oracle: callers pass the
    answer it would give, and the model reports whether it was asked. */
module TokenCache {

  type Token = string
  type Time = int

  /** What the store holds: credential to valid-until instant. */
  type Store = map<Token, Time>

  const Second: Time := 1_000_000_000
  const Minute: Time := 60 * Second

  /** How long a successful remote verification is trusted. */
  const CacheTime: Time := 30 * Minute

  /** The period of the cleanup ticker. */
  const SweepPeriod: Time := 1 * Minute

  /** A lookup trusts an entry while the clock is strictly before its
      valid-until instant. */
  predicate IsHit(m: Store, token: Token, now: Time) {
    token in m && now < m[token]
  }

  /** The sweep drops an entry once the clock is strictly after it. */
  predicate Expired(validUntil: Time, now: Time) {
    now > validUntil
  }

  /** No entry's valid-until instant lies more than one TTL past `now`. */
  ghost predicate WithinTtl(m: Store, now: Time) {
    forall k :: k in m ==> m[k] <= now + CacheTime
  }

  /** The locked write after a successful verification read the clock at
      `later`: the token is trusted until exactly one TTL after that, and
      no other entry is touched. */
  function Insert(m: Store, token: Token, later: Time): (r: Store)
    ensures r.Keys == m.Keys + {token}
    ensures forall t :: IsHit(r, token, t) <==> t < later + CacheTime
    ensures forall k :: k in m && k != token ==> r[k] == m[k]
  {
    m[token := later + CacheTime]
  }

  /** What one call of `isValidToken` produces: its answer, whether it
      asked the remote verifier, and the store afterwards. */
  datatype Outcome = Outcome(valid: bool, consulted: bool, store: Store)

  /** `isValidToken` with the clock read at `now` for the lookup and at
      `later` after the verifier returned `verifierOk`. */
  function Authorize(m: Store, token: Token, now: Time, verifierOk: bool, later: Time): (o: Outcome)
    ensures o.consulted <==> !IsHit(m, token, now)
    ensures o.valid <==> IsHit(m, token, now) || verifierOk
    ensures !o.valid ==> o.store == m
    ensures o.store.Keys <= m.Keys + {token}
    ensures forall k :: k in m && k != token ==> k in o.store && o.store[k] == m[k]
    ensures o.valid && now <= later ==> IsHit(o.store, token, now)
  {
    if IsHit(m, token, now) then Outcome(true, false, m)
    else if verifierOk then Outcome(true, true, Insert(m, token, later))
    else Outcome(false, true, m)
  }

  /** One pass of the cleanup loop at clock reading `now`. */
  function Swept(m: Store, now: Time): (r: Store)
    ensures r.Keys <= m.Keys
    ensures forall k :: k in r ==> r[k] == m[k] && !Expired(r[k], now)
    ensures forall k :: k in m && !Expired(m[k], now) ==> k in r
  {
    map k | k in m && !Expired(m[k], now) :: m[k]
  }

  /** The later of two clock readings. */
  function Latest(a: Time, b: Time): Time {
    if a <= b then b else a
  }

  /** The cleanup goroutine: one sweep per ticker reading, in order. An
      entry survives exactly when no tick came strictly after its
      valid-until instant, and it survives unchanged. */
  function SweepTicks(m: Store, ticks: seq<Time>): (r: Store)
    ensures forall k :: k in r <==> k in m && forall i :: 0 <= i < |ticks| ==> !Expired(m[k], ticks[i])
    ensures forall k :: k in r ==> r[k] == m[k]
  {
    if ticks == [] then m else SweepTicks(Swept(m, ticks[0]), ticks[1..])
  }

  // ---------------------------------------------------------------------
  // Lookup and verification

  /** A cache hit answers true without asking the verifier and leaves the
      store as it was. */
  lemma HitSkipsVerifier(m: Store, token: Token, now: Time, verifierOk: bool, later: Time)
    requires IsHit(m, token, now)
    ensures Authorize(m, token, now, verifierOk, later) == Outcome(true, false, m)
  {
  }

  /** A miss or an expired entry that the verifier approves is (re)written
      to trust the token for one TTL from `later`. */
  lemma VerifiedMissIsCached(m: Store, token: Token, now: Time, later: Time)
    requires !IsHit(m, token, now)
    ensures Authorize(m, token, now, true, later) == Outcome(true, true, m[token := later + CacheTime])
  {
  }

  /** A rejected verification answers false and leaves the store exactly
      as it was: no negative entry is added and an expired entry stays, so
      the next request for the token asks the verifier again. */
  lemma RejectedMissLeavesStore(m: Store, token: Token, now: Time, later: Time)
    requires !IsHit(m, token, now)
    ensures Authorize(m, token, now, false, later) == Outcome(false, true, m)
    ensures Authorize(Authorize(m, token, now, false, later).store, token, now, true, later).consulted
  {
  }

  /** Two writes for the same token: the last writer wins and there is one
      entry; writing the same instant twice is the same as writing it once. */
  lemma InsertLastWriterWins(m: Store, token: Token, l1: Time, l2: Time)
    ensures Insert(Insert(m, token, l1), token, l2) == Insert(m, token, l2)
    ensures Insert(Insert(m, token, l2), token, l2) == Insert(m, token, l2)
  {
  }

  /** Two requests that both miss on the same token and are both approved:
      each answers true, and applying the two locked writes in either
      order leaves a single entry, the later writer's. */
  lemma ConcurrentMissesAgree(m: Store, token: Token, n1: Time, l1: Time, n2: Time, l2: Time)
    requires !IsHit(m, token, n1) && !IsHit(m, token, n2)
    ensures Authorize(m, token, n1, true, l1).valid && Authorize(m, token, n2, true, l2).valid
    ensures Insert(Authorize(m, token, n1, true, l1).store, token, l2) == Authorize(m, token, n2, true, l2).store
    ensures Insert(Authorize(m, token, n2, true, l2).store, token, l1) == Authorize(m, token, n1, true, l1).store
    ensures Authorize(m, token, n2, true, l2).store.Keys == m.Keys + {token}
  {
  }

  /** The TTL bound is kept by any call whose own two clock readings are in
      order, even when they are older than the latest reading the store has
      seen (`clock`). */
  lemma AuthorizeKeepsWithinTtl(m: Store, clock: Time, token: Token, now: Time, verifierOk: bool, later: Time)
    requires WithinTtl(m, clock) && now <= later
    ensures WithinTtl(Authorize(m, token, now, verifierOk, later).store, Latest(clock, later))
  {
  }

  // ---------------------------------------------------------------------
  // Sweep

  /** Sweeping twice at the same instant is sweeping once. */
  lemma SweepIdempotent(m: Store, now: Time)
    ensures Swept(Swept(m, now), now) == Swept(m, now)
  {
  }

  /** A sweep with nothing expired leaves the store unchanged. */
  lemma SweepWithoutExpiredIsNoop(m: Store, now: Time)
    requires forall k :: k in m ==> !Expired(m[k], now)
    ensures Swept(m, now) == m
  {
  }

  /** The boundary where the two comparisons differ: an entry whose
      valid-until equals the clock is kept by the sweep, yet a lookup at
      that instant already misses. */
  lemma SweepKeepsBoundaryEntry(m: Store, token: Token, now: Time)
    requires token in m && m[token] == now
    ensures token in Swept(m, now) && Swept(m, now)[token] == now
    ensures !IsHit(m, token, now) && !IsHit(Swept(m, now), token, now)
  {
  }

  /** A sweep never changes the answer of a lookup made at or after the
      sweep's instant: it only reclaims entries no such lookup trusts. */
  lemma SweepInvisibleToLookups(m: Store, now: Time, t: Time)
    requires now <= t
    ensures forall k :: IsHit(Swept(m, now), k, t) <==> IsHit(m, k, t)
  {
  }

  /** Hence a whole authorization at or after a sweep answers and consults
      exactly as it would have without the sweep. */
  lemma SweepInvisibleToAuthorize(m: Store, s: Time, token: Token, now: Time, verifierOk: bool, later: Time)
    requires s <= now
    ensures Authorize(Swept(m, s), token, now, verifierOk, later).valid == Authorize(m, token, now, verifierOk, later).valid
    ensures Authorize(Swept(m, s), token, now, verifierOk, later).consulted == Authorize(m, token, now, verifierOk, later).consulted
  {
  }

  /** The sweep keeps the TTL bound, whether its own clock reading is
      ahead of or behind the latest one the store has seen. */
  lemma SweepKeepsWithinTtl(m: Store, clock: Time, now: Time)
    requires WithinTtl(m, clock)
    ensures WithinTtl(Swept(m, now), Latest(clock, now))
  {
  }

  /** Sweeps at instants up to `t` do not change any lookup made at `t`. */
  lemma SweepTicksInvisible(m: Store, ticks: seq<Time>, t: Time)
    requires forall i :: 0 <= i < |ticks| ==> ticks[i] <= t
    ensures forall k :: IsHit(SweepTicks(m, ticks), k, t) <==> IsHit(m, k, t)
  {
  }

  /** An entry is gone after any run of sweeps one of which came strictly
      after its valid-until instant. */
  lemma SweepTicksEvicts(m: Store, ticks: seq<Time>, i: nat, k: Token)
    requires i < |ticks| && k in m && Expired(m[k], ticks[i])
    ensures k !in SweepTicks(m, ticks)
  {
  }

  // ---------------------------------------------------------------------
  // Whole-protocol properties

  /** A credential freshly approved at `now` stays trusted, with no further
      verifier call, at every instant before one TTL from `now`, whatever
      sweeps ran in between. */
  lemma FreshApprovalHitsWithinTtl(m: Store, token: Token, now: Time, later: Time,
                                   ticks: seq<Time>, t: Time, verifierOk: bool, later2: Time)
    requires !IsHit(m, token, now) && now <= later && t < now + CacheTime
    requires forall i :: 0 <= i < |ticks| ==> ticks[i] <= t
    ensures var m' := SweepTicks(Authorize(m, token, now, true, later).store, ticks);
            Authorize(m', token, t, verifierOk, later2) == Outcome(true, false, m')
  {
    var m1 := Authorize(m, token, now, true, later).store;
    assert IsHit(m1, token, t);
    SweepTicksInvisible(m1, ticks, t);
  }

  /** Thirty-minute TTL with a one-minute ticker, as one run: a new token
      approved at instant 0 (the verifier answering within a minute); the
      ticks of minutes 1 to 29; a lookup at 29 minutes that hits without
      asking the verifier; the ticks of minutes 30 and 31, the second of
      which removes the entry; a lookup at 31 minutes that asks the
      verifier again. */
  lemma ThirtyMinuteScenario(m: Store, d: Time, ok29: bool, later29: Time, ok31: bool, later31: Time)
    requires "abc" !in m && 0 <= d < Minute
    ensures var ticks := seq(31, i => (i + 1) * SweepPeriod);
            var first := Authorize(m, "abc", 0, true, d);
            var second := Authorize(SweepTicks(first.store, ticks[..29]), "abc", 29 * Minute, ok29, later29);
            var third := Authorize(SweepTicks(second.store, ticks[29..]), "abc", 31 * Minute, ok31, later31);
            && first.valid && first.consulted
            && second.valid && !second.consulted
            && "abc" !in SweepTicks(second.store, ticks[29..])
            && third.consulted && third.valid == ok31
  {
    var ticks := seq(31, i => (i + 1) * SweepPeriod);
    var first := Authorize(m, "abc", 0, true, d);
    assert forall i :: 0 <= i < 29 ==> ticks[..29][i] <= 29 * Minute;
    FreshApprovalHitsWithinTtl(m, "abc", 0, d, ticks[..29], 29 * Minute, ok29, later29);
    var second := Authorize(SweepTicks(first.store, ticks[..29]), "abc", 29 * Minute, ok29, later29);
    assert second.store["abc"] == d + CacheTime;
    assert ticks[29..][1] == 31 * Minute;
    SweepTicksEvicts(second.store, ticks[29..], 1, "abc");
  }

  // ---------------------------------------------------------------------
  // The shared store

  /** The process-wide `tokenCache`. Each method is one locked region; the
      ghost `clock` is the latest clock reading the store has been used
      with. Readings taken in different goroutines can reach the lock out
      of order, so a call may bring a reading older than `clock`. */
  class TokenStore {
    var entries: Store
    ghost var clock: Time

    ghost predicate Valid()
      reads this
    {
      WithinTtl(entries, clock)
    }

    /** The store starts empty. */
    constructor (start: Time)
      ensures Valid() && entries == map[] && clock == start
    {
      entries := map[];
      clock := start;
    }

    /** `isValidToken`: a locked lookup, then on a miss the verifier
        (answering `verifierOk`) and, if it approves, a locked write. */
    method IsValidToken(token: Token, now: Time, verifierOk: bool, later: Time)
      returns (valid: bool, consulted: bool)
      requires Valid() && now <= later
      modifies this
      ensures Valid() && clock == Latest(old(clock), later)
      ensures Outcome(valid, consulted, entries) == Authorize(old(entries), token, now, verifierOk, later)
    {
      var found := token in entries;
      var validUntil := if found then entries[token] else 0;
      clock := Latest(clock, later);
      if found && now < validUntil {
        return true, false;
      }
      consulted := true;
      if verifierOk {
        entries := entries[token := later + CacheTime];
        valid := true;
      } else {
        valid := false;
      }
    }

    /** One tick of the cleanup goroutine: visit every entry once, in
        whatever order, deleting those strictly before `now`. */
    method SweepExpired(now: Time)
      requires Valid()
      modifies this
      ensures Valid() && clock == Latest(old(clock), now)
      ensures entries == Swept(old(entries), now)
    {
      ghost var start := entries;
      var pending := entries.Keys;
      while pending != {}
        invariant pending <= start.Keys && entries.Keys <= start.Keys
        invariant forall k :: k in entries ==> entries[k] == start[k]
        invariant forall k :: k in start && (k in pending || !Expired(start[k], now)) ==> k in entries
        invariant forall k :: k in entries && k !in pending ==> !Expired(entries[k], now)
        invariant clock == old(clock)
        decreases pending
      {
        var k :| k in pending;
        if Expired(entries[k], now) {
          entries := entries - {k};
        }
        pending := pending - {k};
      }
      clock := Latest(clock, now);
    }
  }

  /** The interleaving of the two goroutines: the sweeper reads the clock
      (7) before it takes the lock, and a request's write, reading the clock
      (10) inside the lock, gets in first. The stale sweep is allowed and
      keeps the fresh entry. */
  method StaleSweepAfterWrite()
  {
    var store := new TokenStore(0);
    var valid, consulted := store.IsValidToken("abc", 5, true, 10);
    assert valid && consulted && store.entries == map["abc" := 10 + CacheTime];
    store.SweepExpired(7);
    assert store.entries == map["abc" := 10 + CacheTime] && store.clock == 10;
  }
}
