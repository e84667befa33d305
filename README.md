# Bearer-token gate of a static file server

This project models the authorization core of a small Go file server
(`main.go`). Every request must carry `Authorization: Bearer <token>`.
The token is trusted if a process-wide cache holds it with a valid-until
instant still in the future. Otherwise a remote authority is asked, and
its approval is cached for 30 minutes. A background ticker runs once a
minute and deletes the entries that have expired.

The model has three modules:

- `BearerAuth` (`bearer_auth.dfy`) covers credential extraction. It strips one
  literal, case-sensitive `"Bearer "` prefix and trims nothing else. It also
  builds the header value that is sent to the remote authority.
- `TokenCache` (`token_cache.dfy`) holds the store, a map from token to
  valid-until instant. It has:
  - the pure specification functions `Insert`, `Authorize` (the behaviour of
    `isValidToken`), `Swept` (one pass of the cleanup loop) and `SweepTicks`
    (the ticker loop);
  - the class `TokenStore` for the shared map. Its method `IsValidToken`
    is the lookup, verify and insert step. Its method `SweepExpired` is the
    in-place delete-while-ranging loop.
- `RequestGate` (`request_gate.dfy`) covers the decision in `noCacheHandler`.
  An empty credential is refused without looking at the cache. Any other
  credential is forwarded exactly when the cache trusts it.

Time is an integer count of nanoseconds. `CacheTime` is
30 minutes and `SweepPeriod` is 1 minute. `isValidToken` reads the clock
twice:
- `now` is the lookup reading, taken at main.go:51.
- `later` is the reading taken after the verifier returns, at main.go:58.

The remote verifier is an oracle. Callers pass `verifierOk`, the answer it
would give. Every outcome reports `consulted`, which says whether the
verifier was actually asked. The class keeps a ghost `clock`: the latest
clock reading the store has been used with. Its invariant `Valid()` says
that no entry is trusted for more than one TTL past that clock
(`WithinTtl`). A call may bring a reading older than `clock`. For example,
the sweeper reads the clock before it takes the lock (main.go:89-90), so a
request's write, which reads the clock inside the lock (main.go:56-58), can
land between the two. The methods therefore accept any reading, and
`clock` becomes the later of the two (`Latest`). The method
`StaleSweepAfterWrite` plays out that interleaving.

The lookup and the sweep compare against valid-until with two different
strict comparisons. `IsHit` is the lookup's `now.Before(validUntil)`
(main.go:51), and `Expired` is the sweep's `now.After(validUntil)`
(main.go:92). These two predicates are helpers; the lemmas below state
what follows from them:
- An entry whose valid-until equals the sweep instant is kept by the sweep
  (strict `After`, main.go:92), although a lookup at that instant already
  misses (strict `Before`, main.go:51). `SweepKeepsBoundaryEntry` states
  this.
- A true answer at `t` guarantees a verifier-free hit before
  `t + CacheTime` only when it came from a fresh verification, because a
  hit never extends valid-until. `FreshApprovalHitsWithinTtl` states the
  fresh-verification case, and `HitSkipsVerifier` shows that a hit leaves
  the store unchanged.

## Model

| member | source | states |
|---|---|---|
| `BearerAuth.ExtractToken` | main.go:38-44 | if the header starts with `"Bearer "`, that prefix followed by the result is the header; otherwise the result is empty |
| `BearerAuth.OutboundHeader` | main.go:72 | the header sent to the authority starts with the scheme, and extraction recovers the token from it (round trip) |
| `BearerAuth.NonEmptyTokenIff` | main.go:40-43 | the credential is non-empty iff the header is the scheme followed by at least one character |
| `BearerAuth.OutboundRestoresHeader` | main.go:38-44 | a header that yields a non-empty credential is exactly the header the verifier is sent for that credential |
| `BearerAuth.ExtractExamples` | main.go:40-43 | bare `"Bearer "`, `"Basic xyz"`, empty, lower-case `"bearer abc"` and `"Bearer"` give ""; further spaces are kept; only one prefix is removed |
| `TokenCache.Insert` | main.go:56-60 | after the write the token is a hit exactly before `later + CacheTime`; the keys gain only the token; other values are unchanged |
| `TokenCache.Authorize` | main.go:46-64 | the verifier is consulted iff the lookup misses; the answer is true iff hit or approved; a false answer leaves the store unchanged; other tokens are untouched; a true answer leaves the token a hit at `now` |
| `TokenCache.Swept` | main.go:91-96 | adds no key and changes no value; nothing expired remains; every unexpired entry survives (no false eviction) |
| `TokenCache.HitSkipsVerifier` | main.go:47-53 | a hit answers true, makes no verifier call and leaves the store unchanged |
| `TokenCache.VerifiedMissIsCached` | main.go:55-61 | a miss or expired entry that the verifier approves answers true and is overwritten with `later + CacheTime` |
| `TokenCache.RejectedMissLeavesStore` | main.go:55-63 | a rejected verification answers false and leaves the store exactly as it was; no negative entry is added and an expired entry is not removed; the next request for the token asks the verifier again |
| `TokenCache.InsertLastWriterWins` | main.go:57-59 | two writes for one token leave the last writer's entry; writing the same instant twice is idempotent |
| `TokenCache.ConcurrentMissesAgree` | main.go:46-64 | two approved misses on one token both answer true; their writes in either order leave one entry, the last writer's |
| `TokenCache.AuthorizeKeepsWithinTtl` | main.go:57-59 | if no entry is trusted beyond one TTL past `clock`, then afterwards none is beyond one TTL past the later of `clock` and `later`, even when `later` is the older reading |
| `TokenCache.SweepIdempotent` | main.go:91-96 | sweeping twice at the same instant is the same as sweeping once |
| `TokenCache.SweepWithoutExpiredIsNoop` | main.go:91-96 | a sweep with nothing expired leaves the store unchanged |
| `TokenCache.SweepKeepsBoundaryEntry` | main.go:92 | an entry valid until exactly `now` survives the sweep, yet is not a lookup hit at `now` (strict `After` against the strict `Before` of line 51) |
| `TokenCache.SweepInvisibleToLookups` | main.go:89-96 | a sweep never changes whether a lookup at or after the sweep instant hits |
| `TokenCache.SweepInvisibleToAuthorize` | main.go:91-93 | an authorization at or after a sweep gives the same answer and makes the same verifier call as without the sweep |
| `TokenCache.SweepKeepsWithinTtl` | main.go:91-96 | the sweep keeps the TTL bound at the later of the store's latest reading and its own reading |
| `TokenCache.SweepTicks` | main.go:88-98 | after a run of ticks, an entry survives iff no tick came strictly after its valid-until, and it survives with its value unchanged |
| `TokenCache.SweepTicksInvisible` | main.go:88-98 | ticks at instants up to `t` do not change any lookup made at `t` |
| `TokenCache.SweepTicksEvicts` | main.go:88-98 | an entry is gone after any run of ticks that includes one strictly after its valid-until |
| `TokenCache.FreshApprovalHitsWithinTtl` | main.go:51-61 | a token freshly approved at `now` is a verifier-free hit at any `t < now + CacheTime`, whatever sweeps ran up to `t` |
| `TokenCache.ThirtyMinuteScenario` | main.go:46-98 | in one chained run, a new token approved at 0 is a verifier-free hit at 29 min; the tick at 31 min removes it from the store that lookup left; a lookup at 31 min asks the verifier again |
| `TokenCache.TokenStore.constructor` | main.go:16 | the store starts empty and satisfies its invariant |
| `TokenCache.TokenStore.IsValidToken` | main.go:46-64 | answer, verifier call and new map are those of `Authorize` on the old map; the TTL invariant is kept for any clock readings with `now <= later` |
| `TokenCache.TokenStore.SweepExpired` | main.go:89-97 | the delete-while-ranging loop, visiting the keys in any order, leaves exactly `Swept(old map, now)`; the TTL invariant is kept even when `now` is older than the latest write's reading |
| `RequestGate.Admit` | main.go:27-34 | forwarding needs a well-formed non-empty bearer header; a malformed header is refused without a verifier call or a store change; a verifier call only follows a miss; a refusal leaves the store unchanged |
| `RequestGate.ForwardIff` | main.go:28 | the request is forwarded iff the credential is non-empty and `isValidToken` answers true |
| `RequestGate.BearerHeaderDecidedByCache` | main.go:27-28 | for `"Bearer " + t` with non-empty `t`, the decision is the cache's decision on `t` |
| `RequestGate.MalformedHeadersRejected` | main.go:27-31 | `"Basic xyz"`, bare `"Bearer "` and a missing header are refused with no verifier call and the store untouched |
| `RequestGate.Serve` | main.go:21-35 | the handler's decision on the shared store is `Admit`; an empty credential leaves the store object unchanged |

## Left out

- `verifyTokenExternally` (main.go:66-82) builds an HTTP request and calls the network. It becomes the input `verifierOk`. Only the header string it builds (main.go:72) is modelled, as `OutboundHeader`.
- The mutex, the goroutine and the ticker's scheduling (main.go:17, 85-87) are not modelled. Each locked region is treated as atomic.
- `TokenCache.TokenStore.IsValidToken` runs its lookup and its write as one method call. Other requests cannot interleave between them in the model. The duplicate-verification race is covered only by `ConcurrentMissesAgree`, which composes the two steps by hand.
- The cleanup ticker's period is only used in `ThirtyMinuteScenario`. `SweepTicks` takes any sequence of tick instants.
- The clock is an integer, not a wall-clock `time.Time`. The only order the methods require is `now <= later` for the two readings one `isValidToken` call takes, one after the other, in one goroutine (main.go:51, 58). Overflow of `time.Time.Add` is not modelled.
- The request is reduced to the value `Header.Get("Authorization")` returns: its first value, or "" when the header is missing. Header-name canonicalisation and further header values are not modelled.
- Strings are sequences of characters, not bytes. The prefix being matched is ASCII, so the two views agree.
- Setting the response headers (main.go:23-25), `http.Error` (main.go:29), the log lines and the call to the downstream file server (main.go:34) are output with no logic. `Serve` reports `forwarded` in place of that call.
- `main` (main.go:102-116), which sets up the file server, registers the route and listens, is not part of this model.
