/** The authorization decision of the request middleware: extract the
    bearer credential, refuse an empty one without touching the cache, and
    otherwise forward the request exactly when the token cache trusts it.
    The response headers it always sets, the 401 body and the log lines are
    output only and are not modelled. */
module RequestGate {
  import opened BearerAuth
  import opened TokenCache

  /** One request carrying `authHeader`: whether it is forwarded to the
      file server, whether the verifier was asked, and the store after. */
  function Admit(authHeader: string, m: Store, now: Time, verifierOk: bool, later: Time): (g: Outcome)
    ensures g.valid ==> Scheme <= authHeader && |authHeader| > |Scheme|
    ensures !(Scheme <= authHeader && |authHeader| > |Scheme|) ==> g == Outcome(false, false, m)
    ensures g.consulted ==> !IsHit(m, ExtractToken(authHeader), now)
    ensures g.valid && !g.consulted ==> IsHit(m, ExtractToken(authHeader), now)
    ensures !g.valid ==> g.store == m
  {
    var token := ExtractToken(authHeader);
    if token == "" then Outcome(false, false, m)
    else Authorize(m, token, now, verifierOk, later)
  }

  /** The request is forwarded exactly when the extracted credential is
      non-empty and the cache call on it answers true. */
  lemma ForwardIff(authHeader: string, m: Store, now: Time, verifierOk: bool, later: Time)
    ensures Admit(authHeader, m, now, verifierOk, later).valid
            <==> ExtractToken(authHeader) != ""
                 && Authorize(m, ExtractToken(authHeader), now, verifierOk, later).valid
  {
  }

  /** A well-formed header `Bearer t` with a non-empty `t` is decided by the
      cache on `t` itself. */
  lemma BearerHeaderDecidedByCache(t: Token, m: Store, now: Time, verifierOk: bool, later: Time)
    requires t != ""
    ensures Admit(Scheme + t, m, now, verifierOk, later) == Authorize(m, t, now, verifierOk, later)
  {
  }

  /** Wrong scheme, bare scheme or no header: rejected, the verifier is
      not asked and the store is not touched. */
  lemma MalformedHeadersRejected(m: Store, now: Time, verifierOk: bool, later: Time)
    ensures Admit("Basic xyz", m, now, verifierOk, later) == Outcome(false, false, m)
    ensures Admit("Bearer ", m, now, verifierOk, later) == Outcome(false, false, m)
    ensures Admit("", m, now, verifierOk, later) == Outcome(false, false, m)
  {
    ExtractExamples();
  }

  /** `noCacheHandler` in front of the shared store: an empty credential
      leaves the store untouched; otherwise one `IsValidToken` call. */
  method Serve(store: TokenStore, authHeader: string, now: Time, verifierOk: bool, later: Time)
    returns (forwarded: bool, consulted: bool)
    requires store.Valid() && now <= later
    modifies store
    ensures store.Valid()
    ensures Outcome(forwarded, consulted, store.entries) == Admit(authHeader, old(store.entries), now, verifierOk, later)
    ensures ExtractToken(authHeader) == "" ==> unchanged(store)
    ensures ExtractToken(authHeader) != "" ==> store.clock == Latest(old(store.clock), later)
  {
    var token := ExtractToken(authHeader);
    if token == "" {
      return false, false;
    }
    forwarded, consulted := store.IsValidToken(token, now, verifierOk, later);
  }
}
