/**
 * The credential cache of the backend (`token_valid` in 1/index.js):
 * two module-level variables, `accessToken` and `expiresIn`, and the rule
 * that decides between reusing the cached bearer token and authenticating
 * again. This module states one call of `token_valid` as a pure step over
 * the two variables; `Service.Backend.TokenValid` performs it in place.
 */
module Credentials {
  import opened Types

  /** Five minutes, subtracted from the upstream lifetime when a token is stored. */
  const ExpiryBufferMs: int := 5 * 60 * 1000

  /**
   * The answer of `POST /auth`: a token with its lifetime in seconds and the
   * clock reading taken once the answer has arrived, or a thrown error.
   */
  datatype AuthResponse = AuthGranted(accessToken: string, expiresInSeconds: int, receivedAt: int) | AuthRejected

  /** `accessToken` and `expiresIn`; `None` is JavaScript's `null`. */
  datatype CacheState = CacheState(accessToken: Option<string>, expiresIn: Option<int>)

  /** The state the backend starts in: both variables `null`. */
  const Initial: CacheState := CacheState(None, None)

  /** What one call of `token_valid` leaves behind, returns, and whether it called `/auth`. */
  datatype TokenOutcome = TokenOutcome(state: CacheState, token: Result<string, Failure>, authCalled: bool)

  /**
   * The guard `accessToken && expiresIn && Date.now() < expiresIn`: both
   * variables truthy (an empty string and the number 0 are falsy) and the
   * current time before the stored expiry.
   */
  predicate Usable(s: CacheState, now: int)
  {
    s.accessToken.Some? && s.accessToken.value != "" &&
    s.expiresIn.Some? && s.expiresIn.value != 0 &&
    now < s.expiresIn.value
  }

  /** The expiry stored after a successful authentication answered at time `at`. */
  function BufferedExpiry(at: int, expiresInSeconds: int): int
  {
    at + expiresInSeconds * 1000 - ExpiryBufferMs
  }

  /** One call of `token_valid` whose guard reads the clock as `now`; `auth` is what `/auth` would answer. */
  function TokenStep(s: CacheState, now: int, auth: AuthResponse): TokenOutcome
  {
    if Usable(s, now) then
      TokenOutcome(s, Ok(s.accessToken.value), false)
    else
      match auth
      case AuthGranted(token, ttl, at) =>
        TokenOutcome(CacheState(Some(token), Some(BufferedExpiry(at, ttl))), Ok(token), true)
      case AuthRejected =>
        TokenOutcome(s, Err(AuthenticationFailed), true)
  }

  /** A stored token always comes with a stored expiry. */
  predicate Consistent(s: CacheState)
  {
    s.accessToken.Some? ==> s.expiresIn.Some?
  }

  /** The effect of a 401 on the cache: `accessToken = null`; `expiresIn` is left alone. */
  function Invalidate(s: CacheState): (r: CacheState)
    ensures r.accessToken == None && r.expiresIn == s.expiresIn
  {
    s.(accessToken := None)
  }

  /** A usable cached token is handed back as it is, without calling `/auth` and without any change. */
  lemma {:induction false} CachedTokenReused(s: CacheState, now: int, auth: AuthResponse)
    requires Usable(s, now)
    ensures TokenStep(s, now, auth) == TokenOutcome(s, Ok(s.accessToken.value), false)
  {
  }

  /** Otherwise `/auth` is called; on success the token and the buffered expiry are stored and the token is returned. */
  lemma {:induction false} RefreshStoresBufferedExpiry(s: CacheState, now: int, token: string, ttl: int, at: int)
    requires !Usable(s, now)
    ensures var o := TokenStep(s, now, AuthGranted(token, ttl, at));
      o.authCalled && o.token == Ok(token) &&
      o.state.accessToken == Some(token) &&
      o.state.expiresIn == Some(at + ttl * 1000 - 300000)
  {
  }

  /** A failed authentication raises, and leaves both variables as they were. */
  lemma {:induction false} RejectedAuthRaises(s: CacheState, now: int)
    requires !Usable(s, now)
    ensures var o := TokenStep(s, now, AuthRejected);
      o.authCalled && o.token == Err(AuthenticationFailed) && o.state == s
  {
  }

  /**
   * Whatever path is taken, a returned token is the one now stored, `/auth`
   * is called exactly when the cache was not usable, and a cache with a
   * stored token keeps a stored expiry.
   */
  lemma {:induction false} TokenStepContract(s: CacheState, now: int, auth: AuthResponse)
    ensures var o := TokenStep(s, now, auth);
      (o.authCalled <==> !Usable(s, now)) &&
      (o.token.Ok? ==> o.state.accessToken == Some(o.token.value)) &&
      (o.token.Err? ==> o.state == s && auth == AuthRejected) &&
      (Consistent(s) ==> Consistent(o.state))
  {
  }

  /**
   * A handed-out token comes with a stored expiry. A cached one is still
   * inside it; a fresh one is inside it at the moment it is stored exactly
   * when the upstream lifetime exceeds the five-minute buffer: with
   * `expires_in <= 300` a fresh token is stored already expired.
   */
  lemma {:induction false} HandedOutTokenValidity(s: CacheState, now: int, auth: AuthResponse)
    requires TokenStep(s, now, auth).token.Ok?
    ensures var o := TokenStep(s, now, auth);
      o.state.expiresIn.Some? &&
      (!o.authCalled ==> now < o.state.expiresIn.value) &&
      (o.authCalled ==> (auth.receivedAt < o.state.expiresIn.value <==> auth.expiresInSeconds > 300))
  {
  }

  /**
   * Two calls in a row: after a refresh answered at `at`, a call at `later`
   * reuses the token (no second authentication) exactly when the token is
   * non-empty, the stored expiry is non-zero and `later` comes before it.
   */
  lemma {:induction false} SecondCallReusesWithinWindow(s: CacheState, now: int, token: string, ttl: int, at: int, later: int, auth: AuthResponse)
    requires !Usable(s, now)
    ensures var first := TokenStep(s, now, AuthGranted(token, ttl, at));
      var second := TokenStep(first.state, later, auth);
      !second.authCalled <==>
        token != "" && BufferedExpiry(at, ttl) != 0 && later < BufferedExpiry(at, ttl)
  {
  }

  /** A cleared token alone forces the next call to authenticate, whatever `expiresIn` holds. */
  lemma {:induction false} InvalidatedForcesAuth(s: CacheState, now: int, auth: AuthResponse)
    ensures TokenStep(Invalidate(s), now, auth).authCalled
    ensures Consistent(s) ==> Consistent(Invalidate(s))
  {
  }
}
