// src/web/auth.rs: session lifetime, step-up freshness and the comparison of secrets.
module Auth {
  import opened Wrappers
  import opened Crd
  import opened Integers

  const CLOCK_SKEW_SECS: int := 60
  const LOGIN_TTL_SECS: int := 600

  /** Times in whole Unix seconds. */
  datatype Session = Session(authTime: Option<int>, exp: int)

  datatype LoginState = LoginState(started: int, exp: int, reauth: bool)

  datatype LoginError = LoginExpired | NoAuthTime | NotReauthenticated

  predicate IsExpired(s: Session, now: Timestamp) {
    AsSecond(now) >= s.exp
  }

  /** `fresh_enough`; `maxAge` in whole seconds. */
  predicate FreshEnough(s: Session, maxAge: Option<int>, now: Timestamp) {
    match maxAge
    case None => true
    case Some(age) =>
      && s.authTime.Some?
      && var t, n := s.authTime.value, AsSecond(now);
      t <= Wrap(n + CLOCK_SKEW_SECS) && Wrap(n - t) <= Wrap(age + CLOCK_SKEW_SECS)
  }

  /** The state stored by `login`. */
  function StartLogin(now: Timestamp, reauth: bool): LoginState {
    LoginState(AsSecond(now), AsSecond(now) + LOGIN_TTL_SECS, reauth)
  }

  function LoginAuthTime(claim: Option<int>, login: LoginState, now: Timestamp): Result<Option<int>, LoginError> {
    if login.reauth then
      match claim
      case None => Err(NoAuthTime)
      case Some(t) =>
        if t < login.started - CLOCK_SKEW_SECS || t > AsSecond(now) + CLOCK_SKEW_SECS then Err(NotReauthenticated)
        else Ok(claim)
    else Ok(claim)
  }

  /** What `callback` puts in the session, given the verified `auth_time` claim. */
  function Callback(login: LoginState, claim: Option<int>, ttl: int, now: Timestamp): Result<Session, LoginError> {
    if AsSecond(now) > login.exp then Err(LoginExpired)
    else
      match LoginAuthTime(claim, login, now)
      case Err(e) => Err(e)
      case Ok(authTime) => Ok(Session(authTime, Wrap(AsSecond(now) + ttl)))
  }

  /** Covers every moment that the timestamps of jiff and of the ID-token library can hold. */
  predicate Realistic(secs: int) {
    -10_000_000_000_000 <= secs <= 10_000_000_000_000
  }

  lemma SecondsGrow(a: Timestamp, b: Timestamp)
    requires a <= b
    ensures AsSecond(a) <= AsSecond(b)
  {}

  /** Which callbacks are accepted: those within the time a login may take, and of a forced login only
      those whose claim is there and no older than its start and no younger than the callback, up to
      the clock skew. The session gets the provider's claim, nothing else, whether forced or not. */
  lemma CallbackAcceptsIff(start: Timestamp, forced: bool, claim: Option<int>, ttl: int, back: Timestamp)
    ensures var r := Callback(StartLogin(start, forced), claim, ttl, back);
            && (r.Ok? <==>
                && AsSecond(back) - AsSecond(start) <= 600
                && (forced ==> claim.Some? && AsSecond(start) - 60 <= claim.value <= AsSecond(back) + 60))
            && (r.Ok? ==> r.value.authTime == claim)
            && (r == Err(LoginExpired) <==> AsSecond(back) - AsSecond(start) > 600)
            && (r == Err(NoAuthTime) <==> AsSecond(back) - AsSecond(start) <= 600 && forced && claim.None?)
  {}

  /** A login whose provider does not say when the user signed in never passes step-up. */
  lemma NoClaimIsNeverFresh(login: LoginState, ttl: int, back: Timestamp, age: int, now: Timestamp)
    requires Callback(login, None, ttl, back).Ok?
    ensures !FreshEnough(Callback(login, None, ttl, back).value, Some(age), now)
    ensures FreshEnough(Callback(login, None, ttl, back).value, None, now)
  {}

  /** The same for a stored login state that did not come from `login`. */
  lemma CallbackOfAnyState(login: LoginState, claim: Option<int>, ttl: int, back: Timestamp)
    ensures var r := Callback(login, claim, ttl, back);
            && (r.Ok? <==>
                && AsSecond(back) <= login.exp
                && (login.reauth ==> claim.Some? && login.started - 60 <= claim.value <= AsSecond(back) + 60))
            && (r.Ok? ==> r.value.authTime == claim)
  {}

  /** A forced re-login that was accepted satisfies step-up at every later moment no more than the
      maximum age after the login started. */
  lemma ReauthStaysFresh(start: Timestamp, claim: Option<int>, ttl: int, back: Timestamp, age: int, now: Timestamp)
    requires Callback(StartLogin(start, true), claim, ttl, back).Ok?
    requires start <= back <= now && Realistic(AsSecond(start)) && Realistic(AsSecond(now))
    requires AsSecond(now) - AsSecond(start) <= age <= I64_MAX - CLOCK_SKEW_SECS
    ensures FreshEnough(Callback(StartLogin(start, true), claim, ttl, back).value, Some(age), now)
  {
    SecondsGrow(start, back);
    SecondsGrow(back, now);
  }

  /** No re-login loop: every accepted re-login is fresh when the callback returns, for every way
      the provider may answer in time, exactly when the maximum age is at least the time a login
      may take. */
  lemma NoReloginLoopIff(age: int)
    requires 0 <= age <= I64_MAX - CLOCK_SKEW_SECS
    ensures (forall start, claim, ttl, back |
               && start <= back && Realistic(AsSecond(start)) && Realistic(AsSecond(back))
               && Callback(StartLogin(start, true), claim, ttl, back).Ok? ::
               FreshEnough(Callback(StartLogin(start, true), claim, ttl, back).value, Some(age), back))
            <==> age >= LOGIN_TTL_SECS
  {
    if age >= LOGIN_TTL_SECS {
      forall start, claim, ttl, back |
        && start <= back && Realistic(AsSecond(start)) && Realistic(AsSecond(back))
        && Callback(StartLogin(start, true), claim, ttl, back).Ok?
        ensures FreshEnough(Callback(StartLogin(start, true), claim, ttl, back).value, Some(age), back)
      {
        ReauthStaysFresh(start, claim, ttl, back, age, back);
      }
    } else {
      // The slowest login, at a provider whose clock is a minute behind.
      var start, back, claim := 0, LOGIN_TTL_SECS * NANOS, Some(-CLOCK_SKEW_SECS);
      assert AsSecond(start) == 0 && AsSecond(back) == LOGIN_TTL_SECS;
      assert Callback(StartLogin(start, true), claim, 0, back).Ok?;
      assert !FreshEnough(Callback(StartLogin(start, true), claim, 0, back).value, Some(age), back);
    }
  }

  /** What step-up proves about the login: neither older than the maximum age nor in the future,
      up to the clock skew. */
  lemma StepUpBounds(s: Session, age: int, now: Timestamp)
    requires Realistic(AsSecond(now)) && 0 <= age <= I64_MAX - CLOCK_SKEW_SECS
    requires s.authTime.Some? ==> Realistic(s.authTime.value)
    ensures FreshEnough(s, Some(age), now) <==>
            && s.authTime.Some?
            && AsSecond(now) - s.authTime.value <= age + CLOCK_SKEW_SECS
            && s.authTime.value - AsSecond(now) <= CLOCK_SKEW_SECS
  {}

  /** A session lasts exactly its lifetime from the callback on. */
  lemma SessionLifetime(login: LoginState, claim: Option<int>, ttl: int, back: Timestamp, now: Timestamp)
    requires Callback(login, claim, ttl, back).Ok?
    requires Realistic(AsSecond(back)) && 0 <= ttl <= I64_MAX - 10_000_000_000_000
    ensures IsExpired(Callback(login, claim, ttl, back).value, now) <==> AsSecond(now) - AsSecond(back) >= ttl
  {
    assert IsI64(AsSecond(back) + ttl);
  }

  /** A maximum age within a minute of the largest i64 wraps around, and then no session is fresh. */
  lemma HugeMaxAgeIsNeverFresh(s: Session, age: int, now: Timestamp)
    requires Realistic(AsSecond(now)) && IsI64(age)
    requires s.authTime.Some? ==> Realistic(s.authTime.value)
    ensures age > I64_MAX - CLOCK_SKEW_SECS ==> !FreshEnough(s, Some(age), now)
  {
    if age > I64_MAX - CLOCK_SKEW_SECS {
      assert Wrap(age + CLOCK_SKEW_SECS) == age + CLOCK_SKEW_SECS - 0x1_0000_0000_0000_0000;
    }
  }

  // ------------------------------------------------------------------------
  // constant_time_eq

  function FoldDifferences(a: seq<bv8>, b: seq<bv8>, acc: bv8): bv8
    requires |a| == |b|
  {
    if a == [] then acc else FoldDifferences(a[1..], b[1..], acc | (a[0] ^ b[0]))
  }

  predicate ConstantTimeEq(a: seq<bv8>, b: seq<bv8>) {
    |a| == |b| && FoldDifferences(a, b, 0) == 0
  }

  lemma {:induction false} FoldIsZeroIff(a: seq<bv8>, b: seq<bv8>, acc: bv8)
    requires |a| == |b|
    ensures FoldDifferences(a, b, acc) == 0 <==> acc == 0 && a == b
  {
    if a != [] {
      var x, y := a[0], b[0];
      assert acc | (x ^ y) == 0 <==> acc == 0 && x == y;
      FoldIsZeroIff(a[1..], b[1..], acc | (x ^ y));
      assert a == [x] + a[1..] && b == [y] + b[1..];
    }
  }

  /** Comparing every byte without stopping early still decides equality. */
  lemma ConstantTimeEqDecides(a: seq<bv8>, b: seq<bv8>)
    ensures ConstantTimeEq(a, b) <==> a == b
  {
    if |a| == |b| {
      FoldIsZeroIff(a, b, 0);
    }
  }
}
