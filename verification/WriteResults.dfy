// When a write succeeds, and what its error says otherwise: told by what is going to happen to its
// last request.
module WriteResults {
  import opened Wrappers
  import opened Crd
  import opened OpenBao
  import opened WriterFacts
  import opened OtherKeys

  /** What becomes of the next request: no token is to be had for it, or the server decides. */
  datatype Fate = NoLogin(detail: string) | Meets(verdict: Verdict)

  function NextFate(b: Bao): Fate {
    if NextToken(b).Some? then Meets(Turn0(b).verdict)
    else if Turn0(b).login.LoginDenied? then NoLogin(Turn0(b).login.detail)
    else NoLogin("")
  }

  predicate Allowed(b: Bao) {
    NextToken(b).Some? && Turn0(b).verdict.Allow?
  }

  /** The PATCH is answered 404: truly, for a path that does not exist, or not. */
  predicate PatchMissed(b: Bao, location: Location) {
    (Allowed(b) && location !in b.store) || Denied(b, 404)
  }

  /** A PATCH, with a POST if it has missed. */
  predicate SucceedsAtOnce(b: Bao, location: Location) {
    || (Allowed(b) && location in b.store)
    || (PatchMissed(b, location) && Allowed(Ready(b)))
  }

  /** At once, or after a first 403, with a new token in place of one that came from a login. */
  predicate Succeeds(b: Bao, location: Location, retried: bool) {
    || SucceedsAtOnce(b, location)
    || (!retried && b.auth.Kubernetes? && Denied(b, 403) && SucceedsAtOnce(Invalidated(Ready(b)), location))
  }

  /** The last request of a write, and its fate. */
  function LastFate(b: Bao, location: Location, retried: bool): (Method, Fate)
    decreases !retried
  {
    if PatchMissed(b, location) then (POST, NextFate(Ready(b)))
    else if !retried && b.auth.Kubernetes? && Denied(b, 403) then LastFate(Invalidated(Ready(b)), location, true)
    else (PATCH, NextFate(b))
  }

  // ------------------------------------------------------------------------
  // The log of requests decides nothing

  lemma FateIgnoresLog(b: Bao, log: seq<Request>)
    ensures NextFate(WithLog(b, log)) == NextFate(b)
    ensures Allowed(WithLog(b, log)) == Allowed(b)
    ensures forall code :: Denied(WithLog(b, log), code) == Denied(b, code)
  {
    ReadyIgnoresLog(b, log);
  }

  lemma LastFateIgnoresLog(b: Bao, location: Location, log: seq<Request>)
    ensures LastFate(WithLog(b, log), location, true) == LastFate(b, location, true)
    ensures SucceedsAtOnce(WithLog(b, log), location) == SucceedsAtOnce(b, location)
  {
    FateIgnoresLog(b, log);
    ReadyIgnoresLog(b, log);
    FateIgnoresLog(Ready(b), log);
  }

  // ------------------------------------------------------------------------
  // Results

  /** What the fate of the last request means for the result. */
  predicate Results(verb: Method, fate: Fate, result: Result<(), TargetError>) {
    match fate
    case NoLogin(detail) => result == Err(LoginFailed(detail))
    case Meets(Allow) => result == Ok(())
    case Meets(Deny(code, detail)) =>
      result == Err(if verb.PATCH? then WriteReturned(code, detail) else CreateReturned(code, detail))
    case Meets(Break(_)) => result == Err(RequestFailed)
  }

  lemma SendMeets(b: Bao, verb: Method, location: Location, key: string, value: string)
    ensures var (c, r) := Send(b, verb, location, key, value);
            && c == WithLog(Ready(b), c.requests).(store := c.store)
            && (NextFate(b).NoLogin? ==> r == NoToken(NextFate(b).detail))
            && (NextFate(b).Meets? ==> r == Answer(b.store, verb, location, NextFate(b).verdict))
            && (NextFate(b).Meets? && NextFate(b).verdict.Deny? ==> c.store == b.store)
            && (verb.PATCH? && location !in b.store ==> c.store == b.store)
            && c.auth == b.auth && Ready(b).store == b.store && Ready(b).auth == b.auth
  {
    ShareKeeps(Advanced(b), Turn0(b).others);
  }

  lemma CreateResults(b: Bao, location: Location, key: string, value: string)
    ensures Results(POST, NextFate(b), Create(b, location, key, value).1)
  {
    SendMeets(b, POST, location, key, value);
  }

  /** The result of a write tells what happened to its last request: success that it was carried out
      and answered, and each error why it was not, and whether it was the PATCH or the POST. */
  lemma {:induction false} ResultTellsLastFate(b: Bao, location: Location, key: string, value: string, retried: bool)
    ensures var (verb, fate) := LastFate(b, location, retried);
            Results(verb, fate, WriteKey(b, location, key, value, retried).1)
    decreases !retried
  {
    var c := Send(b, PATCH, location, key, value).0;
    SendMeets(b, PATCH, location, key, value);
    if PatchMissed(b, location) {
      CreateResults(c, location, key, value);
      assert c == WithLog(Ready(b), c.requests);
      FateIgnoresLog(Ready(b), c.requests);
    } else if !retried && b.auth.Kubernetes? && Denied(b, 403) {
      ResultTellsLastFate(Invalidated(c), location, key, value, true);
      assert Invalidated(c) == WithLog(Invalidated(Ready(b)), c.requests);
      LastFateIgnoresLog(Invalidated(Ready(b)), location, c.requests);
    }
  }

  lemma SuccessIsLastAllowed(b: Bao, location: Location, retried: bool)
    ensures Succeeds(b, location, retried) <==> LastFate(b, location, retried).1 == Meets(Allow)
  {}

  /** A write succeeds if and only if a token is to be had, the path exists and the PATCH is carried out
      and answered; or the PATCH is answered 404 and so is the POST carried out and answered; or, with
      Kubernetes auth, the PATCH is denied with 403 and one of these holds with a new token. */
  lemma WriteSucceedsIff(b: Bao, location: Location, key: string, value: string)
    ensures WriteKey(b, location, key, value, false).1.Ok? <==> Succeeds(b, location, false)
  {
    ResultTellsLastFate(b, location, key, value, false);
    SuccessIsLastAllowed(b, location, false);
  }

  // ------------------------------------------------------------------------
  // All targets of a rotation

  /** Target number `i` is set, and its write is going to succeed when its turn comes. */
  predicate TargetSucceeds(b: Bao, targets: seq<TargetSpec>, value: string, i: nat)
    requires i < |targets|
  {
    targets[i].openbao.Some? && Succeeds(Before(b, targets, value, i), LocationOf(targets[i].openbao.value), false)
  }

  /** Each target is reported as written if and only if its write is going to succeed. */
  lemma EachSucceedsIff(b: Bao, targets: seq<TargetSpec>, value: string, i: nat)
    requires i < |targets|
    ensures |WriteAll(b, targets, value).1| == |targets|
    ensures WriteAll(b, targets, value).1[i].Ok? <==> TargetSucceeds(b, targets, value, i)
  {
    EachTargetOnce(b, targets, value, i);
    if targets[i].openbao.Some? {
      var t := targets[i].openbao.value;
      WriteSucceedsIff(Before(b, targets, value, i), LocationOf(t), t.key, value);
    }
  }

  /** The server grants a token whenever asked, and carries out and answers every request. */
  predicate Willing(turns: seq<Turn>) {
    forall t | t in turns :: t.login.LoggedIn? && t.verdict.Allow?
  }

  lemma WillingSend(b: Bao)
    requires Willing(b.turns) && b.turns != []
    ensures Allowed(b) && Ready(b).turns == b.turns[1..] && Willing(Ready(b).turns)
  {
    ShareKeeps(Advanced(b), Turn0(b).others);
    assert b.turns[0] in b.turns;
    assert forall t | t in b.turns[1..] :: t in b.turns;
  }

  lemma WillingWrite(b: Bao, location: Location, key: string, value: string)
    requires Willing(b.turns) && |b.turns| >= 2
    ensures var (c, result) := WriteKey(b, location, key, value, false);
            result.Ok? && Willing(c.turns) && |c.turns| >= |b.turns| - 2
  {
    var c := Send(b, PATCH, location, key, value).0;
    WillingSend(b);
    WillingSend(Ready(b));
    SendMeets(b, PATCH, location, key, value);
    WriteSucceedsIff(b, location, key, value);
    if location !in b.store {
      SendMeets(c, POST, location, key, value);
      ReadyIgnoresLog(Ready(b), c.requests);
      assert c == WithLog(Ready(b), c.requests);
    }
  }

  /** Such a server is asked at most twice per target, and all targets are written. */
  lemma {:induction false} WillingWriteAll(b: Bao, targets: seq<TargetSpec>, value: string)
    requires Willing(b.turns) && |b.turns| >= 2 * |targets|
    requires forall t | t in targets :: t.openbao.Some?
    ensures var (c, results) := WriteAll(b, targets, value);
            && |results| == |targets| && (forall r | r in results :: r.Ok?)
            && Willing(c.turns) && |c.turns| >= |b.turns| - 2 * |targets|
  {
    if targets != [] {
      var n := |targets| - 1;
      assert forall t | t in targets[..n] :: t in targets;
      WillingWriteAll(b, targets[..n], value);
      assert targets[n] in targets;
      var t := targets[n].openbao.value;
      WillingWrite(WriteAll(b, targets[..n], value).0, LocationOf(t), t.key, value);
    }
  }
}
