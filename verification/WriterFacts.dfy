// What the OpenBao writer guarantees against every server.
module WriterFacts {
  import opened Wrappers
  import opened Text
  import opened Crd
  import opened Bookkeeping
  import opened OpenBao
  import Duration
  import Validation

  function Lookup(store: Store, location: Location, key: string): Option<string> {
    if location in store && key in store[location] then Some(store[location][key]) else None
  }

  // ------------------------------------------------------------------------
  // One request

  /** Chosen right after a login, or while it had no expiry or more than the margin left. */
  predicate TokenOk(q: Request) {
    q.justObtained || q.token.expires.None? || q.chosenAt + 30 * NANOS < q.token.expires.value
  }

  /** A sent request: its log entry, and its effect on the store. */
  predicate Sent(b: Bao, c: Bao, q: Request, verb: Method, location: Location, key: string, value: string, r: Response) {
    && c.requests == b.requests + [q]
    && q.verb == verb && q.location == location && q.existed == (location in b.store)
    && (q.applied ==> verb.POST? || q.existed)
    && c.store == (if q.applied then Carried(b.store, verb, location, key, value) else b.store)
    && (r.Status? && IsSuccess(r.code) ==> q.applied)
    && TokenOk(q)
  }

  lemma SendFacts(b: Bao, verb: Method, location: Location, key: string, value: string)
    ensures var (c, r) := Send(b, verb, location, key, value);
            && c.auth == b.auth && c.invalidations == b.invalidations
            && b.logins <= c.logins <= b.logins + 1
            && (r.NoToken? ==> c.requests == b.requests && c.store == b.store)
            && (!r.NoToken? ==> c.requests != [] && Sent(b, c, c.requests[|c.requests| - 1], verb, location, key, value, r))
  {
    ShareKeeps(Advanced(b), Turn0(b).others);
  }

  function Advanced(b: Bao): Bao {
    b.(clock := b.clock + Turn0(b).elapsed, turns := if b.turns == [] then [] else b.turns[1..])
  }

  // ------------------------------------------------------------------------
  // Bounds

  function Verbs(requests: seq<Request>): seq<Method> {
    seq(|requests|, k requires 0 <= k < |requests| => requests[k].verb)
  }

  /** The requests made between two states. */
  function Since(b: Bao, c: Bao): seq<Request> {
    if |b.requests| <= |c.requests| then c.requests[|b.requests|..] else []
  }

  lemma SendVerbs(b: Bao, verb: Method, location: Location, key: string, value: string)
    ensures var (c, r) := Send(b, verb, location, key, value);
            && b.requests <= c.requests
            && Verbs(Since(b, c)) == (if r.NoToken? then [] else [verb])
            && c.auth == b.auth && c.invalidations == b.invalidations
            && b.logins <= c.logins <= b.logins + 1
  {
    SendFacts(b, verb, location, key, value);
  }

  lemma SinceConcat(b: Bao, c: Bao, d: Bao)
    requires b.requests <= c.requests <= d.requests
    ensures Since(b, d) == Since(b, c) + Since(c, d)
    ensures Verbs(Since(b, d)) == Verbs(Since(b, c)) + Verbs(Since(c, d))
  {}

  /** Logins are at most one per request, and one more if the last one failed. */
  predicate LoginsBounded(b: Bao, c: Bao, result: Result<(), TargetError>) {
    c.logins - b.logins <= |Since(b, c)| + (if result.Err? && result.error.LoginFailed? then 1 else 0)
  }

  lemma CreateBounds(b: Bao, location: Location, key: string, value: string)
    ensures var (c, result) := Create(b, location, key, value);
            && b.requests <= c.requests
            && Verbs(Since(b, c)) <= [POST]
            && c.auth == b.auth && c.invalidations == b.invalidations
            && LoginsBounded(b, c, result)
  {
    SendVerbs(b, POST, location, key, value);
  }

  lemma PatchThen(rest: seq<Method>, bound: seq<Method>)
    requires rest <= bound
    ensures [PATCH] + rest <= [PATCH] + bound
  {}

  /** What a write may have sent: with `again`, it has dropped its token and started over. */
  predicate SentAtMost(b: Bao, c: Bao, again: bool) {
    && b.requests <= c.requests && c.auth == b.auth
    && c.invalidations == b.invalidations + (if again then 1 else 0)
    && Verbs(Since(b, c)) <= (if again then [PATCH] + ([PATCH] + [POST]) else [PATCH] + [POST])
  }

  lemma PatchAndCreate(b: Bao, location: Location, key: string, value: string)
    ensures var (c, r) := Send(b, PATCH, location, key, value);
            var (d, result) := Create(c, location, key, value);
            !r.NoToken? ==> SentAtMost(b, d, false) && LoginsBounded(b, d, result)
  {
    var c := Send(b, PATCH, location, key, value).0;
    SendVerbs(b, PATCH, location, key, value);
    CreateBounds(c, location, key, value);
    SinceConcat(b, c, Create(c, location, key, value).0);
    PatchThen(Verbs(Since(c, Create(c, location, key, value).0)), [POST]);
  }

  /** One PATCH, or none when no token was to be had, and nothing after it. */
  lemma PatchAlone(b: Bao, location: Location, key: string, value: string)
    ensures var (c, r) := Send(b, PATCH, location, key, value);
            && SentAtMost(b, c, false)
            && c.logins - b.logins <= |Since(b, c)| + (if r.NoToken? then 1 else 0)
  {
    SendVerbs(b, PATCH, location, key, value);
    var c := Send(b, PATCH, location, key, value).0;
    assert |Verbs(Since(b, c))| == |Since(b, c)|;
  }

  lemma SecondAttempt(b: Bao, location: Location, key: string, value: string)
    ensures var (c, result) := WriteKey(b, location, key, value, true);
            SentAtMost(b, c, false) && LoginsBounded(b, c, result)
  {
    PatchAlone(b, location, key, value);
    PatchAndCreate(b, location, key, value);
  }

  /** Against a server that answers anything: a write is a PATCH possibly followed by a POST, or,
      after a login only, two PATCHes possibly followed by a POST with one invalidation of the token
      in between. It logs in at most once per request sent. */
  lemma WriteKeyBounds(b: Bao, location: Location, key: string, value: string)
    ensures var (c, result) := WriteKey(b, location, key, value, false);
            && LoginsBounded(b, c, result)
            && (SentAtMost(b, c, false) || (b.auth.Kubernetes? && SentAtMost(b, c, true)))
  {
    PatchAlone(b, location, key, value);
    PatchAndCreate(b, location, key, value);
    RetryBounds(b, location, key, value);
  }

  lemma RetryBounds(b: Bao, location: Location, key: string, value: string)
    ensures var (c, r) := Send(b, PATCH, location, key, value);
            var (d, result) := WriteKey(Invalidated(c), location, key, value, true);
            !r.NoToken? ==> SentAtMost(b, d, true) && LoginsBounded(b, d, result)
  {
    var c := Invalidated(Send(b, PATCH, location, key, value).0);
    var d := WriteKey(c, location, key, value, true).0;
    SendVerbs(b, PATCH, location, key, value);
    SecondAttempt(c, location, key, value);
    SinceConcat(b, c, d);
    PatchThen(Verbs(Since(c, d)), [PATCH] + [POST]);
  }

  // ------------------------------------------------------------------------
  // Tokens over every run

  predicate Granted(grants: seq<Grant>, t: Token) {
    exists g | g in grants :: g.token == t
  }

  /** A token from a login holds the text given and expires when its lease ends, counted from the reply,
      if there is a lease; one from a file holds the text trimmed and never expires. */
  predicate GrantOk(auth: Auth, g: Grant) {
    match auth
    case TokenFile => g.token.value == Trim(g.text) && g.token.expires.None?
    case Kubernetes =>
      && g.token.value == g.text
      && (g.token.expires.Some? <==> g.lease > 0)
      && (g.lease > 0 ==> g.token.expires.value == g.askedAt + g.took + g.lease * NANOS)
  }

  /** The cache holds a token that some login returned, and so did every request; each was chosen
      right after its login, or had no expiry, or more than the margin left. */
  predicate TokensSound(b: Bao) {
    && (b.cached.Some? ==> Granted(b.obtained, b.cached.value))
    && (forall q | q in b.requests :: Granted(b.obtained, q.token) && TokenOk(q))
    && (forall g | g in b.obtained :: GrantOk(b.auth, g))
  }

  lemma GrantedStep(grants: seq<Grant>, g: Grant)
    ensures Granted(grants + [g], g.token)
    ensures forall t | Granted(grants, t) :: Granted(grants + [g], t)
  {
    assert g in grants + [g];
    forall t | Granted(grants, t) ensures Granted(grants + [g], t) {
      var earlier :| earlier in grants && earlier.token == t;
      assert earlier in grants + [g];
    }
  }

  /** When a login happens: exactly when the cache is empty, or its token has 30 s or less left. Without
      one, the cached token is used; with one that succeeds, the new token, which is cached. */
  lemma LoginsOnlyWhenNeeded(b: Bao, reply: LoginReply)
    ensures var (c, token, justObtained) := Obtain(b, reply);
            var needed := b.cached.None? || (b.cached.value.expires.Some? && b.cached.value.expires.value <= b.clock + 30 * NANOS);
            && c.logins == b.logins + (if needed then 1 else 0)
            && (!needed ==> token == b.cached && c == b)
            && (needed ==> (token.Some? <==> reply.LoggedIn?))
            && (justObtained <==> needed && reply.LoggedIn?)
            && (token.Some? ==> c.cached == token)
            && (token.None? ==> c.cached == b.cached)
  {}

  lemma ObtainKeepsTokens(b: Bao, reply: LoginReply)
    requires TokensSound(b)
    ensures var (c, token, justObtained) := Obtain(b, reply);
            && TokensSound(c)
            && (token.Some? ==> Granted(c.obtained, token.value) && (justObtained || Usable(token.value, c.clock)))
  {
    var c := Obtain(b, reply).0;
    if c.obtained != b.obtained {
      GrantedStep(b.obtained, c.obtained[|b.obtained|]);
    }
  }

  lemma {:induction false} ShareKeepsTokens(b: Bao, uses: seq<CacheUse>)
    requires TokensSound(b)
    ensures TokensSound(Share(b, uses))
  {
    if uses != [] {
      var before, last := Share(b, uses[..|uses| - 1]), uses[|uses| - 1];
      ShareKeepsTokens(b, uses[..|uses| - 1]);
      if last.Obtains? {
        ObtainKeepsTokens(before, last.reply);
      }
    }
  }

  lemma SendKeepsTokens(b: Bao, verb: Method, location: Location, key: string, value: string)
    requires TokensSound(b)
    ensures TokensSound(Send(b, verb, location, key, value).0)
  {
    assert TokensSound(Advanced(b));
    ShareKeepsTokens(Advanced(b), Turn0(b).others);
    ObtainKeepsTokens(Arrive(b), Turn0(b).login);
  }

  lemma {:induction false} WriteKeyKeepsTokens(b: Bao, location: Location, key: string, value: string, retried: bool)
    requires TokensSound(b)
    ensures TokensSound(WriteKey(b, location, key, value, retried).0)
    decreases !retried
  {
    var (c, r) := Send(b, PATCH, location, key, value);
    SendKeepsTokens(b, PATCH, location, key, value);
    if r.Status? && !IsSuccess(r.code) {
      if r.code == 404 {
        SendKeepsTokens(c, POST, location, key, value);
      } else if r.code == 403 && !retried && c.auth.Kubernetes? {
        WriteKeyKeepsTokens(Invalidated(c), location, key, value, true);
      }
    }
  }

  // ------------------------------------------------------------------------
  // Effect of one write

  /** Nothing outside the location changes, no path disappears, and the key holds its old value or
      the new one. */
  ghost predicate OnlyTouches(s: Store, t: Store, location: Location, key: string, value: string) {
    && (forall l, k | l != location :: Lookup(t, l, k) == Lookup(s, l, k))
    && (Lookup(t, location, key) == Lookup(s, location, key) || Lookup(t, location, key) == Some(value))
    && s.Keys <= t.Keys <= s.Keys + {location}
  }

  /** The other keys at the location keep their values. */
  ghost predicate KeepsOthers(s: Store, t: Store, location: Location, key: string) {
    forall k | k != key :: Lookup(t, location, k) == Lookup(s, location, k)
  }

  /** A POST that was carried out on a path that existed: the server had just denied that it did, or
      someone else created it in between. */
  predicate Overwrote(requests: seq<Request>) {
    exists q | q in requests :: q.verb.POST? && q.applied && q.existed
  }

  predicate HasOthers(s: Store, location: Location, key: string) {
    location in s && exists k | k in s[location] :: k != key
  }

  lemma CarriedEffect(s: Store, verb: Method, location: Location, key: string, value: string)
    requires verb.POST? || location in s
    ensures var t := Carried(s, verb, location, key, value);
            && OnlyTouches(s, t, location, key, value)
            && Lookup(t, location, key) == Some(value)
            && (KeepsOthers(s, t, location, key) <==> verb.PATCH? || !HasOthers(s, location, key))
  {
    var t := Carried(s, verb, location, key, value);
    if verb.POST? && HasOthers(s, location, key) {
      var k :| k in s[location] && k != key;
      assert Lookup(t, location, k) != Lookup(s, location, k);
    }
  }

  lemma SendEffect(b: Bao, verb: Method, location: Location, key: string, value: string)
    ensures var (c, r) := Send(b, verb, location, key, value);
            && OnlyTouches(b.store, c.store, location, key, value)
            && b.requests <= c.requests
            && (r.Status? && IsSuccess(r.code) ==> Lookup(c.store, location, key) == Some(value))
            && (KeepsOthers(b.store, c.store, location, key) <==>
                !(Overwrote(Since(b, c)) && HasOthers(b.store, location, key)))
            && (verb.PATCH? ==> !Overwrote(Since(b, c)))
  {
    var (c, r) := Send(b, verb, location, key, value);
    SendFacts(b, verb, location, key, value);
    if r.NoToken? {
      assert Since(b, c) == [];
    } else {
      var q := c.requests[|c.requests| - 1];
      assert Since(b, c) == [q];
      if q.applied {
        CarriedEffect(b.store, verb, location, key, value);
      }
    }
  }

  lemma EffectsCompose(s: Store, t: Store, u: Store, location: Location, key: string, value: string)
    requires OnlyTouches(s, t, location, key, value) && OnlyTouches(t, u, location, key, value)
    ensures OnlyTouches(s, u, location, key, value)
    ensures KeepsOthers(s, t, location, key) ==>
              (KeepsOthers(s, u, location, key) <==> KeepsOthers(t, u, location, key))
    ensures KeepsOthers(s, t, location, key) ==> (HasOthers(s, location, key) <==> HasOthers(t, location, key))
  {
    if KeepsOthers(s, t, location, key) {
      if HasOthers(s, location, key) {
        var k :| k in s[location] && k != key;
        assert Lookup(t, location, k) == Lookup(s, location, k);
      }
      if HasOthers(t, location, key) {
        var k :| k in t[location] && k != key;
        assert Lookup(t, location, k) == Lookup(s, location, k);
      }
      if KeepsOthers(s, u, location, key) {
        forall k | k != key ensures Lookup(u, location, k) == Lookup(t, location, k) {
          assert Lookup(t, location, k) == Lookup(s, location, k);
        }
      }
      if KeepsOthers(t, u, location, key) {
        forall k | k != key ensures Lookup(u, location, k) == Lookup(s, location, k) {
          assert Lookup(t, location, k) == Lookup(s, location, k);
        }
      }
    }
  }

  /** After a write that succeeded, the key of the target holds the value; whatever happened, no
      other location changes. The other keys of the secret are kept if and only if no POST hit a path
      that existed and held some. */
  lemma {:induction false} WriteKeyEffect(b: Bao, location: Location, key: string, value: string, retried: bool)
    ensures var (c, result) := WriteKey(b, location, key, value, retried);
            && b.requests <= c.requests
            && OnlyTouches(b.store, c.store, location, key, value)
            && (result.Ok? ==> Lookup(c.store, location, key) == Some(value))
            && (KeepsOthers(b.store, c.store, location, key) <==>
                !(Overwrote(Since(b, c)) && HasOthers(b.store, location, key)))
    decreases !retried
  {
    var (c, r) := Send(b, PATCH, location, key, value);
    SendEffect(b, PATCH, location, key, value);
    if r.Status? && !IsSuccess(r.code) {
      if r.code == 404 {
        var d := Create(c, location, key, value).0;
        SendEffect(c, POST, location, key, value);
        SinceConcat(b, c, d);
        EffectsCompose(b.store, c.store, d.store, location, key, value);
      } else if r.code == 403 && !retried && c.auth.Kubernetes? {
        var d := WriteKey(Invalidated(c), location, key, value, true).0;
        WriteKeyEffect(Invalidated(c), location, key, value, true);
        SinceConcat(b, Invalidated(c), d);
        EffectsCompose(b.store, c.store, d.store, location, key, value);
      }
    }
  }

  /** The server never answers 404 for a path that exists. */
  predicate Truthful(turns: seq<Turn>) {
    forall t | t in turns :: t.verdict.Deny? ==> t.verdict.status != 404
  }

  lemma SendTurns(b: Bao, verb: Method, location: Location, key: string, value: string)
    ensures var (c, r) := Send(b, verb, location, key, value);
            && c.turns == Advanced(b).turns
            && (r.Status? ==> r == Answer(b.store, verb, location, Turn0(b).verdict))
  {
    ShareKeeps(Advanced(b), Turn0(b).others);
  }

  lemma OverwroteBySend(b: Bao, verb: Method, location: Location, key: string, value: string)
    ensures Overwrote(Since(b, Send(b, verb, location, key, value).0)) ==> verb.POST? && location in b.store
  {
    var (c, r) := Send(b, verb, location, key, value);
    SendFacts(b, verb, location, key, value);
    assert Since(b, c) == if r.NoToken? then [] else [c.requests[|c.requests| - 1]];
  }

  lemma SendTruth(b: Bao, verb: Method, location: Location, key: string, value: string)
    requires Truthful(b.turns)
    ensures var (c, r) := Send(b, verb, location, key, value);
            && Truthful(c.turns)
            && (verb.PATCH? && r.Status? && r.code == 404 ==> location !in c.store)
            && (verb.PATCH? || location !in b.store ==> !Overwrote(Since(b, c)))
  {
    SendTurns(b, verb, location, key, value);
    OverwroteBySend(b, verb, location, key, value);
    SendFacts(b, verb, location, key, value);
    assert b.turns != [] ==> b.turns[0] in b.turns;
  }

  /** Then no existing secret is ever overwritten. */
  lemma {:induction false} TruthfulNeverOverwrites(b: Bao, location: Location, key: string, value: string, retried: bool)
    requires Truthful(b.turns)
    ensures var c := WriteKey(b, location, key, value, retried).0;
            b.requests <= c.requests && Truthful(c.turns) && !Overwrote(Since(b, c))
    decreases !retried
  {
    var (c, r) := Send(b, PATCH, location, key, value);
    SendTruth(b, PATCH, location, key, value);
    SendEffect(b, PATCH, location, key, value);
    if r.Status? && !IsSuccess(r.code) {
      if r.code == 404 {
        SendTruth(c, POST, location, key, value);
        SendEffect(c, POST, location, key, value);
        SinceConcat(b, c, Create(c, location, key, value).0);
      } else if r.code == 403 && !retried && c.auth.Kubernetes? {
        TruthfulNeverOverwrites(Invalidated(c), location, key, value, true);
        SinceConcat(b, Invalidated(c), WriteKey(Invalidated(c), location, key, value, true).0);
      }
    }
  }

  // ------------------------------------------------------------------------
  // All targets of a rotation

  function ErrorText(e: TargetError): string {
    match e
    case Unconfigured => "target has no store configured"
    case LoginFailed(detail) => detail
    case RequestFailed => "OpenBao request failed"
    case WriteReturned(code, detail) => "OpenBao write returned " + Duration.Decimal(code) + ": " + detail
    case CreateReturned(code, detail) => "OpenBao create returned " + Duration.Decimal(code) + ": " + detail
  }

  /** The message tells a refused update from a refused creation, and ends with what the server said. */
  lemma ErrorTextTells(code: int, detail: string, code': int, detail': string)
    ensures ErrorText(WriteReturned(code, detail)) != ErrorText(CreateReturned(code', detail'))
    ensures var t := ErrorText(WriteReturned(code, detail)); |detail| <= |t| && t[|t| - |detail|..] == detail
    ensures var t := ErrorText(CreateReturned(code, detail)); |detail| <= |t| && t[|t| - |detail|..] == detail
  {
    assert ErrorText(WriteReturned(code, detail))[8] == 'w';
    assert ErrorText(CreateReturned(code', detail'))[8] == 'c';
  }

  /** The write loop of a rotation: each target once, in order, also after one has failed. */
  function WriteAll(b: Bao, targets: seq<TargetSpec>, value: string): (Bao, seq<Result<(), TargetError>>) {
    if targets == [] then (b, [])
    else
      var n := |targets| - 1;
      var (c, results) := WriteAll(b, targets[..n], value);
      var (d, result) := Write(c, targets[n], value);
      (d, results + [result])
  }

  /** The state in which target number `j` is written. */
  function Before(b: Bao, targets: seq<TargetSpec>, value: string, j: nat): Bao
    requires j <= |targets|
  {
    WriteAll(b, targets[..j], value).0
  }

  function OutcomeOf(target: TargetSpec, result: Result<(), TargetError>): TargetOutcome {
    TargetOutcome(target.Reference(), match result case Ok(_) => None case Err(e) => Some(ErrorText(e)))
  }

  /** What is reported about the targets. */
  function OutcomesOf(targets: seq<TargetSpec>, results: seq<Result<(), TargetError>>): (outcomes: seq<TargetOutcome>)
    requires |targets| == |results|
  {
    seq(|targets|, i requires 0 <= i < |targets| => OutcomeOf(targets[i], results[i]))
  }

  predicate Targets(t: TargetSpec, location: Location, key: string) {
    t.openbao.Some? && LocationOf(t.openbao.value) == location && t.openbao.value.key == key
  }

  predicate Targeted(targets: seq<TargetSpec>, location: Location, key: string) {
    exists t | t in targets :: Targets(t, location, key)
  }

  /** What one target's write leaves behind when nothing is overwritten. */
  lemma WriteFrame(b: Bao, target: TargetSpec, value: string, location: Location, key: string)
    ensures var (c, result) := Write(b, target, value);
            && b.requests <= c.requests
            && (!Overwrote(Since(b, c)) ==>
                  && (!Targets(target, location, key) ==> Lookup(c.store, location, key) == Lookup(b.store, location, key))
                  && (Targets(target, location, key) ==>
                        && Lookup(c.store, location, key) in {Lookup(b.store, location, key), Some(value)}
                        && (result.Ok? ==> Lookup(c.store, location, key) == Some(value))))
            && (result.Ok? ==> target.openbao.Some?)
  {
    match target.openbao {
      case Some(t) => WriteKeyEffect(b, LocationOf(t), t.key, value, false);
      case None => assert Since(b, b) == [];
    }
  }

  lemma {:induction false} WriteAllLog(b: Bao, targets: seq<TargetSpec>, value: string)
    ensures var (c, results) := WriteAll(b, targets, value);
            b.requests <= c.requests && |results| == |targets|
  {
    if targets != [] {
      var n := |targets| - 1;
      WriteAllLog(b, targets[..n], value);
      WriteFrame(WriteAll(b, targets[..n], value).0, targets[n], value, [], "");
    }
  }

  /** For a location and key that held `before` and hold `after`: if no target names it, it keeps
      what it held; otherwise it holds that or the new value, and the new value once any target
      naming it was written without error. */
  predicate Framed(before: Option<string>, after: Option<string>, named: seq<bool>, written: seq<bool>, value: string) {
    && |named| == |written|
    && (after == before || (true in named && after == Some(value)))
    && (forall i | 0 <= i < |named| && named[i] && written[i] :: after == Some(value))
  }

  lemma FramedStep(before: Option<string>, between: Option<string>, after: Option<string>,
                   named: seq<bool>, written: seq<bool>, value: string, n: bool, w: bool)
    requires Framed(before, between, named, written, value)
    requires after == between || (n && after == Some(value))
    requires n && w ==> after == Some(value)
    ensures Framed(before, after, named + [n], written + [w], value)
  {
    var names := named + [n];
    assert names[|named|] == n;
    if true in named {
      var i :| 0 <= i < |named| && named[i];
      assert names[i];
    }
  }

  function Named(targets: seq<TargetSpec>, location: Location, key: string): seq<bool> {
    seq(|targets|, i requires 0 <= i < |targets| => Targets(targets[i], location, key))
  }

  function WrittenOnes(results: seq<Result<(), TargetError>>): seq<bool> {
    seq(|results|, i requires 0 <= i < |results| => results[i].Ok?)
  }

  lemma NamedStep(targets: seq<TargetSpec>, location: Location, key: string)
    requires targets != []
    ensures var n := |targets| - 1;
            Named(targets, location, key) == Named(targets[..n], location, key) + [Targets(targets[n], location, key)]
  {}

  lemma WrittenStep(results: seq<Result<(), TargetError>>, r: Result<(), TargetError>)
    ensures WrittenOnes(results + [r]) == WrittenOnes(results) + [r.Ok?]
  {}

  lemma {:induction false} WriteAllFrame(b: Bao, targets: seq<TargetSpec>, value: string, location: Location, key: string)
    requires !Overwrote(Since(b, WriteAll(b, targets, value).0))
    ensures var (c, results) := WriteAll(b, targets, value);
            Framed(Lookup(b.store, location, key), Lookup(c.store, location, key),
                   Named(targets, location, key), WrittenOnes(results), value)
  {
    if targets == [] {
      assert WrittenOnes([]) == [] && Named([], location, key) == [];
    } else {
      var n := |targets| - 1;
      var (c, earlier) := WriteAll(b, targets[..n], value);
      var (d, result) := Write(c, targets[n], value);
      WriteAllLog(b, targets[..n], value);
      WriteFrame(c, targets[n], value, location, key);
      SinceConcat(b, c, d);
      WriteAllFrame(b, targets[..n], value, location, key);
      NamedStep(targets, location, key);
      WrittenStep(earlier, result);
      FramedStep(Lookup(b.store, location, key), Lookup(c.store, location, key), Lookup(d.store, location, key),
                 Named(targets[..n], location, key), WrittenOnes(earlier), value,
                 Targets(targets[n], location, key), result.Ok?);
    }
  }

  lemma {:induction false} TruthfulWriteAll(b: Bao, targets: seq<TargetSpec>, value: string)
    requires Truthful(b.turns)
    ensures var c := WriteAll(b, targets, value).0;
            b.requests <= c.requests && Truthful(c.turns) && !Overwrote(Since(b, c))
  {
    if targets == [] {
      assert Since(b, b) == [];
    } else {
      var n := |targets| - 1;
      var c := WriteAll(b, targets[..n], value).0;
      TruthfulWriteAll(b, targets[..n], value);
      match targets[n].openbao {
        case None =>
        case Some(t) =>
          TruthfulNeverOverwrites(c, LocationOf(t), t.key, value, false);
          SinceConcat(b, c, WriteAll(b, targets, value).0);
      }
    }
  }

  /** The key of the target holds the value. */
  predicate Holds(store: Store, target: TargetSpec, value: string) {
    && target.openbao.Some?
    && Lookup(store, LocationOf(target.openbao.value), target.openbao.value.key) == Some(value)
  }

  /** All of a rotation, against a server that is honest about what exists: afterwards every target
      that was written without error holds the new value, and every key at every path that no target
      names is as it was, also where several targets share a path that did not exist. */
  lemma RotationWritesExactlyTheTargets(b: Bao, targets: seq<TargetSpec>, value: string)
    requires Truthful(b.turns)
    ensures var (c, results) := WriteAll(b, targets, value);
            && |results| == |targets|
            && (forall l, k | !Targeted(targets, l, k) :: Lookup(c.store, l, k) == Lookup(b.store, l, k))
            && (forall i | 0 <= i < |targets| && results[i].Ok? :: Holds(c.store, targets[i], value))
  {
    var (c, results) := WriteAll(b, targets, value);
    TruthfulWriteAll(b, targets, value);
    WriteAllLog(b, targets, value);
    forall l, k | !Targeted(targets, l, k) ensures Lookup(c.store, l, k) == Lookup(b.store, l, k) {
      WriteAllFrame(b, targets, value, l, k);
      assert true !in Named(targets, l, k);
    }
    forall i | 0 <= i < |targets| && results[i].Ok?
      ensures Holds(c.store, targets[i], value)
    {
      EachTargetOnce(b, targets, value, i);
      var t := targets[i].openbao.value;
      WriteAllFrame(b, targets, value, LocationOf(t), t.key);
      assert Named(targets, LocationOf(t), t.key)[i] && WrittenOnes(results)[i];
    }
  }

  lemma WriteAllStep(b: Bao, targets: seq<TargetSpec>, value: string)
    requires targets != []
    ensures var n := |targets| - 1;
            var (c, results) := WriteAll(b, targets[..n], value);
            var (d, result) := Write(c, targets[n], value);
            WriteAll(b, targets, value) == (d, results + [result])
  {}

  /** One more target written, and its outcome reported. */
  lemma WriteNext(b: Bao, targets: seq<TargetSpec>, value: string, i: nat)
    requires i < |targets|
    ensures var (c, results) := WriteAll(b, targets[..i], value);
            var (d, result) := Write(c, targets[i], value);
            && |results| == i
            && WriteAll(b, targets[..i + 1], value) == (d, results + [result])
            && OutcomesOf(targets[..i + 1], results + [result]) ==
               OutcomesOf(targets[..i], results) + [OutcomeOf(targets[i], result)]
  {
    WriteAllLog(b, targets[..i], value);
    assert targets[..i + 1][..i] == targets[..i];
    WriteAllStep(b, targets[..i + 1], value);
  }

  lemma BeforeInit(b: Bao, targets: seq<TargetSpec>, value: string, j: nat)
    requires j < |targets|
    ensures Before(b, targets[..|targets| - 1], value, j) == Before(b, targets, value, j)
  {
    assert targets[..|targets| - 1][..j] == targets[..j];
  }

  /** Each target is written once, in order, also after one has failed: result number `i` is that of
      writing target number `i` after those before it. */
  lemma {:induction false} EachTargetOnce(b: Bao, targets: seq<TargetSpec>, value: string, i: nat)
    requires i < |targets|
    ensures |WriteAll(b, targets, value).1| == |targets|
    ensures WriteAll(b, targets, value).1[i] == Write(Before(b, targets, value, i), targets[i], value).1
  {
    var n := |targets| - 1;
    WriteAllLog(b, targets[..n], value);
    WriteAllStep(b, targets, value);
    if i < n {
      EachTargetOnce(b, targets[..n], value, i);
      BeforeInit(b, targets, value, i);
    }
  }

  /** The outcomes carry the references of the targets, in their order. */
  lemma {:induction false} OutcomeReferences(targets: seq<TargetSpec>, results: seq<Result<(), TargetError>>)
    requires |targets| == |results|
    ensures OutcomeRefs(OutcomesOf(targets, results)) == Validation.References(targets)
  {
    if targets != [] {
      var n := |targets| - 1;
      OutcomeReferences(targets[..n], results[..n]);
      var refs := OutcomeRefs(OutcomesOf(targets, results));
      assert refs[..n] == OutcomeRefs(OutcomesOf(targets[..n], results[..n]));
      assert refs == refs[..n] + [refs[n]];
    }
  }

  lemma {:induction false} WriteAllKeepsTokens(b: Bao, targets: seq<TargetSpec>, value: string)
    requires TokensSound(b)
    ensures TokensSound(WriteAll(b, targets, value).0)
  {
    if targets != [] {
      var n := |targets| - 1;
      WriteAllKeepsTokens(b, targets[..n], value);
      match targets[n].openbao {
        case None =>
        case Some(t) => WriteKeyKeepsTokens(WriteAll(b, targets[..n], value).0, LocationOf(t), t.key, value, false);
      }
    }
  }

  /** Any number of rotations, one after the other, each with its own targets and value. */
  function WriteRotations(b: Bao, rotations: seq<(seq<TargetSpec>, string)>): Bao {
    if rotations == [] then b
    else
      var n := |rotations| - 1;
      WriteAll(WriteRotations(b, rotations[..n]), rotations[n].0, rotations[n].1).0
  }

  /** Over every run that shares the token cache with other tasks, starting with an empty one: every
      request carries a token that some login returned, and that was then new, or had no expiry, or
      had more than the margin left. */
  lemma {:induction false} EveryTokenIsSound(b: Bao, rotations: seq<(seq<TargetSpec>, string)>)
    requires b.cached == None && b.requests == [] && b.obtained == []
    ensures TokensSound(WriteRotations(b, rotations))
  {
    if rotations != [] {
      var n := |rotations| - 1;
      EveryTokenIsSound(b, rotations[..n]);
      WriteAllKeepsTokens(WriteRotations(b, rotations[..n]), rotations[n].0, rotations[n].1);
    }
  }

  /** The HTTP client's timeout, for logins as for writes. */
  const HTTP_TIMEOUT: int := 10 * NANOS

  /** The recorded expiry counts from the reply to the login, but the lease may start as early as the
      login was sent. The margin covers that and the request itself: over every run, a request that
      took its token from the cache is over before the lease of that token ends, if neither the login
      nor the request took longer than the client's timeout. */
  lemma CachedTokenOutlivesItsRequest(b: Bao, rotations: seq<(seq<TargetSpec>, string)>, q: Request)
    requires b.cached == None && b.requests == [] && b.obtained == []
    requires q in WriteRotations(b, rotations).requests && !q.justObtained && q.token.expires.Some?
    ensures var grants := WriteRotations(b, rotations).obtained;
            && Granted(grants, q.token)
            && forall g | g in grants && g.token == q.token && g.took <= HTTP_TIMEOUT ::
                 q.chosenAt + HTTP_TIMEOUT < g.askedAt + g.lease * NANOS
  {
    EveryTokenIsSound(b, rotations);
    var c := WriteRotations(b, rotations);
    assert TokenOk(q);
    assert forall g | g in c.obtained :: GrantOk(c.auth, g);
  }

  // ------------------------------------------------------------------------
  // Independence of the value

  /** Two worlds that differ at most in the values that secrets hold. */
  predicate Alike(b: Bao, c: Bao) {
    && b.store.Keys == c.store.Keys
    && b.auth == c.auth && b.cached == c.cached && b.clock == c.clock && b.turns == c.turns
    && b.obtained == c.obtained && b.logins == c.logins && b.invalidations == c.invalidations
    && b.requests == c.requests
  }

  lemma {:induction false} ShareAlike(b: Bao, c: Bao, uses: seq<CacheUse>)
    requires Alike(b, c)
    ensures Alike(Share(b, uses), Share(c, uses))
  {
    if uses != [] {
      var n := |uses| - 1;
      ShareAlike(b, c, uses[..n]);
      if uses[n].Obtains? {
        ObtainAlike(Share(b, uses[..n]), Share(c, uses[..n]), uses[n].reply);
      }
    }
  }

  lemma ObtainAlike(b: Bao, c: Bao, reply: LoginReply)
    requires Alike(b, c)
    ensures Alike(Obtain(b, reply).0, Obtain(c, reply).0)
    ensures Obtain(b, reply).1 == Obtain(c, reply).1 && Obtain(b, reply).2 == Obtain(c, reply).2
  {}

  lemma DeliverAlike(b: Bao, c: Bao, token: Token, justObtained: bool, verdict: Verdict,
                     verb: Method, location: Location, key: string, v: string, w: string)
    requires Alike(b, c)
    ensures Alike(Deliver(b, token, justObtained, verdict, verb, location, key, v).0,
                  Deliver(c, token, justObtained, verdict, verb, location, key, w).0)
    ensures Deliver(b, token, justObtained, verdict, verb, location, key, v).1
         == Deliver(c, token, justObtained, verdict, verb, location, key, w).1
  {}

  lemma SendAlike(b: Bao, c: Bao, verb: Method, location: Location, key: string, v: string, w: string)
    requires Alike(b, c)
    ensures Alike(Send(b, verb, location, key, v).0, Send(c, verb, location, key, w).0)
    ensures Send(b, verb, location, key, v).1 == Send(c, verb, location, key, w).1
  {
    var turn := Turn0(b);
    ShareAlike(Advanced(b), Advanced(c), turn.others);
    ObtainAlike(Arrive(b), Arrive(c), turn.login);
    var (b', token, justObtained) := Obtain(Arrive(b), turn.login);
    if token.Some? {
      DeliverAlike(b', Obtain(Arrive(c), turn.login).0, token.value, justObtained, turn.verdict, verb, location, key, v, w);
    }
  }

  lemma {:induction false} WriteKeyAlike(b: Bao, c: Bao, location: Location, key: string, v: string, w: string, retried: bool)
    requires Alike(b, c)
    ensures Alike(WriteKey(b, location, key, v, retried).0, WriteKey(c, location, key, w, retried).0)
    ensures WriteKey(b, location, key, v, retried).1 == WriteKey(c, location, key, w, retried).1
    decreases !retried
  {
    var (b', r) := Send(b, PATCH, location, key, v);
    var (c', _) := Send(c, PATCH, location, key, w);
    SendAlike(b, c, PATCH, location, key, v, w);
    if r.Status? && !IsSuccess(r.code) {
      if r.code == 404 {
        SendAlike(b', c', POST, location, key, v, w);
      } else if r.code == 403 && !retried && b'.auth.Kubernetes? {
        WriteKeyAlike(Invalidated(b'), Invalidated(c'), location, key, v, w, true);
      }
    }
  }

  /** Requests, tokens and results of writing all targets do not depend on the value written nor on
      any value stored. */
  lemma {:induction false} WriteAllAlike(b: Bao, c: Bao, targets: seq<TargetSpec>, v: string, w: string)
    requires Alike(b, c)
    ensures Alike(WriteAll(b, targets, v).0, WriteAll(c, targets, w).0)
    ensures WriteAll(b, targets, v).1 == WriteAll(c, targets, w).1
  {
    if targets != [] {
      var n := |targets| - 1;
      WriteAllAlike(b, c, targets[..n], v, w);
      match targets[n].openbao {
        case None =>
        case Some(t) =>
          WriteKeyAlike(WriteAll(b, targets[..n], v).0, WriteAll(c, targets[..n], w).0, LocationOf(t), t.key, v, w, false);
      }
    }
  }

  // ------------------------------------------------------------------------
  // Which token is used

  /** No other task uses the cache. */
  predicate Alone(turns: seq<Turn>) {
    forall t | t in turns :: t.others == []
  }

  lemma ArriveAlone(b: Bao)
    requires Alone(b.turns)
    ensures Arrive(b) == Advanced(b) && Alone(Advanced(b).turns)
  {
    assert b.turns != [] ==> b.turns[0] in b.turns;
    assert b.turns != [] ==> forall t | t in b.turns[1..] :: t in b.turns;
  }

  /** After the 403 a new token is obtained, whatever was cached, before anything else is sent. */
  lemma RetryUsesNewToken(b: Bao, location: Location, key: string, value: string)
    requires Alone(b.turns)
    ensures var (c, r) := Send(Invalidated(b), PATCH, location, key, value);
            && c.logins == b.logins + 1
            && (!r.NoToken? ==> c.requests != [] && c.requests[|c.requests| - 1].justObtained)
  {
    ArriveAlone(Invalidated(b));
  }

  /** Once a token without expiry is cached, and nobody invalidates it, a rotation with a token file
      logs in no more: all requests carry that token. */
  lemma {:induction false} FileTokenServesAll(b: Bao, targets: seq<TargetSpec>, value: string, t: Token)
    requires b.auth.TokenFile? && b.cached == Some(t) && t.expires.None? && Alone(b.turns)
    ensures var c := WriteAll(b, targets, value).0;
            && c.logins == b.logins && c.cached == Some(t) && c.auth == b.auth && Alone(c.turns)
            && b.requests <= c.requests
            && (forall q | q in Since(b, c) :: q.token == t && !q.justObtained)
  {
    if targets != [] {
      var n := |targets| - 1;
      var c := WriteAll(b, targets[..n], value).0;
      FileTokenServesAll(b, targets[..n], value, t);
      match targets[n].openbao {
        case None =>
        case Some(o) =>
          FileTokenServesWrite(c, LocationOf(o), o.key, value, t);
          SinceConcat(b, c, WriteKey(c, LocationOf(o), o.key, value, false).0);
      }
    } else {
      assert Since(b, b) == [];
    }
  }

  lemma FileTokenServesSend(b: Bao, verb: Method, location: Location, key: string, value: string, t: Token)
    requires b.auth.TokenFile? && b.cached == Some(t) && t.expires.None? && Alone(b.turns)
    ensures var (c, r) := Send(b, verb, location, key, value);
            && c.logins == b.logins && c.cached == Some(t) && c.auth == b.auth && Alone(c.turns)
            && b.requests <= c.requests
            && (forall q | q in Since(b, c) :: q.token == t && !q.justObtained)
  {
    ArriveAlone(b);
    SendFacts(b, verb, location, key, value);
    var c := Send(b, verb, location, key, value).0;
    assert Since(b, c) == [c.requests[|c.requests| - 1]];
  }

  lemma FileTokenServesWrite(b: Bao, location: Location, key: string, value: string, t: Token)
    requires b.auth.TokenFile? && b.cached == Some(t) && t.expires.None? && Alone(b.turns)
    ensures var c := WriteKey(b, location, key, value, false).0;
            && c.logins == b.logins && c.cached == Some(t) && c.auth == b.auth && Alone(c.turns)
            && b.requests <= c.requests
            && (forall q | q in Since(b, c) :: q.token == t && !q.justObtained)
  {
    var c := Send(b, PATCH, location, key, value).0;
    FileTokenServesSend(b, PATCH, location, key, value, t);
    FileTokenServesSend(c, POST, location, key, value, t);
    SinceConcat(b, c, Send(c, POST, location, key, value).0);
  }
}
