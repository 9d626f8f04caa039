// src/targets/openbao.rs: the KV v2 writer. It only ever sends PATCH and POST for secrets and POST
// for logins; the server may answer each request with any status.
module OpenBao {
  import opened Text
  import opened Wrappers
  import opened Sequences
  import opened Crd

  // ------------------------------------------------------------------------
  // Locations

  /** Segments of an API path. */
  type Location = seq<string>

  /** Pushing an empty segment is skipped by the code, and "." and ".." by the URL library. */
  predicate IsPushed(segment: string) {
    segment != "" && segment != "." && segment != ".."
  }

  function Parts(s: string): seq<string> {
    Filter(Split(s), IsPushed)
  }

  function PathOf(segments: seq<string>): Location {
    if segments == [] then ["v1"] else PathOf(segments[..|segments| - 1]) + Parts(segments[|segments| - 1])
  }

  /** Where the key of a target is stored. */
  function LocationOf(t: OpenBaoTarget): Location {
    ["v1"] + Parts(t.mount) + ["data"] + Parts(t.path)
  }

  /** `url`, without scheme, host and base path. */
  method Url(segments: seq<string>) returns (path: Location)
    ensures path == PathOf(segments)
  {
    path := ["v1"];
    for i := 0 to |segments|
      invariant path == PathOf(segments[..i])
    {
      path := PushParts(path, Split(segments[i]));
      assert segments[..i + 1] == segments[..i] + [segments[i]];
      PathOfStep(segments[..i], segments[i]);
    }
    assert segments[..|segments|] == segments;
  }

  /** The inner loop. */
  method PushParts(before: Location, parts: seq<string>) returns (path: Location)
    ensures path == before + Filter(parts, IsPushed)
  {
    path := before;
    for k := 0 to |parts|
      invariant path == before + Filter(parts[..k], IsPushed)
    {
      FilterStep(parts[..k], parts[k], IsPushed);
      assert parts[..k] + [parts[k]] == parts[..k + 1];
      if IsPushed(parts[k]) {
        path := path + [parts[k]];
      }
    }
    assert parts[..|parts|] == parts;
  }

  lemma PathOfStep(segments: seq<string>, last: string)
    ensures PathOf(segments + [last]) == PathOf(segments) + Parts(last)
  {
    assert (segments + [last])[..|segments|] == segments;
  }

  lemma PartsOfSegment(s: string)
    requires '/' !in s
    ensures Parts(s) == if IsPushed(s) then [s] else []
  {
    SplitWhole(s);
    FilterOne(s, IsPushed);
  }

  lemma PathOfThree(a: string, b: string, c: string)
    ensures PathOf([a, b, c]) == ["v1"] + Parts(a) + Parts(b) + Parts(c)
  {
    PathOfStep([], a);
    PathOfStep([a], b);
    PathOfStep([a, b], c);
    assert [] + [a] == [a] && [a] + [b] == [a, b] && [a, b] + [c] == [a, b, c];
  }

  lemma DataUrl(t: OpenBaoTarget)
    ensures PathOf([t.mount, "data", t.path]) == LocationOf(t)
  {
    PathOfThree(t.mount, "data", t.path);
    PartsOfData("data");
  }

  lemma PartsOfData(s: string)
    requires s == "data"
    ensures Parts(s) == [s]
  {
    PartsOfSegment(s);
  }

  // ------------------------------------------------------------------------
  // The world: clock, token cache, server

  type Secret = map<string, string>
  type Store = map<Location, Secret>

  datatype Auth = Kubernetes | TokenFile

  datatype Token = Token(value: string, expires: Option<int>)

  /** Thirty seconds, in the clock's nanoseconds. */
  const TOKEN_MARGIN: int := 30 * NANOS

  /** Reply to a login: the token and its lease in seconds, after some time on the way. */
  datatype LoginReply = LoggedIn(token: string, lease: nat, takes: nat) | LoginDenied(detail: string)

  type ErrorStatus = code: int | code < 200 || 300 <= code witness 500

  /** Log entry of a successful login: the token made of it, when it was sent, how long it was on the
      way, and the text and the lease that the server gave; the lease starts no earlier than the login
      was sent. */
  datatype Grant = Grant(token: Token, askedAt: int, took: nat, text: string, lease: nat)

  /** What the server does with a request: carry it out, refuse it, or let the connection break. */
  datatype Verdict = Allow | Deny(status: ErrorStatus, detail: string) | Break(applied: bool)

  /** Other tasks that share the token cache. */
  datatype CacheUse = Invalidates | Obtains(reply: LoginReply)

  /** What happens around one request. */
  datatype Turn = Turn(elapsed: nat, others: seq<CacheUse>, login: LoginReply, verdict: Verdict)

  const NO_TURN := Turn(0, [], LoginDenied(""), Break(false))

  datatype Method = PATCH | POST

  /** Log entry of a request that reached the server: with which token, chosen when and how, and
      what it found and did. */
  datatype Request = Request(
    verb: Method,
    location: Location,
    token: Token,
    chosenAt: int,
    justObtained: bool,
    existed: bool,
    applied: bool)

  datatype Bao = Bao(
    auth: Auth,
    cached: Option<Token>,
    clock: int,
    store: Store,
    turns: seq<Turn>,
    obtained: seq<Grant>,
    logins: nat,
    invalidations: nat,
    requests: seq<Request>)

  function Turn0(b: Bao): Turn {
    if b.turns == [] then NO_TURN else b.turns[0]
  }

  // ------------------------------------------------------------------------
  // Tokens

  predicate Usable(t: Token, now: int) {
    match t.expires
    case None => true
    case Some(e) => now + TOKEN_MARGIN < e
  }

  /** `login`: a token file never expires, a lease of zero neither. */
  function Fresh(auth: Auth, token: string, lease: nat, now: int): Token {
    match auth
    case TokenFile => Token(Trim(token), None)
    case Kubernetes => Token(token, if lease > 0 then Some(now + lease * NANOS) else None)
  }

  /** `token`, under the lock: the cached one while it is usable, a new one otherwise. */
  function Obtain(b: Bao, reply: LoginReply): (Bao, Option<Token>, bool) {
    if b.cached.Some? && Usable(b.cached.value, b.clock) then (b, b.cached, false)
    else
      var tried := b.(logins := b.logins + 1);
      match reply
      case LoginDenied(_) => (tried, None, false)
      case LoggedIn(value, lease, takes) =>
        var now := b.clock + takes;
        var renewed := Fresh(b.auth, value, lease, now);
        (tried.(cached := Some(renewed), clock := now, obtained := b.obtained + [Grant(renewed, b.clock, takes, value, lease)]),
         Some(renewed), true)
  }

  /** What other tasks do to the cache; their logins are not counted as ours. */
  function Share(b: Bao, uses: seq<CacheUse>): Bao {
    if uses == [] then b
    else
      var before := Share(b, uses[..|uses| - 1]);
      match uses[|uses| - 1]
      case Invalidates => before.(cached := None)
      case Obtains(reply) => Obtain(before, reply).0.(logins := before.logins)
  }

  // ------------------------------------------------------------------------
  // Requests

  datatype Response = Status(code: int, detail: string) | NoToken(detail: string) | Broken

  predicate IsSuccess(code: int) {
    200 <= code < 300
  }

  /** PATCH merges into a secret that exists; POST stores a new version with this key alone. */
  function Carried(store: Store, verb: Method, location: Location, key: string, value: string): Store {
    match verb
    case PATCH => if location in store then store[location := store[location][key := value]] else store
    case POST => store[location := map[key := value]]
  }

  predicate Applies(store: Store, verb: Method, location: Location, verdict: Verdict) {
    && (verb.POST? || location in store)
    && (verdict.Allow? || (verdict.Break? && verdict.applied))
  }

  function Answer(store: Store, verb: Method, location: Location, verdict: Verdict): Response {
    match verdict
    case Allow => if verb.PATCH? && location !in store then Status(404, "not found") else Status(200, "")
    case Deny(code, detail) => Status(code, detail)
    case Break(_) => Broken
  }

  /** The cache as `send` finds it, and the turn it uses up. */
  function Arrive(b: Bao): Bao {
    var turn := Turn0(b);
    Share(b.(clock := b.clock + turn.elapsed, turns := if b.turns == [] then [] else b.turns[1..]), turn.others)
  }

  /** The request reaches the server, or breaks on the way. */
  function Deliver(b: Bao, token: Token, justObtained: bool, verdict: Verdict,
                   verb: Method, location: Location, key: string, value: string): (Bao, Response)
  {
    var applied := Applies(b.store, verb, location, verdict);
    (b.(store := if applied then Carried(b.store, verb, location, key, value) else b.store,
        requests := b.requests + [Request(verb, location, token, b.clock, justObtained, location in b.store, applied)]),
     Answer(b.store, verb, location, verdict))
  }

  function LoginDetail(reply: LoginReply): string {
    match reply
    case LoginDenied(detail) => detail
    case LoggedIn(_, _, _) => ""
  }

  /** `send`. */
  function Send(b: Bao, verb: Method, location: Location, key: string, value: string): (Bao, Response) {
    var turn := Turn0(b);
    var (c, token, justObtained) := Obtain(Arrive(b), turn.login);
    match token
    case None => (c, NoToken(LoginDetail(turn.login)))
    case Some(t) => Deliver(c, t, justObtained, turn.verdict, verb, location, key, value)
  }

  datatype TargetError =
    | Unconfigured
    | LoginFailed(detail: string)
    | RequestFailed
    | WriteReturned(code: int, detail: string)
    | CreateReturned(code: int, detail: string)

  /** `token().await?` and the transport error of `send`. */
  function SendError(r: Response): TargetError {
    match r
    case NoToken(detail) => LoginFailed(detail)
    case _ => RequestFailed
  }

  function Invalidated(b: Bao): Bao {
    b.(cached := None, invalidations := b.invalidations + 1)
  }

  /** A missing path is created. */
  function Create(b: Bao, location: Location, key: string, value: string): (Bao, Result<(), TargetError>) {
    var (c, r) := Send(b, POST, location, key, value);
    (c, match r
        case Status(code, detail) => if IsSuccess(code) then Ok(()) else Err(CreateReturned(code, detail))
        case _ => Err(SendError(r)))
  }

  /** `write_key`: PATCH; on 404 POST; on the first 403 drop the token, if it came from a login, and
      PATCH once more. */
  function WriteKey(b: Bao, location: Location, key: string, value: string, retried: bool)
    : (Bao, Result<(), TargetError>)
    decreases !retried
  {
    var (c, r) := Send(b, PATCH, location, key, value);
    match r
    case Status(code, detail) =>
      if IsSuccess(code) then (c, Ok(()))
      else if code == 404 then Create(c, location, key, value)
      else if code == 403 && !retried && c.auth.Kubernetes? then WriteKey(Invalidated(c), location, key, value, true)
      else (c, Err(WriteReturned(code, detail)))
    case _ => (c, Err(SendError(r)))
  }

  /** `TargetWriter::write`. */
  function Write(b: Bao, target: TargetSpec, value: string): (Bao, Result<(), TargetError>) {
    match target.openbao
    case Some(t) => WriteKey(b, LocationOf(t), t.key, value, false)
    case None => (b, Err(Unconfigured))
  }

  // ------------------------------------------------------------------------
  // The code, which keeps the token in a shared cell

  class Client {
    const auth: Auth
    var cached: Option<Token>
    var clock: int
    var store: Store
    var turns: seq<Turn>
    var obtained: seq<Grant>
    var logins: nat
    var invalidations: nat
    var requests: seq<Request>

    function View(): Bao
      reads this
    {
      Bao(auth, cached, clock, store, turns, obtained, logins, invalidations, requests)
    }

    constructor (b: Bao)
      ensures View() == b
    {
      auth, cached, clock, store, turns := b.auth, b.cached, b.clock, b.store, b.turns;
      obtained, logins, invalidations, requests := b.obtained, b.logins, b.invalidations, b.requests;
    }

    /** Time passes and other tasks use the cache. */
    method Pass() returns (turn: Turn)
      modifies this`cached, this`clock, this`turns, this`obtained
      ensures turn == Turn0(old(View())) && View() == Arrive(old(View()))
    {
      turn := Turn0(View());
      var next := Arrive(View());
      ShareKeeps(View().(clock := clock + turn.elapsed, turns := if turns == [] then [] else turns[1..]), turn.others);
      cached, clock, turns, obtained := next.cached, next.clock, next.turns, next.obtained;
    }

    method GetToken(reply: LoginReply) returns (token: Option<Token>, justObtained: bool)
      modifies this`cached, this`clock, this`obtained, this`logins
      ensures (View(), token, justObtained) == Obtain(old(View()), reply)
    {
      if cached.Some? && (cached.value.expires.None? || clock + TOKEN_MARGIN < cached.value.expires.value) {
        return cached, false;
      }
      logins := logins + 1;
      match reply {
        case LoginDenied(_) =>
          return None, false;
        case LoggedIn(value, lease, takes) =>
          var asked := clock;
          clock := clock + takes;
          var renewed :=
            if auth.TokenFile? then Token(Trim(value), None)
            else Token(value, if lease > 0 then Some(clock + lease * NANOS) else None);
          cached, obtained := Some(renewed), obtained + [Grant(renewed, asked, takes, value, lease)];
          return Some(renewed), true;
      }
    }

    method Invalidate()
      modifies this`cached, this`invalidations
      ensures View() == Invalidated(old(View()))
    {
      cached := None;
      invalidations := invalidations + 1;
    }

    method SendRequest(verb: Method, location: Location, key: string, value: string) returns (r: Response)
      modifies this
      ensures (View(), r) == Send(old(View()), verb, location, key, value)
    {
      var turn := Pass();
      var token, justObtained := GetToken(turn.login);
      if token.None? {
        return NoToken(LoginDetail(turn.login));
      }
      r := Answer(store, verb, location, turn.verdict);
      var applied := Applies(store, verb, location, turn.verdict);
      requests := requests + [Request(verb, location, token.value, clock, justObtained, location in store, applied)];
      if applied {
        store := Carried(store, verb, location, key, value);
      }
    }

    /** The loop of `write_key`. */
    method WriteSecret(t: OpenBaoTarget, value: string) returns (result: Result<(), TargetError>)
      modifies this
      ensures (View(), result) == WriteKey(old(View()), LocationOf(t), t.key, value, false)
    {
      DataUrl(t);
      var url := Url([t.mount, "data", t.path]);
      var retriedLogin := false;
      while true
        invariant WriteKey(View(), url, t.key, value, retriedLogin) == WriteKey(old(View()), url, t.key, value, false)
        decreases !retriedLogin
      {
        var r := SendRequest(PATCH, url, t.key, value);
        match r {
          case Status(code, detail) =>
            if IsSuccess(code) {
              return Ok(());
            } else if code == 404 {
              var created := SendRequest(POST, url, t.key, value);
              match created {
                case Status(code', detail') =>
                  return if IsSuccess(code') then Ok(()) else Err(CreateReturned(code', detail'));
                case _ =>
                  return Err(SendError(created));
              }
            } else if code == 403 && !retriedLogin && auth.Kubernetes? {
              retriedLogin := true;
              Invalidate();
            } else {
              return Err(WriteReturned(code, detail));
            }
          case _ =>
            return Err(SendError(r));
        }
      }
    }

    method WriteTarget(target: TargetSpec, value: string) returns (result: Result<(), TargetError>)
      modifies this
      ensures (View(), result) == Write(old(View()), target, value)
    {
      match target.openbao {
        case Some(t) => result := WriteSecret(t, value);
        case None => result := Err(Unconfigured);
      }
    }
  }

  // ------------------------------------------------------------------------
  // What sharing leaves alone

  lemma {:induction false} ShareKeeps(b: Bao, uses: seq<CacheUse>)
    ensures var c := Share(b, uses);
            && c.auth == b.auth && c.store == b.store && c.turns == b.turns && c.logins == b.logins
            && c.invalidations == b.invalidations && c.requests == b.requests
            && b.clock <= c.clock && b.obtained <= c.obtained
  {
    if uses != [] {
      ShareKeeps(b, uses[..|uses| - 1]);
    }
  }
}
