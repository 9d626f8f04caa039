// The promise that a write keeps the other keys of a secret: exactly when it holds, told by what the
// server is going to answer.
module OtherKeys {
  import opened Wrappers
  import opened Crd
  import opened OpenBao
  import opened WriterFacts

  // ------------------------------------------------------------------------
  // What is known before a request is sent

  /** The token for the next request, if one is to be had. */
  function NextToken(b: Bao): Option<Token> {
    Obtain(Arrive(b), Turn0(b).login).1
  }

  /** The state in which the next request leaves, or in which its login has failed. */
  function Ready(b: Bao): Bao {
    Obtain(Arrive(b), Turn0(b).login).0
  }

  /** The server refuses the next request with the given status. */
  predicate Denied(b: Bao, code: int) {
    NextToken(b).Some? && Turn0(b).verdict.Deny? && Turn0(b).verdict.status == code
  }

  /** The server carries out the next request, whether or not the reply arrives. */
  predicate Lands(b: Bao) {
    NextToken(b).Some? && (Turn0(b).verdict.Allow? || Turn0(b).verdict == Break(true))
  }

  predicate DeniedThenCreated(b: Bao) {
    Denied(b, 404) && Lands(Ready(b))
  }

  /** A write that finds its path is going to replace the secret: the server answers 404 to the PATCH
      and carries out the POST, at once or after a 403 that made it log in anew. */
  predicate Clobbers(b: Bao, retried: bool) {
    || DeniedThenCreated(b)
    || (!retried && b.auth.Kubernetes? && Denied(b, 403) && DeniedThenCreated(Invalidated(Ready(b))))
  }

  // ------------------------------------------------------------------------
  // The log of requests decides nothing

  function WithLog(b: Bao, log: seq<Request>): Bao {
    b.(requests := log)
  }

  lemma ObtainIgnoresLog(b: Bao, reply: LoginReply, log: seq<Request>)
    ensures Obtain(WithLog(b, log), reply).0 == WithLog(Obtain(b, reply).0, log)
    ensures Obtain(WithLog(b, log), reply).1 == Obtain(b, reply).1
  {}

  lemma {:induction false} ShareIgnoresLog(b: Bao, uses: seq<CacheUse>, log: seq<Request>)
    ensures Share(WithLog(b, log), uses) == WithLog(Share(b, uses), log)
  {
    if uses != [] {
      var n := |uses| - 1;
      ShareIgnoresLog(b, uses[..n], log);
      if uses[n].Obtains? {
        ObtainIgnoresLog(Share(b, uses[..n]), uses[n].reply, log);
      }
    }
  }

  lemma ArriveIgnoresLog(b: Bao, log: seq<Request>)
    ensures Arrive(WithLog(b, log)) == WithLog(Arrive(b), log)
  {
    assert Advanced(WithLog(b, log)) == WithLog(Advanced(b), log);
    ShareIgnoresLog(Advanced(b), Turn0(b).others, log);
  }

  lemma ReadyIgnoresLog(b: Bao, log: seq<Request>)
    ensures Ready(WithLog(b, log)) == WithLog(Ready(b), log)
    ensures NextToken(WithLog(b, log)) == NextToken(b)
  {
    ArriveIgnoresLog(b, log);
    ObtainIgnoresLog(Arrive(b), Turn0(b).login, log);
  }

  lemma ClobbersIgnoresLog(b: Bao, log: seq<Request>)
    ensures Lands(WithLog(b, log)) == Lands(b)
    ensures DeniedThenCreated(WithLog(b, log)) == DeniedThenCreated(b)
  {
    ReadyIgnoresLog(b, log);
    ReadyIgnoresLog(Ready(b), log);
  }

  // ------------------------------------------------------------------------
  // One write

  lemma SendDenied(b: Bao, verb: Method, location: Location, key: string, value: string)
    requires verb.PATCH? ==> location in b.store
    ensures var (c, r) := Send(b, verb, location, key, value);
            && c.auth == b.auth
            && (forall code | code == 404 || code == 403 ::
                  (r.Status? && r.code == code && !IsSuccess(r.code)) <==> Denied(b, code))
            && (Denied(b, 404) || Denied(b, 403) ==>
                  c.store == b.store && c == WithLog(Ready(b), c.requests))
            && (Lands(b) ==> c.store == Carried(b.store, verb, location, key, value))
            && (!Lands(b) ==> c.store == b.store)
  {
    ShareKeeps(Advanced(b), Turn0(b).others);
  }

  /** The path stays, and its secret is replaced or its other keys are kept. */
  lemma {:induction false} ClobbersDecides(b: Bao, location: Location, key: string, value: string, retried: bool)
    requires location in b.store
    ensures var c := WriteKey(b, location, key, value, retried).0;
            && location in c.store
            && (Clobbers(b, retried) ==> c.store[location] == map[key := value])
            && (!Clobbers(b, retried) ==> KeepsOthers(b.store, c.store, location, key))
    decreases !retried
  {
    var c := Send(b, PATCH, location, key, value).0;
    SendDenied(b, PATCH, location, key, value);
    if Denied(b, 404) {
      SendDenied(c, POST, location, key, value);
      ClobbersIgnoresLog(Ready(b), c.requests);
    } else if Denied(b, 403) && !retried && b.auth.Kubernetes? {
      ClobbersDecides(Invalidated(c), location, key, value, true);
      assert Invalidated(c) == WithLog(Invalidated(Ready(b)), c.requests);
      ClobbersIgnoresLog(Invalidated(Ready(b)), c.requests);
    }
  }

  /** The documented promise, exactly: the other keys of the secret keep their values, unless there
      are some and the server is going to deny that the path exists and then to carry out the POST. */
  lemma WriteKeepsOtherKeysIff(b: Bao, location: Location, key: string, value: string)
    ensures KeepsOthers(b.store, WriteKey(b, location, key, value, false).0.store, location, key) <==>
            !(HasOthers(b.store, location, key) && Clobbers(b, false))
  {
    var t := WriteKey(b, location, key, value, false).0.store;
    WriteKeyEffect(b, location, key, value, false);
    if location in b.store {
      ClobbersDecides(b, location, key, value, false);
      if HasOthers(b.store, location, key) && Clobbers(b, false) {
        var k :| k in b.store[location] && k != key;
        assert Lookup(t, location, k) != Lookup(b.store, location, k);
      }
    }
  }

  /** A denial that is not true costs the other keys of the path: the documented promise that they
      are kept needs the server to be honest about what exists, as this run shows. */
  lemma DeniedPathLosesItsOtherKeys()
    ensures exists b: Bao, location: Location ::
              && !Truthful(b.turns)
              && WriteKey(b, location, "token", "new", false).1 == Ok(())
              && Lookup(b.store, location, "other") == Some("kept")
              && Lookup(WriteKey(b, location, "token", "new", false).0.store, location, "other") == None
  {
    var location: Location := ["v1"];
    var honest := Turn(0, [], LoginDenied(""), Allow);
    var lie := honest.(verdict := Deny(404, ""));
    var t := Token("t", None);
    var b := Bao(TokenFile, Some(t), 0, map[location := map["other" := "kept"]], [lie, honest],
                 [Grant(t, 0, 0, "t", 0)], 0, 0, []);
    assert lie in b.turns;
    var (c, r) := Send(b, PATCH, location, "token", "new");
    assert Share(b.(turns := [honest]), []) == b.(turns := [honest]);
    assert r == Status(404, "") && c.turns == [honest];
    assert Share(c.(turns := []), []) == c.(turns := []);
    var (d, r') := Send(c, POST, location, "token", "new");
    assert r' == Status(200, "") && d.store == map[location := map["token" := "new"]];
    assert "other" != "token";
    assert WriteKey(b, location, "token", "new", false) == (d, Ok(()));
  }

  predicate At(target: TargetSpec, location: Location) {
    target.openbao.Some? && LocationOf(target.openbao.value) == location
  }

  /** Under any key that the target does not name, everything stays, unless its path is clobbered:
      then nothing is left there. */
  lemma WriteElsewhere(b: Bao, target: TargetSpec, value: string, location: Location, key: string)
    requires !Targets(target, location, key)
    ensures Lookup(Write(b, target, value).0.store, location, key) ==
            if At(target, location) && Clobbers(b, false) then None else Lookup(b.store, location, key)
  {
    if target.openbao.Some? {
      var t := target.openbao.value;
      WriteKeyEffect(b, LocationOf(t), t.key, value, false);
      if LocationOf(t) == location && location in b.store {
        ClobbersDecides(b, location, t.key, value, false);
      }
    }
  }

  // ------------------------------------------------------------------------
  // All targets of a rotation

  /** From target number `i` on, the path is clobbered by some write. */
  predicate Lost(b: Bao, targets: seq<TargetSpec>, value: string, location: Location, i: nat) {
    exists j | i <= j < |targets| :: At(targets[j], location) && Clobbers(Before(b, targets, value, j), false)
  }

  lemma LostStep(b: Bao, targets: seq<TargetSpec>, value: string, location: Location, i: nat)
    requires i < |targets|
    ensures var n := |targets| - 1;
            Lost(b, targets, value, location, i) <==>
            || Lost(b, targets[..n], value, location, i)
            || (At(targets[n], location) && Clobbers(Before(b, targets, value, n), false))
  {
    var n := |targets| - 1;
    forall j | i <= j < n
      ensures targets[..n][j] == targets[j]
      ensures Before(b, targets[..n], value, j) == Before(b, targets, value, j)
    {
      BeforeInit(b, targets, value, j);
    }
  }

  /** What the targets from number `i` on do not name is kept by them, or wiped out with its path. */
  lemma {:induction false} RotationElsewhere(b: Bao, targets: seq<TargetSpec>, value: string, i: nat,
                                             location: Location, key: string)
    requires i <= |targets|
    requires forall j | i <= j < |targets| :: !Targets(targets[j], location, key)
    ensures Lookup(WriteAll(b, targets, value).0.store, location, key) ==
            if Lost(b, targets, value, location, i) then None
            else Lookup(Before(b, targets, value, i).store, location, key)
  {
    if i == |targets| {
      assert targets[..i] == targets;
    } else {
      var n := |targets| - 1;
      RotationElsewhere(b, targets[..n], value, i, location, key);
      assert targets[..n][..i] == targets[..i];
      LostStep(b, targets, value, location, i);
      WriteElsewhere(Before(b, targets, value, n), targets[n], value, location, key);
    }
  }

  /** Target number `i` names the key, and none after it does. */
  predicate LastFor(targets: seq<TargetSpec>, i: nat, location: Location, key: string)
    requires i < |targets|
  {
    Targets(targets[i], location, key) && forall j | i < j < |targets| :: !Targets(targets[j], location, key)
  }

  lemma WrittenBefore(b: Bao, targets: seq<TargetSpec>, value: string, i: nat, location: Location, key: string)
    requires i < |targets| && Targets(targets[i], location, key)
    requires Write(Before(b, targets, value, i), targets[i], value).1.Ok?
    ensures Lookup(Before(b, targets, value, i + 1).store, location, key) == Some(value)
  {
    var t := targets[i].openbao.value;
    assert targets[..i + 1][..i] == targets[..i];
    WriteKeyEffect(Before(b, targets, value, i), LocationOf(t), t.key, value, false);
  }

  /** Against every server: a key that no target names is as it was, unless its path is clobbered, and
      then it is gone. A key that a target was written to without error, and that no later target
      names, holds the value, unless a later target clobbers its path, and then it is gone. */
  lemma RotationKeepsIff(b: Bao, targets: seq<TargetSpec>, value: string, location: Location, key: string)
    ensures var (c, results) := WriteAll(b, targets, value);
            && |results| == |targets|
            && (!Targeted(targets, location, key) ==>
                  Lookup(c.store, location, key) ==
                  if Lost(b, targets, value, location, 0) then None else Lookup(b.store, location, key))
            && (forall i | 0 <= i < |targets| && results[i].Ok? && LastFor(targets, i, location, key) ::
                  Lookup(c.store, location, key) ==
                  if Lost(b, targets, value, location, i + 1) then None else Some(value))
  {
    var results := WriteAll(b, targets, value).1;
    WriteAllLog(b, targets, value);
    if !Targeted(targets, location, key) {
      RotationElsewhere(b, targets, value, 0, location, key);
      assert targets[..0] == [];
    }
    forall i | 0 <= i < |targets| && results[i].Ok? && LastFor(targets, i, location, key)
      ensures Lookup(WriteAll(b, targets, value).0.store, location, key) ==
              if Lost(b, targets, value, location, i + 1) then None else Some(value)
    {
      RotationElsewhere(b, targets, value, i + 1, location, key);
      EachTargetOnce(b, targets, value, i);
      WrittenBefore(b, targets, value, i, location, key);
    }
  }
}
