// src/k8s.rs: status writes as a protocol between the API server, any number of `update_status`
// calls, the controller's `reconcile`, other controllers that patch conditions, and whoever edits,
// creates and deletes objects.
//
// A run is any sequence of steps; a step that is not possible in the present state does nothing.
// The server accepts a replace only if the object's resourceVersion is still the one that was read.
module Protocol {
  import opened Wrappers
  import opened Crd
  import opened Bookkeeping
  import opened Conditions
  import opened Repo
  import Validation

  const MAX_STATUS_ATTEMPTS: nat := 3

  /** An accepted write, with the call that made it where there is one. */
  datatype Commit =
    | Mutated(name: string, call: nat, mutation: Mutation)
    | ConditionsPatched(name: string, patch: Patch)
    | SpecEdited(name: string, spec: ApiKeySpec)
    | Created(name: string, spec: ApiKeySpec)
    | Deleted(name: string)

  /** What a commit does to a store in which every write is one indivisible step. A mutation does
      what the in-memory repository does. */
  function Perform(keys: map<string, ApiKey>, c: Commit): map<string, ApiKey> {
    match c
    case Mutated(name, _, m) => UpdatedKeys(keys, name, m)
    case ConditionsPatched(name, p) => if name in keys then keys[name := Patched(keys[name], p)] else keys
    case SpecEdited(name, spec) => if name in keys then keys[name := Edited(keys[name], spec)] else keys
    case Created(name, spec) => keys[name := ApiKey(Some(1), spec, None)]
    case Deleted(name) => keys - {name}
  }

  /** The store after a log of indivisible steps. */
  function Replay(log: seq<Commit>): map<string, ApiKey> {
    if log == [] then map[] else Perform(Replay(log[..|log| - 1]), log[|log| - 1])
  }

  // ------------------------------------------------------------------------
  // The system

  datatype Stored = Stored(resourceVersion: nat, key: ApiKey)

  /** Where a call of `update_status` stands. `readAt` and `at` are lengths of the log, kept to say
      when something happened; the code has no use for them. */
  datatype Phase =
    | Reading(attempt: nat)
    | Holding(attempt: nat, readAt: nat, snapshot: Stored)
    | Done(at: nat, reply: Result<ApiKey, RepoError>)

  datatype Call = Call(name: string, mutation: Mutation, started: nat, phase: Phase)

  datatype System = System(
    objects: map<string, Stored>,
    revision: nat,
    calls: map<nat, Call>,
    log: seq<Commit>)

  const EMPTY := System(map[], 0, map[], [])

  datatype Step =
    | Begin(call: nat, name: string, mutation: Mutation)
    | Get(call: nat)
    | Replace(call: nat)
    | Fail(call: nat)       // a request fails for another reason and nothing is written
    | LoseReply(call: nat)  // the server acts on a replace, but the client only sees an error
    | ControllerRuns(target: string, cached: ApiKey, now: Timestamp)  // `cached` may be any object at all
    | PatchConditions(target: string, patch: Patch)  // by another controller
    | EditSpecOf(target: string, spec: ApiKeySpec)
    | Create(target: string, spec: ApiKeySpec)
    | Delete(target: string)

  function SetPhase(s: System, c: nat, phase: Phase): System
    requires c in s.calls
  {
    s.(calls := s.calls[c := s.calls[c].(phase := phase)])
  }

  /** The server stores a new version of an object. */
  function Store(s: System, commit: Commit, key: ApiKey): System {
    s.(objects := s.objects[commit.name := Stored(s.revision + 1, key)],
       revision := s.revision + 1,
       log := s.log + [commit])
  }

  predicate IsReading(s: System, c: nat) {
    c in s.calls && s.calls[c].phase.Reading?
  }

  predicate IsHolding(s: System, c: nat) {
    c in s.calls && s.calls[c].phase.Holding?
  }

  /** The object is still at the version that the call has read. */
  predicate Current(s: System, c: nat)
    requires IsHolding(s, c)
  {
    var call := s.calls[c];
    call.name in s.objects && s.objects[call.name].resourceVersion == call.phase.snapshot.resourceVersion
  }

  /** The status that the call sends: its mutation applied to what it has read. */
  function Sent(s: System, c: nat): ApiKeyStatus
    requires IsHolding(s, c)
  {
    Apply(s.calls[c].mutation, StatusOf(s.calls[c].phase.snapshot.key))
  }

  /** An accepted replace: the status becomes the one sent, and the rest of the object stays. */
  function Accept(s: System, c: nat): System
    requires IsHolding(s, c) && Current(s, c)
  {
    var call := s.calls[c];
    Store(s, Mutated(call.name, c, call.mutation), s.objects[call.name].key.(status := Some(Sent(s, c))))
  }

  function DoGet(s: System, c: nat): System
    requires IsReading(s, c)
  {
    var call := s.calls[c];
    SetPhase(s, c,
             if call.name in s.objects then Holding(call.phase.attempt, |s.log|, s.objects[call.name])
             else Done(|s.log|, Err(NotFound)))
  }

  /** A missing object is an API error here, unlike in `Get`; a stale version is tried again until
      the attempts are used up. */
  function DoReplace(s: System, c: nat): System
    requires IsHolding(s, c)
  {
    var call := s.calls[c];
    if Current(s, c) then
      var t := Accept(s, c);
      SetPhase(t, c, Done(|s.log|, Ok(t.objects[call.name].key)))
    else if call.name !in s.objects then SetPhase(s, c, Done(|s.log|, Err(Kube)))
    else if call.phase.attempt + 1 < MAX_STATUS_ATTEMPTS then SetPhase(s, c, Reading(call.phase.attempt + 1))
    else SetPhase(s, c, Done(|s.log|, Err(Conflict)))
  }

  /** The server merges a controller's patch, if there is one, into the present object. */
  function Send(s: System, name: string, patch: Option<Patch>): System {
    if patch.Some? && name in s.objects then
      Store(s, ConditionsPatched(name, patch.value), Patched(s.objects[name].key, patch.value))
    else s
  }

  function EditObject(s: System, name: string, spec: ApiKeySpec): System {
    if name in s.objects then Store(s, SpecEdited(name, spec), Edited(s.objects[name].key, spec)) else s
  }

  function CreateObject(s: System, name: string, spec: ApiKeySpec): System {
    if name in s.objects then s else Store(s, Created(name, spec), ApiKey(Some(1), spec, None))
  }

  function DeleteObject(s: System, name: string): System {
    if name in s.objects then
      s.(objects := s.objects - {name}, revision := s.revision + 1, log := s.log + [Deleted(name)])
    else s
  }

  function Next(s: System, ctx: Validation.Context, step: Step): System {
    match step
    case Begin(c, name, m) =>
      if c in s.calls then s else s.(calls := s.calls[c := Call(name, m, |s.log|, Reading(0))])
    case Get(c) =>
      if IsReading(s, c) then DoGet(s, c) else s
    case Replace(c) =>
      if IsHolding(s, c) then DoReplace(s, c) else s
    case Fail(c) =>
      if IsReading(s, c) || IsHolding(s, c) then SetPhase(s, c, Done(|s.log|, Err(Kube))) else s
    case LoseReply(c) =>
      if !IsHolding(s, c) then s
      else SetPhase(if Current(s, c) then Accept(s, c) else s, c, Done(|s.log|, Err(Kube)))
    case ControllerRuns(name, cached, now) =>
      Send(s, name, Reconcile(cached, ctx, now))
    case PatchConditions(name, patch) => Send(s, name, Some(patch))
    case EditSpecOf(name, spec) => EditObject(s, name, spec)
    case Create(name, spec) => CreateObject(s, name, spec)
    case Delete(name) => DeleteObject(s, name)
  }

  /** Every interleaving is the run of some list of steps. */
  function RunFrom(s: System, ctx: Validation.Context, steps: seq<Step>): System {
    if steps == [] then s else Next(RunFrom(s, ctx, steps[..|steps| - 1]), ctx, steps[|steps| - 1])
  }

  function Run(ctx: Validation.Context, steps: seq<Step>): System {
    RunFrom(EMPTY, ctx, steps)
  }

  lemma RunStep(ctx: Validation.Context, steps: seq<Step>, step: Step)
    ensures Run(ctx, steps + [step]) == Next(Run(ctx, steps), ctx, step)
  {
    assert (steps + [step])[..|steps|] == steps;
  }

  /** The objects without their versions, to compare with a store that has none. */
  function Contents(s: System): map<string, ApiKey> {
    map n | n in s.objects :: s.objects[n].key
  }

  // ------------------------------------------------------------------------
  // Counting in the log

  /** Writes to one object. */
  function Touches(log: seq<Commit>, name: string): nat {
    if log == [] then 0
    else Touches(log[..|log| - 1], name) + (if log[|log| - 1].name == name then 1 else 0)
  }

  /** One more than the position of the last write to the object, or zero. */
  function LastTouch(log: seq<Commit>, name: string): (n: nat)
    ensures n <= |log|
  {
    if log == [] then 0
    else if log[|log| - 1].name == name then |log|
    else LastTouch(log[..|log| - 1], name)
  }

  /** Commits made by one call. */
  function CommitsOf(log: seq<Commit>, c: nat): nat {
    if log == [] then 0
    else
      var last := log[|log| - 1];
      CommitsOf(log[..|log| - 1], c) + (if last.Mutated? && last.call == c then 1 else 0)
  }

  lemma Snoc(log: seq<Commit>, e: Commit)
    ensures (log + [e])[..|log + [e]| - 1] == log
    ensures Replay(log + [e]) == Perform(Replay(log), e)
    ensures forall n :: Touches(log + [e], n) == Touches(log, n) + (if e.name == n then 1 else 0)
    ensures forall n :: LastTouch(log + [e], n) == if e.name == n then |log| + 1 else LastTouch(log, n)
    ensures forall c :: CommitsOf(log + [e], c) == CommitsOf(log, c) + (if e.Mutated? && e.call == c then 1 else 0)
  {
    assert (log + [e])[..|log + [e]| - 1] == log;
  }

  lemma {:induction false} TouchesConcat(a: seq<Commit>, b: seq<Commit>, name: string)
    ensures Touches(a + b, name) == Touches(a, name) + Touches(b, name)
  {
    if b == [] {
      assert a + b == a;
    } else {
      var n := |b| - 1;
      TouchesConcat(a, b[..n], name);
      assert (a + b)[..|a + b| - 1] == a + b[..n];
    }
  }

  function Lookup(keys: map<string, ApiKey>, name: string): Option<ApiKey> {
    if name in keys then Some(keys[name]) else None
  }

  /** Since the log was `r` long, either the object has been written, or it is as it was. */
  lemma {:induction false} SameVersionSameObject(log: seq<Commit>, r: nat, name: string)
    requires r <= |log|
    ensures LastTouch(log[..r], name) == LastTouch(log, name) ==>
              Lookup(Replay(log[..r]), name) == Lookup(Replay(log), name)
    ensures LastTouch(log[..r], name) != LastTouch(log, name) ==> Touches(log[r..], name) >= 1
  {
    if r == |log| {
      assert log[..r] == log;
    } else {
      var n := |log| - 1;
      SameVersionSameObject(log[..n], r, name);
      assert log[..n][..r] == log[..r];
      assert log[r..][..n - r] == log[..n][r..];
    }
  }

  // ------------------------------------------------------------------------
  // The invariant

  predicate ServerInv(s: System) {
    && s.revision == |s.log|
    && Contents(s) == Replay(s.log)
    && (forall n | n in s.objects :: s.objects[n].resourceVersion == LastTouch(s.log, n))
  }

  predicate SnapshotInv(log: seq<Commit>, name: string, readAt: nat, snapshot: Stored)
    requires readAt <= |log|
  {
    && Lookup(Replay(log[..readAt]), name) == Some(snapshot.key)
    && snapshot.resourceVersion == LastTouch(log[..readAt], name)
  }

  predicate ReplyInv(log: seq<Commit>, c: nat, call: Call, at: nat, reply: Result<ApiKey, RepoError>)
    requires call.started <= at <= |log|
  {
    match reply
    case Ok(key) =>
      && at < |log|
      && log[at] == Mutated(call.name, c, call.mutation)
      && Lookup(Replay(log[..at + 1]), call.name) == Some(key)
      && CommitsOf(log, c) == 1
    case Err(NotFound) => CommitsOf(log, c) == 0 && Lookup(Replay(log[..at]), call.name) == None
    case Err(Conflict) => CommitsOf(log, c) == 0 && Touches(log[call.started..at], call.name) >= MAX_STATUS_ATTEMPTS
    case Err(Kube) => CommitsOf(log, c) <= 1
  }

  predicate CallInv(log: seq<Commit>, c: nat, call: Call) {
    && call.started <= |log|
    && match call.phase
       case Reading(k) =>
         k < MAX_STATUS_ATTEMPTS && CommitsOf(log, c) == 0 && k <= Touches(log[call.started..], call.name)
       case Holding(k, readAt, snapshot) =>
         && k < MAX_STATUS_ATTEMPTS && CommitsOf(log, c) == 0
         && call.started <= readAt <= |log|
         && k <= Touches(log[call.started..readAt], call.name)
         && SnapshotInv(log, call.name, readAt, snapshot)
       case Done(at, reply) => call.started <= at <= |log| && ReplyInv(log, c, call, at, reply)
  }

  ghost predicate CallsInv(s: System) {
    && (forall c | c in s.calls :: CallInv(s.log, c, s.calls[c]))
    && (forall c: nat | c !in s.calls :: CommitsOf(s.log, c) == 0)
  }

  ghost predicate Inv(s: System) {
    ServerInv(s) && CallsInv(s)
  }

  lemma ExtendReply(log: seq<Commit>, e: Commit, c: nat, call: Call, at: nat, reply: Result<ApiKey, RepoError>)
    requires call.started <= at <= |log| && ReplyInv(log, c, call, at, reply)
    requires !(e.Mutated? && e.call == c)
    ensures ReplyInv(log + [e], c, call, at, reply)
  {
    var longer := log + [e];
    Snoc(log, e);
    assert longer[call.started..at] == log[call.started..at];
    assert longer[..at] == log[..at];
    if at < |log| { assert longer[..at + 1] == log[..at + 1]; }
  }

  lemma ExtendSnapshot(log: seq<Commit>, e: Commit, name: string, readAt: nat, snapshot: Stored)
    requires readAt <= |log| && SnapshotInv(log, name, readAt, snapshot)
    ensures SnapshotInv(log + [e], name, readAt, snapshot)
  {
    assert (log + [e])[..readAt] == log[..readAt];
  }

  /** A commit by someone else leaves what is known about a call true. */
  lemma ExtendCall(log: seq<Commit>, e: Commit, c: nat, call: Call)
    requires CallInv(log, c, call)
    requires !(e.Mutated? && e.call == c)
    ensures CallInv(log + [e], c, call)
  {
    var longer := log + [e];
    match call.phase {
      case Reading(k) =>
        Snoc(log, e);
        assert longer[call.started..] == log[call.started..] + [e];
        TouchesConcat(log[call.started..], [e], call.name);
      case Holding(k, readAt, snapshot) =>
        Snoc(log, e);
        assert longer[call.started..readAt] == log[call.started..readAt];
        ExtendSnapshot(log, e, call.name, readAt, snapshot);
      case Done(at, reply) =>
        ExtendReply(log, e, c, call, at, reply);
    }
  }

  lemma ExtendCalls(s: System, t: System, e: Commit)
    requires CallsInv(s) && t.log == s.log + [e]
    requires e.Mutated? ==> e.call in s.calls && e.call in t.calls
    requires t.calls.Keys == s.calls.Keys
    requires forall c | c in s.calls && !(e.Mutated? && e.call == c) :: t.calls[c] == s.calls[c]
    requires e.Mutated? ==> CallInv(t.log, e.call, t.calls[e.call])
    ensures CallsInv(t)
  {
    forall c | c in t.calls ensures CallInv(t.log, c, t.calls[c]) {
      if !(e.Mutated? && e.call == c) {
        ExtendCall(s.log, e, c, s.calls[c]);
      }
    }
    Snoc(s.log, e);
  }

  /** Storing what the commit makes of the object keeps server and log in step. */
  lemma StoreKeepsServer(s: System, e: Commit, key: ApiKey)
    requires ServerInv(s)
    requires Perform(Replay(s.log), e) == Replay(s.log)[e.name := key]
    ensures ServerInv(Store(s, e, key))
  {
    Snoc(s.log, e);
    var t := Store(s, e, key);
    assert Contents(t) == Contents(s)[e.name := key];
  }

  lemma DeleteKeepsServer(s: System, name: string, t: System)
    requires ServerInv(s) && t == s.(objects := s.objects - {name}, revision := s.revision + 1, log := s.log + [Deleted(name)])
    ensures ServerInv(t)
  {
    Snoc(s.log, Deleted(name));
    assert Contents(t) == Contents(s) - {name};
  }

  /** The version check in action: while it passes, the snapshot is the present object. */
  lemma CurrentMeansUnchanged(s: System, c: nat)
    requires Inv(s) && IsHolding(s, c)
    ensures var call := s.calls[c];
            && (Current(s, c) ==> s.objects[call.name].key == call.phase.snapshot.key)
            && (!Current(s, c) && call.name in s.objects ==> Touches(s.log[call.phase.readAt..], call.name) >= 1)
  {
    var call := s.calls[c];
    assert CallInv(s.log, c, call);
    SameVersionSameObject(s.log, call.phase.readAt, call.name);
    if call.name in s.objects {
      assert Contents(s)[call.name] == s.objects[call.name].key;
    }
  }

  /** Hence an accepted replace is the mutation of the present object. */
  lemma AcceptKeepsServer(s: System, c: nat)
    requires Inv(s) && IsHolding(s, c) && Current(s, c)
    ensures ServerInv(Accept(s, c))
    ensures var t, call := Accept(s, c), s.calls[c];
            && t.log == s.log + [Mutated(call.name, c, call.mutation)]
            && Lookup(Replay(t.log), call.name) == Some(t.objects[call.name].key)
            && CommitsOf(t.log, c) == 1
  {
    var call := s.calls[c];
    assert CallInv(s.log, c, call);
    CurrentMeansUnchanged(s, c);
    var e, key := Mutated(call.name, c, call.mutation), s.objects[call.name].key.(status := Some(Sent(s, c)));
    assert call.name in Contents(s) && Contents(s)[call.name] == s.objects[call.name].key;
    assert key == WithMutation(s.objects[call.name].key, call.mutation);
    StoreKeepsServer(s, e, key);
    Snoc(s.log, e);
  }

  lemma SetPhaseKeeps(s: System, c: nat, phase: Phase)
    requires Inv(s) && c in s.calls
    requires CallInv(s.log, c, s.calls[c].(phase := phase))
    ensures Inv(SetPhase(s, c, phase))
  {}

  lemma GetKeepsInv(s: System, c: nat)
    requires Inv(s) && IsReading(s, c)
    ensures Inv(DoGet(s, c))
  {
    var call := s.calls[c];
    assert CallInv(s.log, c, call);
    assert s.log[..|s.log|] == s.log;
    assert s.log[call.started..|s.log|] == s.log[call.started..];
    assert Lookup(Contents(s), call.name) == Lookup(Replay(s.log), call.name);
    SetPhaseKeeps(s, c, DoGet(s, c).calls[c].phase);
  }

  /** A call that is refused has seen one more write to its object than it had attempts behind it. */
  lemma RefusedAfterTouches(s: System, c: nat)
    requires Inv(s) && IsHolding(s, c) && !Current(s, c) && s.calls[c].name in s.objects
    ensures var call := s.calls[c];
            Touches(s.log[call.started..], call.name) >= call.phase.attempt + 1
  {
    var call := s.calls[c];
    assert CallInv(s.log, c, call);
    CurrentMeansUnchanged(s, c);
    var r := call.phase.readAt;
    assert s.log[call.started..] == s.log[call.started..r] + s.log[r..];
    TouchesConcat(s.log[call.started..r], s.log[r..], call.name);
  }

  predicate AcceptedPhase(s: System, c: nat, phase: Phase)
    requires IsHolding(s, c) && Current(s, c)
  {
    phase == Done(|s.log|, Ok(Accept(s, c).objects[s.calls[c].name].key)) || phase == Done(|s.log|, Err(Kube))
  }

  lemma AcceptedCall(s: System, c: nat, phase: Phase)
    requires Inv(s) && IsHolding(s, c) && Current(s, c) && AcceptedPhase(s, c, phase)
    ensures CallInv(Accept(s, c).log, c, s.calls[c].(phase := phase))
  {
    var log := Accept(s, c).log;
    AcceptKeepsServer(s, c);
    assert CallInv(s.log, c, s.calls[c]);
    assert log[..|s.log| + 1] == log;
  }

  lemma AcceptKeepsInv(s: System, c: nat, phase: Phase)
    requires Inv(s) && IsHolding(s, c) && Current(s, c) && AcceptedPhase(s, c, phase)
    ensures Inv(SetPhase(Accept(s, c), c, phase))
  {
    AcceptKeepsServer(s, c);
    AcceptedCall(s, c, phase);
    ExtendCalls(s, SetPhase(Accept(s, c), c, phase), Mutated(s.calls[c].name, c, s.calls[c].mutation));
  }

  lemma ReplaceKeepsInv(s: System, c: nat)
    requires Inv(s) && IsHolding(s, c)
    ensures Inv(DoReplace(s, c))
  {
    var call := s.calls[c];
    assert CallInv(s.log, c, call);
    if Current(s, c) {
      AcceptKeepsInv(s, c, DoReplace(s, c).calls[c].phase);
    } else {
      assert s.log[call.started..|s.log|] == s.log[call.started..];
      if call.name in s.objects {
        RefusedAfterTouches(s, c);
      }
      SetPhaseKeeps(s, c, DoReplace(s, c).calls[c].phase);
    }
  }

  lemma WriteKeepsInv(s: System, e: Commit, key: ApiKey)
    requires Inv(s) && !e.Mutated?
    requires Perform(Replay(s.log), e) == Replay(s.log)[e.name := key]
    ensures Inv(Store(s, e, key))
  {
    StoreKeepsServer(s, e, key);
    ExtendCalls(s, Store(s, e, key), e);
  }

  predicate IsWrite(step: Step) {
    step.ControllerRuns? || step.PatchConditions? || step.EditSpecOf? || step.Create? || step.Delete?
  }

  lemma StoredIsReplayed(s: System, name: string)
    requires ServerInv(s) && name in s.objects
    ensures name in Replay(s.log) && Replay(s.log)[name] == s.objects[name].key
  {
    assert name in Contents(s);
  }

  lemma PatchKeepsInv(s: System, name: string, patch: Option<Patch>)
    requires Inv(s)
    ensures Inv(Send(s, name, patch))
  {
    if patch.Some? && name in s.objects {
      StoredIsReplayed(s, name);
      WriteKeepsInv(s, ConditionsPatched(name, patch.value), Patched(s.objects[name].key, patch.value));
    }
  }

  lemma EditKeepsInv(s: System, name: string, spec: ApiKeySpec)
    requires Inv(s)
    ensures Inv(EditObject(s, name, spec))
  {
    if name in s.objects {
      StoredIsReplayed(s, name);
      WriteKeepsInv(s, SpecEdited(name, spec), Edited(s.objects[name].key, spec));
    }
  }

  lemma CreateKeepsInv(s: System, name: string, spec: ApiKeySpec)
    requires Inv(s)
    ensures Inv(CreateObject(s, name, spec))
  {
    if name !in s.objects {
      WriteKeepsInv(s, Created(name, spec), ApiKey(Some(1), spec, None));
    }
  }

  lemma DeleteKeepsInv(s: System, name: string)
    requires Inv(s)
    ensures Inv(DeleteObject(s, name))
  {
    if name in s.objects {
      DeleteKeepsServer(s, name, DeleteObject(s, name));
      ExtendCalls(s, DeleteObject(s, name), Deleted(name));
    }
  }

  lemma GiveUpKeepsInv(s: System, c: nat)
    requires Inv(s) && (IsReading(s, c) || IsHolding(s, c))
    ensures Inv(SetPhase(s, c, Done(|s.log|, Err(Kube))))
  {
    assert CallInv(s.log, c, s.calls[c]);
    SetPhaseKeeps(s, c, Done(|s.log|, Err(Kube)));
  }

  lemma BeginKeepsInv(s: System, c: nat, name: string, m: Mutation)
    requires Inv(s) && c !in s.calls
    ensures Inv(s.(calls := s.calls[c := Call(name, m, |s.log|, Reading(0))]))
  {
    assert s.log[|s.log|..] == [];
  }

  /** The step is taken by one call of `update_status`. */
  predicate IsOfCall(step: Step, c: nat) {
    match step
    case Begin(d, _, _) => c == d
    case Get(d) => c == d
    case Replace(d) => c == d
    case Fail(d) => c == d
    case LoseReply(d) => c == d
    case _ => false
  }

  lemma CallStepKeepsInv(s: System, ctx: Validation.Context, step: Step, c: nat)
    requires Inv(s) && IsOfCall(step, c)
    ensures Inv(Next(s, ctx, step))
  {
    match step {
      case Begin(_, name, m) =>
        if c !in s.calls { BeginKeepsInv(s, c, name, m); }
      case Get(_) =>
        if IsReading(s, c) { GetKeepsInv(s, c); }
      case Replace(_) =>
        if IsHolding(s, c) { ReplaceKeepsInv(s, c); }
      case Fail(_) =>
        if IsReading(s, c) || IsHolding(s, c) { GiveUpKeepsInv(s, c); }
      case LoseReply(_) =>
        if IsHolding(s, c) {
          if Current(s, c) { AcceptKeepsInv(s, c, Done(|s.log|, Err(Kube))); } else { GiveUpKeepsInv(s, c); }
        }
    }
  }

  /** Every step of every participant keeps the invariant. */
  lemma StepKeepsInv(s: System, ctx: Validation.Context, step: Step)
    requires Inv(s)
    ensures Inv(Next(s, ctx, step))
  {
    match step {
      case Begin(c, _, _) => CallStepKeepsInv(s, ctx, step, c);
      case Get(c) => CallStepKeepsInv(s, ctx, step, c);
      case Replace(c) => CallStepKeepsInv(s, ctx, step, c);
      case Fail(c) => CallStepKeepsInv(s, ctx, step, c);
      case LoseReply(c) => CallStepKeepsInv(s, ctx, step, c);
      case ControllerRuns(name, cached, now) => PatchKeepsInv(s, name, Reconcile(cached, ctx, now));
      case PatchConditions(name, patch) => PatchKeepsInv(s, name, Some(patch));
      case EditSpecOf(name, spec) => EditKeepsInv(s, name, spec);
      case Create(name, spec) => CreateKeepsInv(s, name, spec);
      case Delete(name) => DeleteKeepsInv(s, name);
    }
  }

  lemma {:induction false} RunKeepsInv(s: System, ctx: Validation.Context, steps: seq<Step>)
    requires Inv(s)
    ensures Inv(RunFrom(s, ctx, steps))
  {
    if steps != [] {
      var n := |steps| - 1;
      RunKeepsInv(s, ctx, steps[..n]);
      StepKeepsInv(RunFrom(s, ctx, steps[..n]), ctx, steps[n]);
    }
  }

  lemma EveryRunKeepsInv(ctx: Validation.Context, steps: seq<Step>)
    ensures Inv(Run(ctx, steps))
  {
    assert Inv(EMPTY);
    RunKeepsInv(EMPTY, ctx, steps);
  }

  // ------------------------------------------------------------------------
  // Termination

  /** Requests that a call may still make. */
  function RequestsLeft(phase: Phase): nat {
    match phase
    case Reading(k) => if k < MAX_STATUS_ATTEMPTS then 2 * (MAX_STATUS_ATTEMPTS - k) else 0
    case Holding(k, _, _) => if k < MAX_STATUS_ATTEMPTS then 2 * (MAX_STATUS_ATTEMPTS - k) - 1 else 0
    case Done(_, _) => 0
  }

  /** The step is the next request of the call. */
  predicate IsRequestOf(s: System, c: nat, step: Step) {
    match step
    case Get(d) => c == d && IsReading(s, c)
    case Replace(d) => c == d && IsHolding(s, c)
    case Fail(d) => c == d && (IsReading(s, c) || IsHolding(s, c))
    case LoseReply(d) => c == d && IsHolding(s, c)
    case _ => false
  }

  lemma OthersLeaveCall(s: System, ctx: Validation.Context, step: Step, c: nat)
    requires c in s.calls && !IsRequestOf(s, c, step)
    ensures c in Next(s, ctx, step).calls && Next(s, ctx, step).calls[c] == s.calls[c]
  {}

  lemma RequestSpends(s: System, ctx: Validation.Context, step: Step, c: nat)
    requires c in s.calls && IsRequestOf(s, c, step)
    requires s.calls[c].phase.attempt < MAX_STATUS_ATTEMPTS
    ensures c in Next(s, ctx, step).calls
    ensures RequestsLeft(Next(s, ctx, step).calls[c].phase) < RequestsLeft(s.calls[c].phase)
  {}

  /** A call starts with three reads and three replaces to spend, spends one with each request, and
      no one else can give it more: it is done after at most six requests, whatever the others do. */
  lemma AttemptsRunOut(ctx: Validation.Context, steps: seq<Step>, step: Step, c: nat)
    requires c in Run(ctx, steps).calls
    ensures var s := Run(ctx, steps);
            var t := Next(s, ctx, step);
            && RequestsLeft(s.calls[c].phase) <= 2 * MAX_STATUS_ATTEMPTS
            && (RequestsLeft(s.calls[c].phase) == 0 <==> s.calls[c].phase.Done?)
            && c in t.calls
            && (if IsRequestOf(s, c, step) then RequestsLeft(t.calls[c].phase) < RequestsLeft(s.calls[c].phase)
                else t.calls[c] == s.calls[c])
  {
    var s := Run(ctx, steps);
    EveryRunKeepsInv(ctx, steps);
    assert CallInv(s.log, c, s.calls[c]);
    if IsRequestOf(s, c, step) {
      RequestSpends(s, ctx, step, c);
    } else {
      OthersLeaveCall(s, ctx, step, c);
    }
  }
}
