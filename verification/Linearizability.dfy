// What holds over every interleaving of status updates, reconciles and spec edits.
module Linearizability {
  import opened Wrappers
  import opened Sequences
  import opened Crd
  import opened Bookkeeping
  import opened Conditions
  import opened Repo
  import opened Protocol
  import Validation

  /** The optimistic repository refines the one with a lock: in every interleaving the stored objects
      are those of the in-memory repository after the accepted writes, one at a time in commit order. */
  lemma RefinesMemoryRepository(ctx: Validation.Context, steps: seq<Step>)
    ensures Contents(Run(ctx, steps)) == Replay(Run(ctx, steps).log)
  {
    EveryRunKeepsInv(ctx, steps);
  }

  /** Exactly-once: the mutation of a call that returned Ok is in the commit order once, and what it
      returned is the object right after it; that of a call that returned Conflict or NotFound, or
      is still under way, is not in it; one whose reply was lost is in it at most once. */
  lemma ExactlyOnce(ctx: Validation.Context, steps: seq<Step>, c: nat)
    requires c in Run(ctx, steps).calls
    ensures var s := Run(ctx, steps);
            var call := s.calls[c];
            match call.phase
            case Done(at, Ok(key)) =>
              && CommitsOf(s.log, c) == 1
              && call.started <= at < |s.log| && s.log[at] == Mutated(call.name, c, call.mutation)
              && Lookup(Replay(s.log[..at + 1]), call.name) == Some(key)
            case Done(_, Err(Kube)) => CommitsOf(s.log, c) <= 1
            case _ => CommitsOf(s.log, c) == 0
  {
    EveryRunKeepsInv(ctx, steps);
    assert CallInv(Run(ctx, steps).log, c, Run(ctx, steps).calls[c]);
  }

  /** NotFound is only returned if the object was missing at some moment during the call. Conflict is
      only returned if others have written the object at least once per attempt during the call. */
  lemma RefusalsAreJustified(ctx: Validation.Context, steps: seq<Step>, c: nat)
    requires c in Run(ctx, steps).calls
    ensures var s := Run(ctx, steps);
            var call := s.calls[c];
            && (call.phase.Done? && call.phase.reply == Err(NotFound) ==>
                  call.started <= call.phase.at <= |s.log|
                  && call.name !in Replay(s.log[..call.phase.at]))
            && (call.phase.Done? && call.phase.reply == Err(Conflict) ==>
                  call.started <= call.phase.at <= |s.log|
                  && Touches(s.log[call.started..call.phase.at], call.name) >= MAX_STATUS_ATTEMPTS
                  && CommitsOf(s.log, c) == 0)
  {
    EveryRunKeepsInv(ctx, steps);
    assert CallInv(Run(ctx, steps).log, c, Run(ctx, steps).calls[c]);
  }

  // ------------------------------------------------------------------------
  // Real-time order

  /** `t` is a later state of the same run. */
  ghost predicate Later(s: System, t: System) {
    && s.log <= t.log
    && (forall c | c in s.calls ::
          && c in t.calls && t.calls[c].started == s.calls[c].started
          && (s.calls[c].phase.Done? ==> t.calls[c] == s.calls[c]))
    && (forall c | c in t.calls && c !in s.calls :: t.calls[c].started >= |s.log|)
  }

  lemma WriteIsLater(s: System, ctx: Validation.Context, step: Step)
    requires IsWrite(step)
    ensures Later(s, Next(s, ctx, step))
  {}

  lemma StepIsLater(s: System, ctx: Validation.Context, step: Step)
    ensures Later(s, Next(s, ctx, step))
  {
    if IsWrite(step) {
      WriteIsLater(s, ctx, step);
    } else {
      forall c | c in s.calls && !IsRequestOf(s, c, step)
        ensures c in Next(s, ctx, step).calls && Next(s, ctx, step).calls[c] == s.calls[c]
      {
        OthersLeaveCall(s, ctx, step, c);
      }
    }
  }

  lemma LaterTransitive(s: System, t: System, u: System)
    requires Later(s, t) && Later(t, u)
    ensures Later(s, u)
  {}

  lemma {:induction false} RunIsLater(s: System, ctx: Validation.Context, steps: seq<Step>)
    ensures Later(s, RunFrom(s, ctx, steps))
  {
    if steps != [] {
      var n := |steps| - 1;
      RunIsLater(s, ctx, steps[..n]);
      StepIsLater(RunFrom(s, ctx, steps[..n]), ctx, steps[n]);
      LaterTransitive(s, RunFrom(s, ctx, steps[..n]), RunFrom(s, ctx, steps));
    }
  }

  lemma {:induction false} RunConcat(s: System, ctx: Validation.Context, a: seq<Step>, b: seq<Step>)
    ensures RunFrom(s, ctx, a + b) == RunFrom(RunFrom(s, ctx, a), ctx, b)
  {
    if b == [] {
      assert a + b == a;
    } else {
      var n := |b| - 1;
      RunConcat(s, ctx, a, b[..n]);
      assert (a + b)[..|a + b| - 1] == a + b[..n];
    }
  }

  /** A call that had returned Ok before another one began precedes it in the commit order. */
  lemma CommitOrderIsRealTime(ctx: Validation.Context, before: seq<Step>, after: seq<Step>, a: nat, b: nat)
    requires var s, t := Run(ctx, before), Run(ctx, before + after);
             && a in s.calls && s.calls[a].phase.Done? && s.calls[a].phase.reply.Ok?
             && b !in s.calls
             && b in t.calls && t.calls[b].phase.Done? && t.calls[b].phase.reply.Ok?
    ensures var t := Run(ctx, before + after);
            && a in t.calls && t.calls[a].phase.Done? && t.calls[a].phase.reply.Ok?
            && t.calls[a].phase.at < t.calls[b].phase.at
  {
    var s := Run(ctx, before);
    RunConcat(EMPTY, ctx, before, after);
    RunIsLater(s, ctx, after);
    ExactlyOnce(ctx, before, a);
    ExactlyOnce(ctx, before + after, b);
  }

  // ------------------------------------------------------------------------
  // Rotations and reconciles do not disturb each other

  /** The mutations of one object, since it was last created, in commit order. */
  function MutationsOf(log: seq<Commit>, name: string): seq<Mutation> {
    if log == [] then []
    else
      var init, last := log[..|log| - 1], log[|log| - 1];
      if last.name != name then MutationsOf(init, name)
      else
        match last
        case Mutated(_, _, m) => MutationsOf(init, name) + [m]
        case Created(_, _) => []
        case Deleted(_) => []
        case _ => MutationsOf(init, name)
  }

  /** The last conditions patch of one object since it was last created. */
  function LastPatch(log: seq<Commit>, name: string): Patch {
    if log == [] then Patch([], None)
    else
      var init, last := log[..|log| - 1], log[|log| - 1];
      if last.name != name then LastPatch(init, name)
      else
        match last
        case ConditionsPatched(_, p) => p
        case Created(_, _) => Patch([], None)
        case Deleted(_) => Patch([], None)
        case _ => LastPatch(init, name)
  }

  /** A status made of rotation fields and the controller's fields. */
  function Overlay(s: ApiKeyStatus, p: Patch): ApiKeyStatus {
    s.(conditions := p.conditions, observedGeneration := p.observedGeneration)
  }

  /** Mutations neither read nor write the controller's fields. */
  lemma ApplyUnderOverlay(m: Mutation, s: ApiKeyStatus, p: Patch)
    ensures Apply(m, Overlay(s, p)) == Overlay(Apply(m, s), p)
  {}

  lemma {:induction false} ReplayDecomposes(log: seq<Commit>, name: string)
    requires name in Replay(log)
    ensures StatusOf(Replay(log)[name]) ==
            Overlay(ApplyAll(MutationsOf(log, name), DEFAULT_STATUS), LastPatch(log, name))
  {
    var init, last := log[..|log| - 1], log[|log| - 1];
    if last.name != name {
      ReplayDecomposes(init, name);
    } else if !last.Created? {
      assert name in Replay(init);
      ReplayDecomposes(init, name);
      if last.Mutated? {
        var ms := MutationsOf(init, name);
        assert (ms + [last.mutation])[..|ms|] == ms;
        ApplyUnderOverlay(last.mutation, ApplyAll(ms, DEFAULT_STATUS), LastPatch(init, name));
      }
    }
  }

  /** No lost update in either direction. In every interleaving, and whatever stale copies the
      controller works from, the rotation fields of a stored status are the fold of all committed
      mutations in commit order, and its conditions are those of the last committed patch. */
  lemma StatusDecomposes(ctx: Validation.Context, steps: seq<Step>, name: string)
    requires name in Run(ctx, steps).objects
    ensures var s := Run(ctx, steps);
            StatusOf(s.objects[name].key) ==
            Overlay(ApplyAll(MutationsOf(s.log, name), DEFAULT_STATUS), LastPatch(s.log, name))
  {
    var s := Run(ctx, steps);
    RefinesMemoryRepository(ctx, steps);
    assert name in Contents(s);
    ReplayDecomposes(s.log, name);
  }

  /** So the stored history of every object, in every interleaving, is exactly its newest ten
      committed completions, newest first; the dates agree with it, and no target is listed twice. */
  lemma StoredHistory(ctx: Validation.Context, steps: seq<Step>, name: string)
    requires name in Run(ctx, steps).objects
    ensures var s := Run(ctx, steps);
            var status := StatusOf(s.objects[name].key);
            && status.history == Newest(Completions(MutationsOf(s.log, name)))
            && Coherent(status)
            && Distinct(Refs(status.targets))
  {
    var ms := MutationsOf(Run(ctx, steps).log, name);
    StatusDecomposes(ctx, steps, name);
    HistoryIsNewestFirst(ms);
    TargetsStayDistinct(ms);
  }

  /** Of the named object's status, at most the controller's fields have changed. */
  predicate SparesRotationFields(s: System, t: System, name: string) {
    && name in s.objects && name in t.objects
    && var before, after := StatusOf(s.objects[name].key), StatusOf(t.objects[name].key);
    after == Overlay(before, Patch(after.conditions, after.observedGeneration))
  }

  lemma SendSparesRotationFields(s: System, target: string, patch: Option<Patch>, name: string)
    requires name in s.objects
    ensures SparesRotationFields(s, Send(s, target, patch), name)
  {}

  /** One step at a time: a reconcile, from any cached copy, leaves the rotation fields of every object
      alone. */
  lemma PatchSparesRotationFields(s: System, ctx: Validation.Context, target: string, cached: ApiKey, now: Timestamp,
                                  name: string)
    requires name in s.objects
    ensures SparesRotationFields(s, Next(s, ctx, ControllerRuns(target, cached, now)), name)
  {
    var patch := Reconcile(cached, ctx, now);
    ControllerSends(s, ctx, target, cached, now, patch);
    SendSparesRotationFields(s, target, patch, name);
  }

  lemma ControllerSends(s: System, ctx: Validation.Context, target: string, cached: ApiKey, now: Timestamp,
                        patch: Option<Patch>)
    requires patch == Reconcile(cached, ctx, now)
    ensures Next(s, ctx, ControllerRuns(target, cached, now)) == Send(s, target, patch)
  {}

  /** And an accepted replace leaves the conditions as they are at that moment, including those
      committed since anything the call has read before. */
  lemma ReplaceSparesConditions(ctx: Validation.Context, steps: seq<Step>, c: nat, step: Step, name: string)
    requires step == Replace(c) || step == LoseReply(c)
    requires name in Run(ctx, steps).objects
    ensures var s := Run(ctx, steps);
            && name in Next(s, ctx, step).objects
            && var before, after := StatusOf(s.objects[name].key), StatusOf(Next(s, ctx, step).objects[name].key);
            after.conditions == before.conditions && after.observedGeneration == before.observedGeneration
  {
    var s := Run(ctx, steps);
    EveryRunKeepsInv(ctx, steps);
    if IsHolding(s, c) && Current(s, c) {
      CurrentMeansUnchanged(s, c);
    }
  }

  // ------------------------------------------------------------------------
  // The limit of the patch

  /** Among themselves, patches can undo each other: the controller's copy carries no version, so a
      run from a stale one brings back the conditions it had then. After such a run the conditions
      other than `Valid` are those of the copy; they are the stored ones if and only if the copy
      agrees with the store on them. */
  lemma StaleCopyOverwritesConditions(stored: ApiKey, cached: ApiKey, ctx: Validation.Context, now: Timestamp)
    requires Reconcile(cached, ctx, now).Some?
    ensures var after := StatusOf(Patched(stored, Reconcile(cached, ctx, now).value)).conditions;
            && Others(after) == Others(StatusOf(cached).conditions)
            && (Others(after) == Others(StatusOf(stored).conditions) <==>
                Others(StatusOf(cached).conditions) == Others(StatusOf(stored).conditions))
  {
    ReplaceValid(StatusOf(cached).conditions, DesiredValidCondition(cached, ctx, now).value);
  }

  lemma RunThree(ctx: Validation.Context, x: Step, y: Step, z: Step)
    ensures Run(ctx, [x]) == Next(EMPTY, ctx, x)
    ensures Run(ctx, [x, y]) == Next(Next(EMPTY, ctx, x), ctx, y)
    ensures Run(ctx, [x, y, z]) == Next(Next(Next(EMPTY, ctx, x), ctx, y), ctx, z)
  {
    RunStep(ctx, [], x);
    RunStep(ctx, [x], y);
    RunStep(ctx, [x, y], z);
    assert [] + [x] == [x] && [x] + [y] == [x, y] && [x, y] + [z] == [x, y, z];
  }

  lemma DesiredForNew(ctx: Validation.Context, spec: ApiKeySpec, now: Timestamp)
    ensures var patch := Reconcile(ApiKey(Some(1), spec, None), ctx, now);
            patch.Some? && forall c | c in patch.value.conditions :: c.kind == VALID
  {
    assert Others([]) == [];
  }

  /** Such a run: the controller takes its copy when the object is created, another controller adds a
      condition, and the reconcile of the copy, which was the stored object then, removes it. */
  lemma StaleCopyLosesACondition(ctx: Validation.Context, name: string, spec: ApiKeySpec, c: Condition,
                                 copy: ApiKey, now: Timestamp)
    requires c.kind != VALID && copy == ApiKey(Some(1), spec, None)
    ensures var create, add, reconcile :=
              Create(name, spec), PatchConditions(name, Patch([c], None)), ControllerRuns(name, copy, now);
            var created, added, after :=
              Run(ctx, [create]), Run(ctx, [create, add]), Run(ctx, [create, add, reconcile]);
            && name in created.objects && created.objects[name].key == copy
            && name in added.objects && c in StatusOf(added.objects[name].key).conditions
            && name in after.objects && c !in StatusOf(after.objects[name].key).conditions
  {
    RunThree(ctx, Create(name, spec), PatchConditions(name, Patch([c], None)), ControllerRuns(name, copy, now));
    DesiredForNew(ctx, spec, now);
  }
}
