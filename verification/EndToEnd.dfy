// A rotation seen from the stored object, in every interleaving with other writers.
module EndToEnd {
  import opened Wrappers
  import opened Sequences
  import opened Crd
  import opened Bookkeeping
  import opened Protocol
  import opened Linearizability
  import opened KubeRepo
  import opened Rotation
  import opened OpenBao
  import Validation

  /** The object after a mutation in a log is the one before it with the mutation applied, and that
      one lists no target twice. */
  lemma MutatedFromPrevious(before: seq<Commit>, c: nat, name: string, m: Mutation)
    requires name in Replay(before + [Mutated(name, c, m)])
    ensures name in Replay(before)
    ensures var previous := StatusOf(Replay(before)[name]);
            && StatusOf(Replay(before + [Mutated(name, c, m)])[name]) == Apply(m, previous)
            && Distinct(Refs(previous.targets))
  {
    Snoc(before, Mutated(name, c, m));
    ReplayDecomposes(before, name);
    TargetsStayDistinct(MutationsOf(before, name));
  }

  /** The store as it was right before the call's commit. */
  function JustBefore(s: System, c: nat): map<string, ApiKey>
    requires c in s.calls && s.calls[c].phase.Done?
  {
    if s.calls[c].phase.at <= |s.log| then Replay(s.log[..s.calls[c].phase.at]) else map[]
  }

  lemma SavedFromPrevious(ctx: Validation.Context, steps: seq<Step>, c: nat)
    requires var s := Run(ctx, steps);
             c in s.calls && s.calls[c].phase.Done? && s.calls[c].phase.reply.Ok?
    ensures var s := Run(ctx, steps);
            var call := s.calls[c];
            && call.name in JustBefore(s, c)
            && var previous := StatusOf(JustBefore(s, c)[call.name]);
            && StatusOf(call.phase.reply.value) == Apply(call.mutation, previous)
            && Distinct(Refs(previous.targets))
  {
    var s := Run(ctx, steps);
    var call, at := s.calls[c], s.calls[c].phase.at;
    ExactlyOnce(ctx, steps, c);
    assert s.log[..at + 1] == s.log[..at] + [Mutated(call.name, c, call.mutation)];
    MutatedFromPrevious(s.log[..at], c, call.name, call.mutation);
  }

  /** The status tells of the rotation: it lists the targets of the spec with what came of each, and
      no others. If all were written, the rotation is the first of its history, the dates are those of
      the rotation, and the expiry is the one the probe found, or else the one entered by hand, or else
      none; otherwise all but the targets is as it was. */
  predicate Tells(saved: ApiKeyStatus, previous: ApiKeyStatus, outcome: RotateOutcome, req: RotateRequest,
                  found: Option<ProbeResult>, now: Timestamp) {
    && ReportsAll(saved.targets, outcome.targets, now)
    && (outcome.completed ==>
          && saved.history != []
          && saved.history[0].kind == Rotated
          && saved.history[0].actor == req.actor && saved.rotatedBy == Some(req.actor)
          && saved.lastRotated == Some(now) == Some(saved.history[0].at)
          && saved.expiresAt == saved.history[0].expiresAt
          && saved.history[1..] <= previous.history
          && ExpiryTells(saved, req.manualExpiresAt, found, now))
    && (!outcome.completed ==> saved == previous.(targets := saved.targets))
  }

  predicate ExpiryTells(saved: ApiKeyStatus, manual: Option<Timestamp>, found: Option<ProbeResult>, now: Timestamp) {
    && saved.manualExpiresAt == manual
    && (saved.probe.Some? <==> found.Some?)
    && (found.Some? ==>
          && saved.probe.value.at == now
          && saved.probe.value.identity == found.value.identity
          && saved.probe.value.expiresAt == found.value.expiresAt)
    && if found.Some? && found.value.expiresAt.Some? then
         saved.expiresAt == found.value.expiresAt && saved.expiresAtSource == Some(ByProbe)
       else if manual.Some? then saved.expiresAt == manual && saved.expiresAtSource == Some(ByHand)
       else saved.expiresAt == None && saved.expiresAtSource == Some(NoExpiry)
  }

  lemma FailedTargetKeepsDates(m: Mutation, s: ApiKeyStatus)
    requires m.StoreOutcome? && !AllWritten(m.outcomes)
    ensures Apply(m, s) == s.(targets := Apply(m, s).targets)
  {}

  /** What a completed rotation leaves besides the targets. */
  lemma CompletedTells(m: Mutation, previous: ApiKeyStatus, found: Option<ProbeResult>)
    requires m.StoreOutcome? && AllWritten(m.outcomes)
    requires m.probe.Some? <==> found.Some?
    requires found.Some? ==> m.probe.value == ProbeStatus(m.at, found.value.identity, found.value.expiresAt)
    ensures var saved := Apply(m, previous);
            && saved.history != []
            && saved.history[0].kind == Rotated
            && saved.history[0].actor == m.actor && saved.rotatedBy == Some(m.actor)
            && saved.lastRotated == Some(m.at) == Some(saved.history[0].at)
            && saved.expiresAt == saved.history[0].expiresAt
            && saved.history[1..] <= previous.history
            && ExpiryTells(saved, m.manualExpiresAt, found, m.at)
  {
    var saved := Apply(m, previous);
    assert saved.history == Truncate([saved.history[0]] + previous.history);
  }

  lemma StoredOutcomeTells(bao: Bao, key: Option<ApiKey>, ctx: Validation.Context, req: RotateRequest,
                           probe: ProbeReply, now: Timestamp, previous: ApiKeyStatus)
    requires Submit(bao, key, ctx, req, probe, now).Submitted?
    requires Distinct(Refs(previous.targets))
    ensures var plan := Submit(bao, key, ctx, req, probe, now);
            Tells(Apply(plan.mutation, previous), previous, plan.outcome, req,
                  Found(key.value.spec.provider, req, probe), now)
  {
    SubmissionCarriesTheProbe(bao, key, ctx, req, probe, now);
    StoredTargetsAreTheSpecs(bao, key, ctx, req, probe, now, previous);
    var plan := Submit(bao, key, ctx, req, probe, now);
    if plan.outcome.completed {
      CompletedTells(plan.mutation, previous, Found(key.value.spec.provider, req, probe));
    } else {
      FailedTargetKeepsDates(plan.mutation, previous);
    }
  }

  /** When a submitted key's status was saved, however many others wrote the object meanwhile: the
      saved object tells of this rotation, on top of what was stored right before it. */
  lemma SavedRotation(ctx: Validation.Context, steps: seq<Step>, c: nat,
                      bao: Bao, key: Option<ApiKey>, req: RotateRequest, probe: ProbeReply, now: Timestamp)
    requires Submit(bao, key, ctx, req, probe, now).Submitted?
    requires var s := Run(ctx, steps);
             && c in s.calls && s.calls[c].phase.Done? && s.calls[c].phase.reply.Ok?
             && s.calls[c].mutation == Submit(bao, key, ctx, req, probe, now).mutation
    ensures var s := Run(ctx, steps);
            && s.calls[c].name in JustBefore(s, c)
            && Tells(StatusOf(s.calls[c].phase.reply.value), StatusOf(JustBefore(s, c)[s.calls[c].name]),
                     Submit(bao, key, ctx, req, probe, now).outcome, req, Found(key.value.spec.provider, req, probe), now)
  {
    var s := Run(ctx, steps);
    SavedFromPrevious(ctx, steps, c);
    StoredOutcomeTells(bao, key, ctx, req, probe, now, StatusOf(JustBefore(s, c)[s.calls[c].name]));
  }

  /** So it is for the running service: after `rotate` has carried out a request, and its status was
      saved, the saved object tells of it. */
  lemma ServiceSavesRotation(repo: KubeRepository, c: nat, started: nat, name: string,
                             bao: Bao, key: Option<ApiKey>, req: RotateRequest, probe: ProbeReply, now: Timestamp)
    requires repo.Valid() && Submit(bao, key, repo.ctx, req, probe, now).Submitted?
    requires repo.Answered(c, started, name, Submit(bao, key, repo.ctx, req, probe, now).mutation)
    requires repo.calls[c].phase.reply.Ok?
    ensures var s := repo.View();
            && name in JustBefore(s, c)
            && Tells(StatusOf(repo.calls[c].phase.reply.value), StatusOf(JustBefore(s, c)[name]),
                     Submit(bao, key, repo.ctx, req, probe, now).outcome, req, Found(key.value.spec.provider, req, probe), now)
  {
    SavedRotation(repo.ctx, repo.steps, c, bao, key, req, probe, now);
  }
}
