// src/rotation.rs: the flow of a rotation as a function of what it is told: gates, probe, writes and
// the mutation that stores the outcome.
module Rotation {
  import opened Text
  import opened Wrappers
  import opened Sequences
  import opened Crd
  import opened Integers
  import opened Validation
  import opened Bookkeeping
  import opened Repo
  import opened OpenBao
  import opened OtherKeys
  import opened WriteResults
  import opened WriterFacts

  datatype RotateRequest = RotateRequest(
    value: string,
    actor: Actor,
    manualExpiresAt: Option<Timestamp>,
    skipVerification: bool)

  datatype ProbeResult = ProbeResult(expiresAt: Option<Timestamp>, identity: Option<string>)

  datatype ProbeError = KeyRejected(detail: string) | Unavailable(detail: string)

  /** `Ok(None)` means that the provider has no probe. */
  type ProbeReply = Result<Option<ProbeResult>, ProbeError>

  datatype ProbeOutcome = NotSupported | Skipped | Checked(probed: ProbeResult)

  datatype RotateOutcome = RotateOutcome(
    probe: ProbeOutcome,
    targets: seq<TargetOutcome>,
    completed: bool,
    expiryMismatch: bool)

  datatype RotateError =
    | KeyNotFound
    | EmptyKey
    | NoTargets
    | InvalidSpec(problems: seq<Problem>)
    | ProbeFailed(probeError: ProbeError)
    | StatusNotSaved(repoError: RepoError)

  /** The checks before anything is sent anywhere. */
  function Gate(key: Option<ApiKey>, value: string, ctx: Context): Option<RotateError> {
    if key.None? then Some(KeyNotFound)
    else if Blank(value) then Some(EmptyKey)
    else if key.value.spec.targets == [] then Some(NoTargets)
    else
      var problems := Problems(key.value.spec, ctx);
      if problems != [] then Some(InvalidSpec(problems)) else None
  }

  function ProbeOf(provider: Provider, skip: bool, reply: ProbeReply): Result<ProbeOutcome, ProbeError> {
    if skip then Ok(Skipped)
    else if provider == Generic then Ok(NotSupported)
    else
      match reply
      case Ok(Some(r)) => Ok(Checked(r))
      case Ok(None) => Ok(NotSupported)
      case Err(e) => Err(e)
  }

  function ProbeStatusOf(probe: ProbeOutcome, now: Timestamp): Option<ProbeStatus> {
    match probe
    case Checked(r) => Some(ProbeStatus(now, r.identity, r.expiresAt))
    case _ => None
  }

  function DayOf(t: Timestamp): int {
    TruncDiv(AsSecond(t), 86_400)
  }

  function Mismatch(probe: ProbeOutcome, manual: Option<Timestamp>): bool {
    && probe.Checked? && probe.probed.expiresAt.Some? && manual.Some?
    && DayOf(probe.probed.expiresAt.value) != DayOf(manual.value)
  }

  /** What a request comes to before its outcome is stored. */
  datatype Submission =
    | Refused(error: RotateError, event: Option<AuditEvent>)
    | Submitted(bao: Bao, mutation: Mutation, outcome: RotateOutcome)

  /** The gates and the probe: what the probe found, or why the request is refused and what is
      recorded about it. */
  function Precheck(key: Option<ApiKey>, ctx: Context, req: RotateRequest, reply: ProbeReply)
    : (r: Result<ProbeOutcome, (RotateError, Option<AuditEvent>)>)
    ensures r.Ok? ==> key.Some?
  {
    match Gate(key, req.value, ctx)
    case Some(e) => Err((e, None))
    case None =>
      match ProbeOf(key.value.spec.provider, req.skipVerification, reply)
      case Err(e) => Err((ProbeFailed(e), Some(RotationRejected(req.actor, e.detail))))
      case Ok(probe) => Ok(probe)
  }

  /** All of `rotate_inner` up to the status update. */
  function Submit(bao: Bao, key: Option<ApiKey>, ctx: Context, req: RotateRequest, reply: ProbeReply, now: Timestamp)
    : Submission
  {
    match Precheck(key, ctx, req, reply)
    case Err((e, event)) => Refused(e, event)
    case Ok(probe) =>
      var spec := key.value.spec;
      var (after, results) := WriteAll(bao, spec.targets, req.value);
      WriteAllLog(bao, spec.targets, req.value);
      var outcomes := OutcomesOf(spec.targets, results);
      Submitted(after,
                StoreOutcome(now, req.actor, req.manualExpiresAt, ProbeStatusOf(probe, now), outcomes,
                             References(spec.targets)),
                RotateOutcome(probe, outcomes, AllWritten(outcomes), Mismatch(probe, req.manualExpiresAt)))
  }

  function FailedRefs(outcomes: seq<TargetOutcome>): seq<string> {
    if outcomes == [] then []
    else
      var n := |outcomes| - 1;
      FailedRefs(outcomes[..n]) + (if outcomes[n].error.Some? then [outcomes[n].reference] else [])
  }

  /** The failure event names exactly the targets that were not written. */
  lemma {:induction false} FailedRefsAreTheFailures(outcomes: seq<TargetOutcome>, reference: string)
    ensures reference in FailedRefs(outcomes) <==>
            exists o | o in outcomes :: o.error.Some? && o.reference == reference
    ensures FailedRefs(outcomes) == [] <==> AllWritten(outcomes)
    ensures |FailedRefs(outcomes)| == |Filter(outcomes, HasError)|
  {
    if outcomes != [] {
      var n := |outcomes| - 1;
      var init, last := outcomes[..n], outcomes[n];
      FailedRefsAreTheFailures(init, reference);
      assert outcomes == init + [last];
      assert forall o :: o in outcomes <==> o in init || o == last;
    }
  }

  /** The event of an outcome that was stored: a rotation, with the number of targets, or a failure,
      with the targets that failed. */
  function OutcomeEvent(actor: Actor, outcome: RotateOutcome): AuditEvent {
    if outcome.completed then KeyRotated(actor, |outcome.targets|)
    else RotationFailed(actor, FailedRefs(outcome.targets))
  }

  // ------------------------------------------------------------------------
  // What must hold before anything is written

  /** A key is written if and only if it is known, the value is not blank, the spec is well formed
      and names a target, and the probe succeeded, was skipped or is not supported. */
  lemma WritesOnlyBehindTheGates(bao: Bao, key: Option<ApiKey>, ctx: Context, req: RotateRequest, reply: ProbeReply,
                                 now: Timestamp)
    ensures Submit(bao, key, ctx, req, reply, now).Submitted? <==>
            && key.Some?
            && !Blank(req.value)
            && key.value.spec.targets != []
            && WellFormed(key.value.spec, ctx)
            && (req.skipVerification || key.value.spec.provider == Generic || reply.Ok?)
  {
    if key.Some? {
      ValidateDecides(key.value.spec, ctx);
    }
  }

  /** What is written then: each target of the spec once, in order, and the status is told exactly
      what came of it, under the references of the spec, which are pairwise distinct. */
  lemma OutcomesMatchTheSpec(bao: Bao, key: Option<ApiKey>, ctx: Context, req: RotateRequest, reply: ProbeReply,
                             now: Timestamp)
    requires Submit(bao, key, ctx, req, reply, now).Submitted?
    ensures var s := Submit(bao, key, ctx, req, reply, now);
            && var (after, results) := WriteAll(bao, key.value.spec.targets, req.value);
            && |results| == |key.value.spec.targets|
            && s.bao == after && s.outcome.targets == OutcomesOf(key.value.spec.targets, results)
            && s.outcome.targets != []
            && s.mutation.StoreOutcome? && s.mutation.outcomes == s.outcome.targets
            && OutcomeRefs(s.mutation.outcomes) == s.mutation.specRefs == References(key.value.spec.targets)
            && Distinct(s.mutation.specRefs)
  {
    var targets := key.value.spec.targets;
    ValidateDecides(key.value.spec, ctx);
    WriteAllLog(bao, targets, req.value);
    OutcomeReferences(targets, WriteAll(bao, targets, req.value).1);
  }

  // ------------------------------------------------------------------------
  // What the request and the probe decide

  /** What the provider said about the key, if it was asked and said something. */
  function Found(provider: Provider, req: RotateRequest, reply: ProbeReply): Option<ProbeResult> {
    if !req.skipVerification && provider != Generic && reply.Ok? then reply.value else None
  }

  /** The UTC day that a moment is counted to: its own, or the next one inside a day before 1970. */
  function CountedDay(t: Timestamp): int {
    FloorDay(t) + (if CountedLate(t) then 1 else 0)
  }

  /** What is submitted about the rotation as a whole: when and by whom, the expiry entered by hand,
      and what the probe found at that moment; and the outcome says whether it was asked, and whether
      its expiry and the one by hand fall on different days. */
  lemma SubmissionCarriesTheProbe(bao: Bao, key: Option<ApiKey>, ctx: Context, req: RotateRequest, reply: ProbeReply,
                                  now: Timestamp)
    requires Submit(bao, key, ctx, req, reply, now).Submitted?
    ensures var s, found := Submit(bao, key, ctx, req, reply, now), Found(key.value.spec.provider, req, reply);
            && s.mutation.StoreOutcome?
            && s.mutation.at == now && s.mutation.actor == req.actor
            && s.mutation.manualExpiresAt == req.manualExpiresAt
            && (s.mutation.probe.Some? <==> found.Some?)
            && (found.Some? ==>
                  && s.mutation.probe.value.at == now
                  && s.mutation.probe.value.identity == found.value.identity
                  && s.mutation.probe.value.expiresAt == found.value.expiresAt)
            && (s.outcome.probe.Skipped? <==> req.skipVerification)
            && (s.outcome.probe.Checked? <==> found.Some?)
            && (found.Some? ==> s.outcome.probe == Checked(found.value))
            && (s.outcome.expiryMismatch <==>
                  && found.Some? && found.value.expiresAt.Some? && req.manualExpiresAt.Some?
                  && CountedDay(found.value.expiresAt.value) != CountedDay(req.manualExpiresAt.value))
  {
    var found := Found(key.value.spec.provider, req, reply);
    if found.Some? && found.value.expiresAt.Some? && req.manualExpiresAt.Some? {
      DayOfTimestamp(found.value.expiresAt.value);
      DayOfTimestamp(req.manualExpiresAt.value);
    }
  }

  /** Once stored, the status lists every target of the spec once, with what came of it, and no
      other target, whatever was listed before. */
  lemma StoredTargetsAreTheSpecs(bao: Bao, key: Option<ApiKey>, ctx: Context, req: RotateRequest, reply: ProbeReply,
                                 now: Timestamp, status: ApiKeyStatus)
    requires Submit(bao, key, ctx, req, reply, now).Submitted?
    requires Distinct(Refs(status.targets))
    ensures var s := Submit(bao, key, ctx, req, reply, now);
            var after := Apply(s.mutation, status);
            && ReportsAll(after.targets, s.outcome.targets, now)
            && (s.outcome.completed <==> Completion(s.mutation).Some?)
  {
    OutcomesMatchTheSpec(bao, key, ctx, req, reply, now);
    var m := Submit(bao, key, ctx, req, reply, now).mutation;
    MergedIsOnePerTarget(status.targets, m.outcomes, m.specRefs, now);
  }

  /** A completed rotation has written every target without error, a partial one those reported so. */
  lemma ReportedAsWritten(bao: Bao, key: Option<ApiKey>, ctx: Context, req: RotateRequest, reply: ProbeReply,
                          now: Timestamp, i: nat)
    requires Submit(bao, key, ctx, req, reply, now).Submitted?
    requires i < |key.value.spec.targets|
    ensures var s, results := Submit(bao, key, ctx, req, reply, now), WriteAll(bao, key.value.spec.targets, req.value).1;
            && |results| == |s.outcome.targets| == |key.value.spec.targets|
            && (s.outcome.completed ==> s.outcome.targets[i].error.None?)
            && (s.outcome.targets[i].error.None? <==> results[i].Ok?)
  {
    OutcomesMatchTheSpec(bao, key, ctx, req, reply, now);
    var s, targets := Submit(bao, key, ctx, req, reply, now), key.value.spec.targets;
    assert s.outcome.targets[i] == OutcomeOf(targets[i], WriteAll(bao, targets, req.value).1[i]);
    assert s.outcome.targets[i] in s.outcome.targets;
  }

  /** The store after a rotation, against every server: a key at a target that is reported as written,
      and that no later target names, holds the new value, and a key that no target names is as it
      was; either is gone if the server has a write (a later one, in the first case) clobber its path. */
  lemma StoreAfterRotation(bao: Bao, key: Option<ApiKey>, ctx: Context, req: RotateRequest, reply: ProbeReply,
                           now: Timestamp, l: Location, k: string)
    requires Submit(bao, key, ctx, req, reply, now).Submitted?
    ensures var s, targets := Submit(bao, key, ctx, req, reply, now), key.value.spec.targets;
            && |s.outcome.targets| == |targets|
            && (forall i | 0 <= i < |targets| && (s.outcome.completed || s.outcome.targets[i].error.None?)
                           && LastFor(targets, i, l, k) ::
                  Lookup(s.bao.store, l, k) == if Lost(bao, targets, req.value, l, i + 1) then None else Some(req.value))
            && (!Targeted(targets, l, k) ==>
                  Lookup(s.bao.store, l, k) ==
                  if Lost(bao, targets, req.value, l, 0) then None else Lookup(bao.store, l, k))
  {
    var s, targets := Submit(bao, key, ctx, req, reply, now), key.value.spec.targets;
    OutcomesMatchTheSpec(bao, key, ctx, req, reply, now);
    RotationKeepsIff(bao, targets, req.value, l, k);
    forall i | 0 <= i < |targets| && (s.outcome.completed || s.outcome.targets[i].error.None?) && LastFor(targets, i, l, k)
      ensures Lookup(s.bao.store, l, k) == if Lost(bao, targets, req.value, l, i + 1) then None else Some(req.value)
    {
      ReportedAsWritten(bao, key, ctx, req, reply, now, i);
    }
  }

  /** Against a server that is honest about what exists, nothing is lost: a completed rotation leaves
      the new value at every target, a partial one at every target reported without error, and either
      way nothing else in the store has changed. */
  lemma StoreAfterHonestRotation(bao: Bao, key: Option<ApiKey>, ctx: Context, req: RotateRequest, reply: ProbeReply,
                                 now: Timestamp)
    requires Submit(bao, key, ctx, req, reply, now).Submitted?
    requires Truthful(bao.turns)
    ensures var s, targets := Submit(bao, key, ctx, req, reply, now), key.value.spec.targets;
            && |s.outcome.targets| == |targets|
            && (forall i | 0 <= i < |targets| && (s.outcome.completed || s.outcome.targets[i].error.None?) ::
                  Holds(s.bao.store, targets[i], req.value))
            && (forall l, k | !Targeted(targets, l, k) :: Lookup(s.bao.store, l, k) == Lookup(bao.store, l, k))
  {
    var s, targets := Submit(bao, key, ctx, req, reply, now), key.value.spec.targets;
    OutcomesMatchTheSpec(bao, key, ctx, req, reply, now);
    RotationWritesExactlyTheTargets(bao, targets, req.value);
    forall i | 0 <= i < |targets| && (s.outcome.completed || s.outcome.targets[i].error.None?)
      ensures Holds(s.bao.store, targets[i], req.value)
    {
      ReportedAsWritten(bao, key, ctx, req, reply, now, i);
    }
  }

  /** A target is reported as written if and only if its write was going to succeed, and the rotation as
      completed if and only if all were. */
  lemma CompletedIff(bao: Bao, key: Option<ApiKey>, ctx: Context, req: RotateRequest, reply: ProbeReply, now: Timestamp)
    requires Submit(bao, key, ctx, req, reply, now).Submitted?
    ensures var s, targets := Submit(bao, key, ctx, req, reply, now), key.value.spec.targets;
            && |s.outcome.targets| == |targets|
            && (forall i | 0 <= i < |targets| ::
                  s.outcome.targets[i].error.None? <==> TargetSucceeds(bao, targets, req.value, i))
            && (s.outcome.completed <==> forall i | 0 <= i < |targets| :: TargetSucceeds(bao, targets, req.value, i))
  {
    var s, targets := Submit(bao, key, ctx, req, reply, now), key.value.spec.targets;
    OutcomesMatchTheSpec(bao, key, ctx, req, reply, now);
    forall i | 0 <= i < |targets|
      ensures s.outcome.targets[i].error.None? <==> TargetSucceeds(bao, targets, req.value, i)
    {
      ReportedAsWritten(bao, key, ctx, req, reply, now, i);
      EachSucceedsIff(bao, targets, req.value, i);
    }
    CompletedMeansAll(s.outcome.targets);
  }

  lemma CompletedMeansAll(outcomes: seq<TargetOutcome>)
    ensures AllWritten(outcomes) <==> forall i | 0 <= i < |outcomes| :: outcomes[i].error.None?
  {
    assert forall i | 0 <= i < |outcomes| :: outcomes[i] in outcomes;
  }

  /** Against a server that grants tokens and carries out every request, for as many requests as two
      per target, every submission completes: all targets hold the value, and nothing else changes. */
  lemma WillingServerCompletes(bao: Bao, key: Option<ApiKey>, ctx: Context, req: RotateRequest, reply: ProbeReply,
                               now: Timestamp)
    requires Submit(bao, key, ctx, req, reply, now).Submitted?
    requires Willing(bao.turns) && |bao.turns| >= 2 * |key.value.spec.targets|
    ensures var s, targets := Submit(bao, key, ctx, req, reply, now), key.value.spec.targets;
            && s.outcome.completed
            && (forall i | 0 <= i < |targets| :: Holds(s.bao.store, targets[i], req.value))
            && (forall l, k | !Targeted(targets, l, k) :: Lookup(s.bao.store, l, k) == Lookup(bao.store, l, k))
  {
    WillingCompletes(bao, key, ctx, req, reply, now);
    StoreAfterHonestRotation(bao, key, ctx, req, reply, now);
  }

  lemma WillingCompletes(bao: Bao, key: Option<ApiKey>, ctx: Context, req: RotateRequest, reply: ProbeReply,
                         now: Timestamp)
    requires Submit(bao, key, ctx, req, reply, now).Submitted?
    requires Willing(bao.turns) && |bao.turns| >= 2 * |key.value.spec.targets|
    ensures Submit(bao, key, ctx, req, reply, now).outcome.completed
  {
    var s, targets := Submit(bao, key, ctx, req, reply, now), key.value.spec.targets;
    SubmittedAreSet(bao, key, ctx, req, reply, now);
    WillingWriteAll(bao, targets, req.value);
    forall i | 0 <= i < |s.outcome.targets| ensures s.outcome.targets[i].error.None? {
      ReportedAsWritten(bao, key, ctx, req, reply, now, i);
    }
    CompletedMeansAll(s.outcome.targets);
  }

  lemma SubmittedAreSet(bao: Bao, key: Option<ApiKey>, ctx: Context, req: RotateRequest, reply: ProbeReply,
                        now: Timestamp)
    requires Submit(bao, key, ctx, req, reply, now).Submitted?
    ensures forall t | t in key.value.spec.targets :: t.openbao.Some?
  {
    ValidateDecides(key.value.spec, ctx);
    AllSet(key.value.spec.targets, ctx.allowed);
  }

  /** The value of the key leaves no trace: two requests that differ only in their values, neither of
      them blank, and get the same replies from probe and server, come to the same requests, status
      update, outcome and event, also if all stored secrets differ in their values. */
  lemma ValueLeavesNoTrace(bao: Bao, bao': Bao, key: Option<ApiKey>, ctx: Context,
                           req: RotateRequest, value': string, reply: ProbeReply, now: Timestamp)
    requires Alike(bao, bao') && !Blank(req.value) && !Blank(value')
    ensures var s, t := Submit(bao, key, ctx, req, reply, now),
                        Submit(bao', key, ctx, req.(value := value'), reply, now);
            match s
            case Refused(e, event) => t == Refused(e, event)
            case Submitted(after, m, outcome) =>
              t.Submitted? && t.mutation == m && t.outcome == outcome && Alike(after, t.bao)
              && after.requests == t.bao.requests
  {
    PrecheckIgnoresValue(key, ctx, req, value', reply);
    if Precheck(key, ctx, req, reply).Ok? {
      WriteAllAlike(bao, bao', key.value.spec.targets, req.value, value');
    }
  }

  lemma PrecheckIgnoresValue(key: Option<ApiKey>, ctx: Context, req: RotateRequest, value': string, reply: ProbeReply)
    requires !Blank(req.value) && !Blank(value')
    ensures Precheck(key, ctx, req, reply) == Precheck(key, ctx, req.(value := value'), reply)
  {}

  /** Why a request is refused: the first check that fails, in this order; and only a failed probe
      leaves an event, with what the provider said. */
  lemma RefusalsSayWhy(bao: Bao, key: Option<ApiKey>, ctx: Context, req: RotateRequest, reply: ProbeReply,
                       now: Timestamp)
    ensures var s := Submit(bao, key, ctx, req, reply, now);
            s.Refused? ==>
              && (s.error == KeyNotFound <==> key.None?)
              && (s.error == EmptyKey <==> key.Some? && Blank(req.value))
              && (s.error == NoTargets <==> key.Some? && !Blank(req.value) && key.value.spec.targets == [])
              && (s.error.InvalidSpec? <==>
                    key.Some? && !Blank(req.value) && key.value.spec.targets != [] && !WellFormed(key.value.spec, ctx))
              && (s.error.InvalidSpec? ==> s.error.problems == Problems(key.value.spec, ctx))
              && (s.error.ProbeFailed? ==>
                    && !req.skipVerification && key.value.spec.provider != Generic
                    && reply == Err(s.error.probeError)
                    && s.event == Some(RotationRejected(req.actor, s.error.probeError.detail)))
              && (!s.error.ProbeFailed? ==> s.event == None)
              && !s.error.StatusNotSaved?
  {
    if key.Some? {
      ValidateDecides(key.value.spec, ctx);
    }
  }

  /** What is recorded of a submission: a rotation by the actor if all targets were written, with
      their number, and otherwise a failure that names exactly the targets that were not. */
  lemma EventTells(bao: Bao, key: Option<ApiKey>, ctx: Context, req: RotateRequest, reply: ProbeReply,
                   now: Timestamp, reference: string)
    requires Submit(bao, key, ctx, req, reply, now).Submitted?
    ensures var outcome := Submit(bao, key, ctx, req, reply, now).outcome;
            var event := OutcomeEvent(req.actor, outcome);
            && event.actor == req.actor
            && (event.KeyRotated? <==> forall t | t in outcome.targets :: t.error.None?)
            && (event.KeyRotated? ==> event.written == |key.value.spec.targets|)
            && (event.RotationFailed? <==> exists t | t in outcome.targets :: t.error.Some?)
            && (event.RotationFailed? ==>
                  && |event.failed| == |Filter(outcome.targets, HasError)|
                  && (reference in event.failed <==>
                      exists t | t in outcome.targets :: t.error.Some? && t.reference == reference))
  {
    OutcomesMatchTheSpec(bao, key, ctx, req, reply, now);
    FailedRefsAreTheFailures(Submit(bao, key, ctx, req, reply, now).outcome.targets, reference);
  }

  // ------------------------------------------------------------------------
  // The counter

  datatype Label = LabelOk | LabelFailed | LabelPartial | LabelRejected

  /** The counter that `rotate` increments. */
  function LabelOf(result: Result<RotateOutcome, RotateError>): Label {
    match result
    case Err(_) => LabelRejected
    case Ok(o) =>
      if o.completed then LabelOk
      else if forall t | t in o.targets :: t.error.Some? then LabelFailed
      else LabelPartial
  }

  /** For the outcome of a submission: ok means all targets were written, failed that none was, and
      partial that at least one was and at least one was not. That ok and failed exclude each other
      rests on there being a target at all. */
  lemma LabelsMeanWhatTheySay(bao: Bao, key: Option<ApiKey>, ctx: Context, req: RotateRequest, reply: ProbeReply,
                              now: Timestamp)
    requires Submit(bao, key, ctx, req, reply, now).Submitted?
    ensures var outcome := Submit(bao, key, ctx, req, reply, now).outcome;
            var someWritten := exists t | t in outcome.targets :: t.error.None?;
            var someFailed := exists t | t in outcome.targets :: t.error.Some?;
            && (LabelOf(Ok(outcome)) == LabelOk <==> someWritten && !someFailed)
            && (LabelOf(Ok(outcome)) == LabelFailed <==> !someWritten && someFailed)
            && (LabelOf(Ok(outcome)) == LabelPartial <==> someWritten && someFailed)
  {
    OutcomesMatchTheSpec(bao, key, ctx, req, reply, now);
    var targets := Submit(bao, key, ctx, req, reply, now).outcome.targets;
    assert targets[0] in targets;
  }

  // ------------------------------------------------------------------------
  // Dates

  const DAY: int := 86_400 * NANOS

  function FloorDay(t: Timestamp): int {
    t / DAY
  }

  /** Inside a day before 1970: such a moment is counted to the day after. */
  predicate CountedLate(t: Timestamp) {
    t < 0 && t % DAY != 0
  }

  lemma DayOfTimestamp(t: Timestamp)
    ensures DayOf(t) == FloorDay(t) + (if CountedLate(t) then 1 else 0)
  {
    if t >= 0 {
      DayIsFloor(t);
    } else {
      DayIsFloor(-t);
      var q, rest := (-t) / DAY, (-t) % DAY;
      assert -t == DAY * q + rest;
      if rest == 0 {
        QuotientUnique(t, DAY, -q, 0);
      } else {
        QuotientUnique(t, DAY, -q - 1, DAY - rest);
      }
    }
  }

  lemma DayIsFloor(t: Timestamp)
    requires t >= 0
    ensures DayOf(t) == FloorDay(t)
  {
    var s := t / NANOS;
    var day, rest := s / 86_400, (s % 86_400) * NANOS + t % NANOS;
    assert t == s * NANOS + t % NANOS;
    assert s == 86_400 * day + s % 86_400;
    assert t == DAY * day + rest && 0 <= rest < DAY;
    QuotientUnique(t, DAY, day, rest);
  }

  /** One of two moments is counted late, and the other falls on the same day or the next. */
  predicate MiscountedPair(a: Timestamp, b: Timestamp) {
    CountedLate(a) && !CountedLate(b) && 0 <= FloorDay(b) - FloorDay(a) <= 1
  }

  /** A mismatch is reported exactly when the two expiries fall on different days in UTC, if and only
      if they are not a pair that the truncation of both divisions tells apart wrongly; for dates
      since 1970 they never are. */
  lemma MismatchIsByDayIff(result: ProbeResult, manual: Timestamp)
    requires result.expiresAt.Some?
    ensures var probed := result.expiresAt.value;
            && ((Mismatch(Checked(result), Some(manual)) <==> FloorDay(probed) != FloorDay(manual)) <==>
                !MiscountedPair(probed, manual) && !MiscountedPair(manual, probed))
            && (probed >= 0 && manual >= 0 ==> !MiscountedPair(probed, manual) && !MiscountedPair(manual, probed))
  {
    DayOfTimestamp(result.expiresAt.value);
    DayOfTimestamp(manual);
  }
}
