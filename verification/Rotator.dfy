// src/rotation.rs: the service that runs a rotation, and the recording of one by hand.
module Rotator {
  import opened Wrappers
  import opened Crd
  import opened Bookkeeping
  import opened Repo
  import opened Protocol
  import opened KubeRepo
  import opened Rotation
  import OpenBao
  import Text
  import Validation
  import WriterFacts

  /** The provider's answer about a key. */
  type Prober = (Provider, string) -> ProbeReply

  datatype RecordError = FutureDate | ExpiryBeforeRotation | NotRecorded(repoError: RepoError)

  class RotationService {
    const repo: KubeRepository
    const writer: OpenBao.Client
    const prober: Prober
    var ok: nat
    var failed: nat
    var partial: nat
    var rejected: nat
    ghost var rotations: nat

    /** Every call of `rotate` has been counted under one label. */
    ghost predicate Counted()
      reads this
    {
      ok + failed + partial + rejected == rotations
    }

    constructor (repo: KubeRepository, writer: OpenBao.Client, prober: Prober)
      ensures this.repo == repo && this.writer == writer && this.prober == prober
      ensures Counted() && rotations == 0
    {
      this.repo, this.writer, this.prober := repo, writer, prober;
      ok, failed, partial, rejected, rotations := 0, 0, 0, 0, 0;
    }

    ghost function ReplyTo(key: Option<ApiKey>, value: string): ProbeReply {
      if key.Some? then prober(key.value.spec.provider, value) else Ok(None)
    }

    function Known(name: string): Option<ApiKey>
      reads repo
    {
      if name in repo.store then Some(repo.store[name]) else None
    }

    /** The submission that a request comes to in the present state. */
    ghost function Planned(name: string, req: RotateRequest, now: Timestamp): Submission
      reads this, repo, writer
    {
      Submit(writer.View(), Known(name), repo.ctx, req, ReplyTo(Known(name), req.value), now)
    }

    /** The gates, then the probe. */
    method RunPrecheck(name: string, req: RotateRequest) returns (r: Result<ProbeOutcome, RotateError>)
      modifies repo`events
      ensures match Precheck(Known(name), repo.ctx, req, ReplyTo(Known(name), req.value))
              case Ok(probe) => r == Ok(probe) && repo.events == old(repo.events)
              case Err((e, event)) =>
                r == Err(e) && repo.events == old(repo.events) + (if event.Some? then [(name, event.value)] else [])
    {
      var key := repo.Get(name);
      if key.None? {
        return Err(KeyNotFound);
      }
      var spec := key.value.spec;
      if Text.Blank(req.value) {
        return Err(EmptyKey);
      }
      if spec.targets == [] {
        return Err(NoTargets);
      }
      var problems := Validation.Validate(spec, repo.ctx);
      if problems != [] {
        return Err(InvalidSpec(problems));
      }
      if req.skipVerification {
        return Ok(Skipped);
      }
      if spec.provider == Generic {
        return Ok(NotSupported);
      }
      match prober(spec.provider, req.value) {
        case Ok(Some(found)) =>
          return Ok(Checked(found));
        case Ok(None) =>
          return Ok(NotSupported);
        case Err(e) =>
          repo.RecordEvent(name, RotationRejected(req.actor, e.detail));
          return Err(ProbeFailed(e));
      }
    }

    /** The status update, and the event if it went through. */
    method Finish(c: nat, name: string, actor: Actor, m: Mutation, outcome: RotateOutcome)
      returns (result: Result<RotateOutcome, RotateError>)
      requires repo.Valid() && c !in repo.calls
      modifies repo
      ensures repo.Valid() && old(repo.log) <= repo.log
      ensures repo.Answered(c, |old(repo.log)|, name, m)
      ensures var reply := repo.calls[c].phase.reply;
              && Served(old(repo.View()), old(repo.turns), repo.View(), repo.turns, c, name, m, reply)
              && result == (match reply case Ok(_) => Ok(outcome) case Err(e) => Err(StatusNotSaved(e)))
              && repo.events == old(repo.events) + (if reply.Ok? then [(name, OutcomeEvent(actor, outcome))] else [])
    {
      var reply, _, _ := repo.UpdateStatus(c, name, m);
      if reply.Err? {
        return Err(StatusNotSaved(reply.error));
      }
      repo.RecordEvent(name, OutcomeEvent(actor, outcome));
      return Ok(outcome);
    }

    /** The write loop. */
    method WriteTargets(targets: seq<TargetSpec>, value: string) returns (outcomes: seq<TargetOutcome>)
      modifies writer
      ensures var (after, results) := WriterFacts.WriteAll(old(writer.View()), targets, value);
              && |results| == |targets|
              && writer.View() == after && outcomes == WriterFacts.OutcomesOf(targets, results)
    {
      outcomes := [];
      ghost var results, before := [], writer.View();
      for i := 0 to |targets|
        invariant (writer.View(), results) == WriterFacts.WriteAll(before, targets[..i], value)
        invariant |results| == i && outcomes == WriterFacts.OutcomesOf(targets[..i], results)
      {
        var result := writer.WriteTarget(targets[i], value);
        WriterFacts.WriteNext(before, targets, value, i);
        outcomes := outcomes + [WriterFacts.OutcomeOf(targets[i], result)];
        results := results + [result];
      }
      assert targets[..|targets|] == targets;
    }

    /** What a request comes to: refused, it changes nothing but for the event of a failed probe;
        submitted, it is written to the targets, its mutation is committed as `update_status`
        guarantees, and its event is only recorded if that succeeded. The last four parameters are
        the repository, its turns, the writer's world and the events before. */
    ghost predicate CarriedOut(plan: Submission, c: nat, name: string, actor: Actor,
                               result: Result<RotateOutcome, RotateError>,
                               before: System, turns: seq<Turn>, bao: OpenBao.Bao,
                               events: seq<(string, AuditEvent)>)
      reads this, repo, writer
    {
      match plan
      case Refused(e, event) =>
        && result == Err(e) && writer.View() == bao && repo.View() == before
        && repo.events == events + (if event.Some? then [(name, event.value)] else [])
      case Submitted(after, m, outcome) =>
        && writer.View() == after
        && repo.Answered(c, |before.log|, name, m)
        && var reply := repo.calls[c].phase.reply;
        && Served(before, turns, repo.View(), repo.turns, c, name, m, reply)
        && result == (match reply case Ok(_) => Ok(outcome) case Err(e) => Err(StatusNotSaved(e)))
        && repo.events == events + (if reply.Ok? then [(name, OutcomeEvent(actor, outcome))] else [])
    }

    /** `rotate_inner`. */
    method RotateInner(c: nat, name: string, req: RotateRequest, now: Timestamp)
      returns (result: Result<RotateOutcome, RotateError>, ghost plan: Submission)
      requires repo.Valid() && c !in repo.calls
      modifies repo, writer
      ensures plan == old(Planned(name, req, now))
      ensures repo.Valid() && old(repo.log) <= repo.log
      ensures CarriedOut(plan, c, name, req.actor, result,
                         old(repo.View()), old(repo.turns), old(writer.View()), old(repo.events))
    {
      plan := Planned(name, req, now);
      var key := repo.Get(name);
      var checked := RunPrecheck(name, req);
      if checked.Err? {
        result := Err(checked.error);
        return;
      }
      var probe, targets := checked.value, key.value.spec.targets;
      var outcomes := WriteTargets(targets, req.value);
      var m := StoreOutcome(now, req.actor, req.manualExpiresAt, ProbeStatusOf(probe, now), outcomes,
                            Validation.References(targets));
      var outcome := RotateOutcome(probe, outcomes, AllWritten(outcomes), Mismatch(probe, req.manualExpiresAt));
      result := Finish(c, name, req.actor, m, outcome);
    }

    method Count(under: Label)
      requires Counted()
      modifies this`ok, this`failed, this`partial, this`rejected, this`rotations
      ensures Counted() && rotations == old(rotations) + 1
      ensures ok == old(ok) + (if under == LabelOk then 1 else 0)
      ensures failed == old(failed) + (if under == LabelFailed then 1 else 0)
      ensures partial == old(partial) + (if under == LabelPartial then 1 else 0)
      ensures rejected == old(rejected) + (if under == LabelRejected then 1 else 0)
    {
      match under {
        case LabelOk => ok := ok + 1;
        case LabelFailed => failed := failed + 1;
        case LabelPartial => partial := partial + 1;
        case LabelRejected => rejected := rejected + 1;
      }
      rotations := rotations + 1;
    }

    /** `rotate`: the request is carried out, and exactly one counter goes up, whatever happens. */
    method Rotate(c: nat, name: string, req: RotateRequest, now: Timestamp)
      returns (result: Result<RotateOutcome, RotateError>, ghost plan: Submission)
      requires repo.Valid() && c !in repo.calls && Counted()
      modifies repo, writer, this`ok, this`failed, this`partial, this`rejected, this`rotations
      ensures repo.Valid() && old(repo.log) <= repo.log
      ensures Counted() && rotations == old(rotations) + 1
      ensures ok == old(ok) + (if LabelOf(result) == LabelOk then 1 else 0)
      ensures failed == old(failed) + (if LabelOf(result) == LabelFailed then 1 else 0)
      ensures partial == old(partial) + (if LabelOf(result) == LabelPartial then 1 else 0)
      ensures rejected == old(rejected) + (if LabelOf(result) == LabelRejected then 1 else 0)
      ensures plan == old(Planned(name, req, now))
      ensures CarriedOut(plan, c, name, req.actor, result,
                         old(repo.View()), old(repo.turns), old(writer.View()), old(repo.events))
    {
      result, plan := RotateInner(c, name, req, now);
      Count(LabelOf(result));
    }

    /** `record`: dates are checked, and only dates in order reach the status. */
    method Record(c: nat, name: string, actor: Actor, rotatedAt: Timestamp, expiresAt: Option<Timestamp>, now: Timestamp)
      returns (result: Result<ApiKey, RecordError>)
      requires repo.Valid() && c !in repo.calls
      modifies repo
      ensures repo.Valid() && old(repo.log) <= repo.log
      ensures result == Err(FutureDate) <==> rotatedAt > now
      ensures result == Err(ExpiryBeforeRotation) <==>
              rotatedAt <= now && expiresAt.Some? && expiresAt.value < rotatedAt
      ensures result.Err? && !result.error.NotRecorded? ==>
                repo.View() == old(repo.View()) && repo.events == old(repo.events)
      ensures result.Ok? || result.error.NotRecorded? ==>
                && var reply := (match result case Ok(key) => Ok(key) case Err(e) => Err(e.repoError));
                && repo.Answered(c, |old(repo.log)|, name, RecordRotation(rotatedAt, actor, expiresAt))
                && repo.calls[c].phase.reply == reply
                && Served(old(repo.View()), old(repo.turns), repo.View(), repo.turns, c, name,
                          RecordRotation(rotatedAt, actor, expiresAt), reply)
                && repo.events == old(repo.events)
                   + (if result.Ok? then [(name, RotationRecorded(actor, rotatedAt, expiresAt))] else [])
    {
      if rotatedAt > now {
        return Err(FutureDate);
      }
      if expiresAt.Some? && expiresAt.value < rotatedAt {
        return Err(ExpiryBeforeRotation);
      }
      var reply, _, _ := repo.UpdateStatus(c, name, RecordRotation(rotatedAt, actor, expiresAt));
      if reply.Err? {
        return Err(NotRecorded(reply.error));
      }
      repo.RecordEvent(name, RotationRecorded(actor, rotatedAt, expiresAt));
      return Ok(reply.value);
    }
  }
}
