// src/k8s.rs: the repository over the Kubernetes API, as the code runs it. Every request it makes is
// one step of the protocol, and between requests anything else may happen.
module KubeRepo {
  import opened Wrappers
  import opened Sequences
  import opened Crd
  import opened Bookkeeping
  import opened Conditions
  import opened Repo
  import opened Protocol
  import Linearizability
  import Validation

  /** How the network treats a request. */
  datatype Fault = Delivered | Rejected | ReplyLost

  /** What happens around one request: the steps that others take before it, and its fate. */
  datatype Turn = Turn(others: seq<Step>, fault: Fault)

  /** The turns left after `n` requests. */
  function Left(turns: seq<Turn>, n: nat): seq<Turn> {
    if n <= |turns| then turns[n..] else []
  }

  /** The fate of the next request; once no turns are left, requests are delivered. */
  function FateOf(turns: seq<Turn>): Fault {
    if turns == [] then Delivered else turns[0].fault
  }

  /** The first `n` requests are delivered. */
  predicate AllDelivered(turns: seq<Turn>, n: nat) {
    forall i | 0 <= i < n && i < |turns| :: turns[i].fault == Delivered
  }

  /** And no one does anything before any of them. */
  predicate Undisturbed(turns: seq<Turn>, n: nat) {
    AllDelivered(turns, n) && forall i | 0 <= i < n && i < |turns| :: turns[i].others == []
  }

  lemma DeliveredStep(turns: seq<Turn>, n: nat, k: nat)
    ensures AllDelivered(turns, n + k) <==> AllDelivered(turns, n) && AllDelivered(Left(turns, n), k)
    ensures Left(Left(turns, n), k) == Left(turns, n + k)
  {
    if n <= |turns| {
      assert forall i | 0 <= i < |turns| - n :: Left(turns, n)[i] == turns[n + i];
      if AllDelivered(turns, n) && AllDelivered(Left(turns, n), k) {
        forall i | 0 <= i < n + k && i < |turns| ensures turns[i].fault == Delivered {
          if i >= n { assert Left(turns, n)[i - n].fault == Delivered; }
        }
      }
    }
  }

  /** The object was missing at some moment since the log was `from` long. */
  predicate MissingSince(log: seq<Commit>, from: nat, name: string) {
    exists at | from <= at <= |log| :: name !in Replay(log[..at])
  }

  lemma StillMissing(earlier: seq<Commit>, log: seq<Commit>, from: nat, since: nat, name: string)
    requires earlier <= log && since <= from && MissingSince(earlier, from, name)
    ensures MissingSince(log, since, name)
  {
    var at :| from <= at <= |earlier| && name !in Replay(earlier[..at]);
    assert log[..at] == earlier[..at];
  }

  /** After `n` requests: a fault on the way ends it all with an error, and without one an object that
      is reported as missing, or as an error, was missing since the log was `from` long. */
  predicate Explained(turns: seq<Turn>, n: nat, log: seq<Commit>, from: nat, name: string,
                      reply: Result<ApiKey, RepoError>)
  {
    && (!AllDelivered(turns, n) ==> reply == Err(Kube))
    && (reply == Err(NotFound) || (reply == Err(Kube) && AllDelivered(turns, n)) ==> MissingSince(log, from, name))
  }

  lemma ExplainedStep(turns: seq<Turn>, n: nat, k: nat, log: seq<Commit>, from: nat, since: nat, name: string,
                      reply: Result<ApiKey, RepoError>)
    requires AllDelivered(turns, n) && since <= from
    requires Explained(Left(turns, n), k, log, from, name, reply)
    ensures Explained(turns, n + k, log, since, name, reply)
    ensures Left(Left(turns, n), k) == Left(turns, n + k)
  {
    DeliveredStep(turns, n, k);
    if MissingSince(log, from, name) {
      StillMissing(log, log, from, since, name);
    }
  }

  /** What becomes of an update that no one disturbs: the mutation is carried out. */
  predicate Updated(s: System, t: System, name: string, c: nat, m: Mutation, reply: Result<ApiKey, RepoError>) {
    if name in s.objects then
      && reply == Ok(WithMutation(s.objects[name].key, m))
      && t.objects == s.objects[name := Stored(t.revision, reply.value)]
      && t.log == s.log + [Mutated(name, c, m)]
    else reply == Err(NotFound) && t.objects == s.objects && t.log == s.log
  }

  /** A call that goes on with one attempt less after a conflict, while it has one, and otherwise ends
      with the reply. */
  predicate MovedOn(before: Call, now: Call, reply: Result<ApiKey, RepoError>)
    requires !before.phase.Done?
  {
    && now == before.(phase := now.phase)
    && if reply == Err(Conflict) && before.phase.attempt + 1 < MAX_STATUS_ATTEMPTS
       then now.phase == Reading(before.phase.attempt + 1)
       else now.phase.Done? && now.phase.reply == reply
  }

  /** How the server answers a replace that reaches it: Ok if and only if the object is there at the
      version sent, and then the status sent is stored as exactly one commit; a conflict if it is there
      at another version; an API error if it is not there. */
  predicate Answers(s: System, t: System, name: string, c: nat, body: Stored, put: Result<ApiKey, RepoError>) {
    if name !in s.objects then put == Err(Kube) && t.objects == s.objects && t.log == s.log
    else if s.objects[name].resourceVersion != body.resourceVersion then
      put == Err(Conflict) && t.objects == s.objects && t.log == s.log
    else
      && put == Ok(s.objects[name].key.(status := body.key.status))
      && t.revision == s.revision + 1
      && t.objects == s.objects[name := Stored(t.revision, put.value)]
      && c in s.calls && t.log == s.log + [Mutated(name, c, s.calls[c].mutation)]
  }

  /** What a caller of `update_status` can rely on, when the log was `started` long at the call: Ok
      means committed exactly once since, and the reply is the object right after it; NotFound and
      Conflict mean not committed, and Conflict that others wrote the object three times since. */
  ghost predicate Guaranteed(log: seq<Commit>, started: nat, c: nat, name: string, m: Mutation,
                             reply: Result<ApiKey, RepoError>)
  {
    && started <= |log|
    && match reply
       case Ok(key) =>
         && CommitsOf(log, c) == 1
         && exists at | started <= at < |log| ::
              log[at] == Mutated(name, c, m) && Lookup(Replay(log[..at + 1]), name) == Some(key)
       case Err(Kube) => CommitsOf(log, c) <= 1
       case Err(NotFound) => CommitsOf(log, c) == 0
       case Err(Conflict) => CommitsOf(log, c) == 0 && Touches(log[started..], name) >= MAX_STATUS_ATTEMPTS
  }

  /** One accepted write to the named object, and nothing else. */
  predicate OneWrite(s: System, t: System, name: string) {
    && name in s.objects && t.revision == s.revision + 1 && t.calls == s.calls
    && name in t.objects && t.objects == s.objects[name := Stored(t.revision, t.objects[name].key)]
    && |t.log| == |s.log| + 1 && s.log <= t.log
  }

  /** That write has left one `Valid` condition, `c`, with the other conditions of the copy, and no
      other change in the object. */
  predicate ConditionStored(s: System, t: System, name: string, cached: ApiKey, c: Condition) {
    && OneWrite(s, t, name)
    && var after := StatusOf(t.objects[name].key);
    && Filter(after.conditions, IsValidKind) == [c]
    && Others(after.conditions) == Others(StatusOf(cached).conditions)
    && after.observedGeneration == cached.generation
    && t.objects[name].key == s.objects[name].key.(status := Some(
         StatusOf(s.objects[name].key).(conditions := after.conditions, observedGeneration := after.observedGeneration)))
  }

  lemma SendStoresCondition(s: System, name: string, cached: ApiKey, c: Condition)
    requires c.kind == VALID
    ensures var patch := Patch(Others(StatusOf(cached).conditions) + [c], cached.generation);
            name in s.objects ==> ConditionStored(s, Send(s, name, Some(patch)), name, cached, c)
  {
    ReplaceValid(StatusOf(cached).conditions, c);
  }

  /** Every local copy is the object as the server held it at some moment. */
  ghost predicate CopiesHeld(log: seq<Commit>, store: map<string, ApiKey>) {
    forall n | n in store :: exists k | 0 <= k <= |log| :: Lookup(Replay(log[..k]), n) == Some(store[n])
  }

  lemma LaterStillHeld(earlier: seq<Commit>, log: seq<Commit>, store: map<string, ApiKey>)
    requires earlier <= log && CopiesHeld(earlier, store)
    ensures CopiesHeld(log, store)
  {
    forall n | n in store ensures exists k | 0 <= k <= |log| :: Lookup(Replay(log[..k]), n) == Some(store[n]) {
      var k :| 0 <= k <= |earlier| && Lookup(Replay(earlier[..k]), n) == Some(store[n]);
      assert log[..k] == earlier[..k];
    }
  }

  /** None of the requests made between two states met a fault. */
  predicate FaultFree(turns: seq<Turn>, left: seq<Turn>)
    requires |left| <= |turns|
  {
    AllDelivered(turns, |turns| - |left|)
  }

  /** When `update_status` succeeds: a fault of the network ends it with an error; without one it
      returns Ok, unless the object was missing at some moment of the call or others wrote it three
      times; and if no one disturbs it, the mutation is applied to the object as it was. */
  predicate Served(start: System, turns: seq<Turn>, now: System, left: seq<Turn>, c: nat, name: string, m: Mutation,
                   reply: Result<ApiKey, RepoError>)
  {
    && |left| <= |turns| && left == turns[|turns| - |left|..]
    && start.log <= now.log
    && (!FaultFree(turns, left) ==> reply == Err(Kube))
    && (FaultFree(turns, left) && !MissingSince(now.log, |start.log|, name) ==>
          || reply.Ok?
          || (reply == Err(Conflict) && Touches(now.log[|start.log|..], name) >= 3))
    && (Undisturbed(turns, 2) ==> Updated(start, now, name, c, m, reply))
  }

  lemma ServedByLoop(start: System, turns: seq<Turn>, now: System, left: seq<Turn>, c: nat, name: string, m: Mutation,
                     reply: Result<ApiKey, RepoError>, n: nat)
    requires left == Left(turns, n) && start.log <= now.log
    requires Explained(turns, n, now.log, |start.log|, name, reply)
    requires reply == Err(Conflict) ==> Touches(now.log[|start.log|..], name) >= MAX_STATUS_ATTEMPTS
    requires Undisturbed(turns, 2) ==> Updated(start, now, name, c, m, reply)
    ensures Served(start, turns, now, left, c, name, m, reply)
  {
    assert left == turns[|turns| - |left|..];
    assert FaultFree(turns, left) <==> AllDelivered(turns, n);
    assert reply.Ok? || reply.error == NotFound || reply.error == Conflict || reply.error == Kube;
  }

  /** Where the retry loop stands, from the state and the turns it started with. */
  predicate Underway(start: System, turns: seq<Turn>, now: System, left: seq<Turn>, c: nat, gets: nat, puts: nat,
                     reply: Result<ApiKey, RepoError>)
  {
    && c in start.calls && c in now.calls && start.log <= now.log
    && puts <= gets <= MAX_STATUS_ATTEMPTS
    && Attempted(start.calls[c], now.calls[c], gets, reply)
    && left == Left(turns, gets + puts)
    && Explained(turns, gets + puts, now.log, |start.log|, start.calls[c].name, reply)
    && (gets == 0 ==> now == start && reply == Err(Conflict))
    && (gets > 0 ==> UpdatedIfQuiet(start, turns, now, c, reply))
  }

  /** After `gets` attempts the call is reading again, or over with the reply. */
  predicate Attempted(before: Call, now: Call, gets: nat, reply: Result<ApiKey, RepoError>) {
    && now == before.(phase := now.phase)
    && if reply == Err(Conflict) && gets < MAX_STATUS_ATTEMPTS then now.phase == Reading(gets)
       else now.phase.Done? && now.phase.reply == reply
  }

  predicate UpdatedIfQuiet(s: System, turns: seq<Turn>, t: System, c: nat, reply: Result<ApiKey, RepoError>)
    requires c in s.calls
  {
    Undisturbed(turns, 2) ==> Updated(s, t, s.calls[c].name, c, s.calls[c].mutation, reply)
  }

  /** What one round of the loop does. */
  predicate Round(s: System, turns: seq<Turn>, t: System, left: seq<Turn>, c: nat, puts: nat,
                  reply: Result<ApiKey, RepoError>)
    requires c in s.calls && !s.calls[c].phase.Done?
  {
    && puts <= 1 && s.log <= t.log
    && c in t.calls && MovedOn(s.calls[c], t.calls[c], reply)
    && left == Left(turns, 1 + puts)
    && (puts == 0 ==> reply == Err(NotFound) || reply == Err(Kube))
    && Explained(turns, 1 + puts, t.log, |s.log|, s.calls[c].name, reply)
    && UpdatedIfQuiet(s, turns, t, c, reply)
  }

  /** A read, and the turn it took: Ok with the object held at that moment, NotFound when there is
      none, and another error exactly when the network fails. */
  predicate HasRead(s: System, turns: seq<Turn>, t: System, left: seq<Turn>, c: nat, got: Result<Stored, RepoError>)
    requires c in s.calls && !s.calls[c].phase.Done?
  {
    && s.log <= t.log && c in t.calls && left == Left(turns, 1)
    && var before, now := s.calls[c], t.calls[c];
    && now == before.(phase := now.phase)
    && (match got
        case Ok(stored) => now.phase.Holding? && now.phase.snapshot == stored && now.phase.attempt == before.phase.attempt
                           && now.name in t.objects && stored == t.objects[now.name]
        case Err(e) => now.phase.Done? && now.phase.reply == Err(e) && e != Conflict)
    && (got == Err(Kube) <==> FateOf(turns) != Delivered)
    && (got == Err(NotFound) ==> MissingSince(t.log, |s.log|, now.name))
    && (turns == [] || turns[0].others == [] ==> t.objects == s.objects && t.log == s.log)
  }

  /** A replace, with the state `seen` in which the server gets it, if it does. */
  predicate HasReplaced(s: System, turns: seq<Turn>, seen: System, t: System, left: seq<Turn>, c: nat, body: Stored,
                        put: Result<ApiKey, RepoError>)
    requires c in s.calls && !s.calls[c].phase.Done?
  {
    && s.log <= seen.log <= t.log && left == Left(turns, 1)
    && c in t.calls && MovedOn(s.calls[c], t.calls[c], put)
    && (FateOf(turns) != Delivered ==> put == Err(Kube))
    && (FateOf(turns) == Delivered ==> Answers(seen, t, s.calls[c].name, c, body, put))
    && Explained(turns, 1, t.log, |s.log|, s.calls[c].name, put)
    && (turns == [] || turns[0].others == [] ==> seen == s)
  }

  lemma RoundOfRead(s: System, turns: seq<Turn>, mid: System, left: seq<Turn>, c: nat, got: Result<Stored, RepoError>)
    requires c in s.calls && s.calls[c].phase.Reading?
    requires HasRead(s, turns, mid, left, c, got) && got.Err?
    requires s.calls[c].name !in s.objects || got == Err(Kube) || !Undisturbed(turns, 2)
    ensures Round(s, turns, mid, left, c, 0, Err(got.error))
  {
    assert Undisturbed(turns, 2) ==> Undisturbed(turns, 1);
  }

  lemma RoundOfReplace(s: System, turns: seq<Turn>, mid: System, between: seq<Turn>, seen: System, t: System,
                       left: seq<Turn>, c: nat, body: Stored, put: Result<ApiKey, RepoError>)
    requires c in s.calls && s.calls[c].phase.Reading?
    requires c in mid.calls && mid.calls[c].phase.Holding?
    requires HasRead(s, turns, mid, between, c, Ok(mid.calls[c].phase.snapshot))
    requires body == mid.calls[c].phase.snapshot.(key := WithMutation(mid.calls[c].phase.snapshot.key, s.calls[c].mutation))
    requires HasReplaced(mid, between, seen, t, left, c, body, put)
    ensures Round(s, turns, t, left, c, 1, put)
  {
    ExplainedStep(turns, 1, 1, t.log, |mid.log|, |s.log|, s.calls[c].name, put);
    if Undisturbed(turns, 2) {
      QuietTurns(turns);
      QuietRound(s, mid, t, s.calls[c].name, c, s.calls[c].mutation, body, put);
    }
  }

  lemma QuietTurns(turns: seq<Turn>)
    requires Undisturbed(turns, 2)
    ensures FateOf(turns) == Delivered && (turns == [] || turns[0].others == [])
    ensures var rest := Left(turns, 1);
            FateOf(rest) == Delivered && (rest == [] || rest[0].others == [])
  {}

  /** Nothing changed between the read, the request and the answer: the replace is the mutation. */
  lemma QuietRound(s: System, mid: System, t: System, name: string, c: nat, m: Mutation, body: Stored,
                   reply: Result<ApiKey, RepoError>)
    requires mid.objects == s.objects && mid.log == s.log
    requires name in mid.objects && body == mid.objects[name].(key := WithMutation(mid.objects[name].key, m))
    requires c in mid.calls && mid.calls[c].mutation == m
    requires Answers(mid, t, name, c, body, reply)
    ensures Updated(s, t, name, c, m, reply)
  {}

  lemma AttemptedStep(before: Call, mid: Call, now: Call, gets: nat, reply: Result<ApiKey, RepoError>)
    requires gets < MAX_STATUS_ATTEMPTS && Attempted(before, mid, gets, Err(Conflict))
    requires MovedOn(mid, now, reply)
    ensures Attempted(before, now, gets + 1, reply)
  {}

  lemma OneMoreRound(start: System, turns: seq<Turn>, s: System, between: seq<Turn>, t: System, left: seq<Turn>,
                     c: nat, gets: nat, puts: nat, sent: nat, reply: Result<ApiKey, RepoError>)
    requires Underway(start, turns, s, between, c, gets, puts, Err(Conflict)) && gets < MAX_STATUS_ATTEMPTS
    requires Round(s, between, t, left, c, sent, reply)
    ensures Underway(start, turns, t, left, c, gets + 1, puts + sent, reply)
  {
    AttemptedStep(start.calls[c], s.calls[c], t.calls[c], gets, reply);
    ExplainedStep(turns, gets + puts, 1 + sent, t.log, |s.log|, |start.log|, start.calls[c].name, reply);
    if gets == 0 {
      assert between == turns;
    } else {
      ConflictIsNotQuiet(start, turns, s, t, c, reply);
    }
  }

  lemma ConflictIsNotQuiet(start: System, turns: seq<Turn>, s: System, t: System, c: nat,
                           reply: Result<ApiKey, RepoError>)
    requires c in start.calls && UpdatedIfQuiet(start, turns, s, c, Err(Conflict))
    ensures UpdatedIfQuiet(start, turns, t, c, reply)
  {}

  class KubeRepository {
    const ctx: Validation.Context
    // The API server, with all calls in flight and the order of its commits.
    var objects: map<string, Stored>
    var revision: nat
    var calls: map<nat, Call>
    var log: seq<Commit>
    // The local copy of the objects that a watch keeps up to date and `get` reads.
    var store: map<string, ApiKey>
    var events: seq<(string, AuditEvent)>
    // What is going to happen around the next requests; the code cannot see it.
    var turns: seq<Turn>
    ghost var steps: seq<Step>

    function View(): System
      reads this
    {
      System(objects, revision, calls, log)
    }

    /** The present state is one that the protocol reaches, and copies may lag behind but are of real
        objects. */
    ghost predicate Valid()
      reads this
    {
      View() == Run(ctx, steps) && CopiesHeld(log, store)
    }

    /** The call is over, with the guarantees of `update_status`. */
    ghost predicate Answered(c: nat, started: nat, name: string, m: Mutation)
      reads this
    {
      && c in calls && calls[c] == Call(name, m, started, calls[c].phase) && calls[c].phase.Done?
      && Guaranteed(log, started, c, name, m, calls[c].phase.reply)
    }

    constructor (ctx: Validation.Context, turns: seq<Turn>)
      ensures Valid() && View() == EMPTY && this.ctx == ctx
      ensures store == map[] && events == []
    {
      this.ctx, this.turns := ctx, turns;
      objects, revision, calls, log := map[], 0, map[], [];
      store, events, steps := map[], [], [];
    }

    /** The world goes on to `next`, by the given step. */
    method Become(next: System, ghost step: Step)
      requires Valid() && next == Next(View(), ctx, step)
      modifies this`objects, this`revision, this`calls, this`log, this`steps
      ensures Valid() && steps == old(steps) + [step] && View() == next
    {
      Linearizability.StepIsLater(View(), ctx, step);
      LaterStillHeld(log, next.log, store);
      RunStep(ctx, steps, step);
      objects, revision, calls, log := next.objects, next.revision, next.calls, next.log;
      steps := steps + [step];
    }

    method Take(step: Step)
      requires Valid()
      modifies this`objects, this`revision, this`calls, this`log, this`steps
      ensures Valid() && steps == old(steps) + [step]
      ensures View() == Next(old(View()), ctx, step)
    {
      Become(Next(View(), ctx, step), step);
    }

    /** The watch brings the local copy of one object up to date. */
    method Observe(name: string)
      requires Valid()
      modifies this`store
      ensures Valid()
      ensures store == if name in objects then old(store)[name := objects[name].key] else old(store) - {name}
    {
      Linearizability.RefinesMemoryRepository(ctx, steps);
      assert log[..|log|] == log;
      assert name in objects ==> Contents(View())[name] == objects[name].key;
      store := if name in objects then store[name := objects[name].key] else store - {name};
    }

    /** The others take their steps; they cannot act for call `c`. */
    method Await(c: nat) returns (fault: Fault)
      requires Valid() && c in calls
      modifies this`objects, this`revision, this`calls, this`log, this`steps, this`turns
      ensures Valid() && old(steps) <= steps
      ensures c in calls && calls[c] == old(calls[c])
      ensures old(log) <= log
      ensures fault == FateOf(old(turns)) && turns == Left(old(turns), 1)
      ensures old(turns) == [] || old(turns)[0].others == [] ==> View() == old(View())
    {
      if turns == [] {
        return Delivered;
      }
      var turn := turns[0];
      turns := turns[1..];
      for i := 0 to |turn.others|
        invariant Valid() && old(steps) <= steps
        invariant c in calls && calls[c] == old(calls[c])
        invariant old(log) <= log && turns == Left(old(turns), 1)
        invariant i == 0 ==> View() == old(View())
      {
        if !IsOfCall(turn.others[i], c) {
          OthersLeaveCall(View(), ctx, turn.others[i], c);
          Linearizability.StepIsLater(View(), ctx, turn.others[i]);
          Take(turn.others[i]);
        }
      }
      return turn.fault;
    }

    /** What the server does not hold is missing. */
    lemma NotHeld(name: string, from: nat)
      requires Valid() && name !in objects && from <= |log|
      ensures MissingSince(log, from, name)
    {
      Linearizability.RefinesMemoryRepository(ctx, steps);
      assert name !in Contents(View());
      assert log[..|log|] == log;
    }

    method GetStatus(c: nat) returns (got: Result<Stored, RepoError>)
      requires Valid() && IsReading(View(), c)
      modifies this`objects, this`revision, this`calls, this`log, this`steps, this`turns
      ensures Valid() && old(steps) <= steps && old(log) <= log
      ensures HasRead(old(View()), old(turns), View(), turns, c, got)
      ensures got == Err(NotFound) ==> calls[c].name !in objects
    {
      var fault := Await(c);
      if fault != Delivered {
        Take(Fail(c));
        return Err(Kube);
      }
      var name := calls[c].name;
      got := if name in objects then Ok(objects[name]) else Err(NotFound);
      if got.Err? {
        NotHeld(name, |old(log)|);
      }
      Take(Step.Get(c));
    }

    /** The body is the object as read, with the new status. */
    ghost predicate IsUpdateOf(body: Stored, c: nat)
      requires IsHolding(View(), c)
      reads this
    {
      var read := calls[c].phase.snapshot;
      body == read.(key := read.key.(status := Some(Sent(View(), c))))
    }

    /** The server's side: stored only at the version that the body carries, and of the body only the
        status, as is the way of the status subresource. */
    method Put(c: nat, body: Stored) returns (put: Result<ApiKey, RepoError>)
      requires Valid() && IsHolding(View(), c) && calls[c].phase.attempt < MAX_STATUS_ATTEMPTS && IsUpdateOf(body, c)
      modifies this`objects, this`revision, this`calls, this`log, this`steps
      ensures Valid() && steps == old(steps) + [Step.Replace(c)]
      ensures View() == Next(old(View()), ctx, Step.Replace(c))
      ensures Answers(old(View()), View(), old(calls[c].name), c, body, put)
      ensures MovedOn(old(calls[c]), calls[c], put)
    {
      var name := calls[c].name;
      if name !in objects {
        put := Err(Kube);
      } else if objects[name].resourceVersion != body.resourceVersion {
        put := Err(Conflict);
      } else {
        put := Ok(objects[name].key.(status := body.key.status));
      }
      Take(Step.Replace(c));
    }

    /** The request meets its fate. */
    method Deliver(c: nat, body: Stored, fault: Fault) returns (put: Result<ApiKey, RepoError>)
      requires Valid() && IsHolding(View(), c) && calls[c].phase.attempt < MAX_STATUS_ATTEMPTS && IsUpdateOf(body, c)
      modifies this`objects, this`revision, this`calls, this`log, this`steps
      ensures Valid() && old(steps) <= steps && old(log) <= log
      ensures c in calls && MovedOn(old(calls[c]), calls[c], put)
      ensures fault != Delivered ==> put == Err(Kube)
      ensures fault == Delivered ==> Answers(old(View()), View(), old(calls[c].name), c, body, put)
      ensures put == Err(Kube) && fault == Delivered ==> MissingSince(log, |old(log)|, old(calls[c].name))
    {
      if fault == Rejected {
        Take(Fail(c));
        return Err(Kube);
      }
      if fault == ReplyLost {
        Linearizability.StepIsLater(View(), ctx, LoseReply(c));
        Take(LoseReply(c));
        return Err(Kube);
      }
      Linearizability.StepIsLater(View(), ctx, Step.Replace(c));
      if calls[c].name !in objects {
        NotHeld(calls[c].name, |log|);
      }
      ghost var before, name := log, calls[c].name;
      put := Put(c, body);
      if put == Err(Kube) {
        StillMissing(before, log, |before|, |before|, name);
      }
    }

    /** `seen` is the state in which the server gets the request. */
    method ReplaceStatus(c: nat, body: Stored) returns (put: Result<ApiKey, RepoError>, ghost seen: System)
      requires Valid() && IsHolding(View(), c) && calls[c].phase.attempt < MAX_STATUS_ATTEMPTS && IsUpdateOf(body, c)
      modifies this`objects, this`revision, this`calls, this`log, this`steps, this`turns
      ensures Valid() && old(steps) <= steps && old(log) <= log
      ensures HasReplaced(old(View()), old(turns), seen, View(), turns, c, body, put)
    {
      var fault := Await(c);
      seen := View();
      ghost var name := calls[c].name;
      put := Deliver(c, body, fault);
      if put == Err(Kube) && fault == Delivered {
        StillMissing(log, log, |seen.log|, |old(log)|, name);
      }
    }

    /** The status, or its default, is mutated in place. */
    method Mutate(read: Stored, m: Mutation) returns (obj: Stored)
      ensures obj == read.(key := WithMutation(read.key, m))
    {
      var status := new StatusRecord(StatusOf(read.key));
      status.Mutate(m);
      obj := read.(key := read.key.(status := Some(status.Value())));
    }

    /** One round of the loop: read, mutate, replace. Ends with a reply, or with a conflict and one
        attempt less. A network fault ends it with an error; without one it only fails for an object
        that was missing, or that someone else wrote in between. */
    method Attempt(c: nat) returns (reply: Result<ApiKey, RepoError>, puts: nat)
      requires Valid() && IsReading(View(), c) && calls[c].phase.attempt < MAX_STATUS_ATTEMPTS
      modifies this`objects, this`revision, this`calls, this`log, this`steps, this`turns
      ensures Valid() && old(steps) <= steps && old(log) <= log
      ensures Round(old(View()), old(turns), View(), turns, c, puts, reply)
    {
      var got := GetStatus(c);
      if got.Err? {
        RoundOfRead(old(View()), old(turns), View(), turns, c, got);
        return Err(got.error), 0;
      }
      ghost var mid, between := View(), turns;
      var obj := Mutate(got.value, calls[c].mutation);
      ghost var seen;
      reply, seen := ReplaceStatus(c, obj);
      puts := 1;
      RoundOfReplace(old(View()), old(turns), mid, between, seen, View(), turns, c, obj, reply);
    }

    /** The loop: start over on a conflict, as long as attempts are left. */
    method Retry(c: nat) returns (reply: Result<ApiKey, RepoError>, gets: nat, puts: nat)
      requires Valid() && c in calls && calls[c].phase == Reading(0)
      modifies this`objects, this`revision, this`calls, this`log, this`steps, this`turns
      ensures Valid() && old(steps) <= steps && old(log) <= log
      ensures Underway(old(View()), old(turns), View(), turns, c, gets, puts, reply)
      ensures calls[c].phase.Done?
    {
      reply, gets, puts := Err(Conflict), 0, 0;
      while gets < MAX_STATUS_ATTEMPTS && reply == Err(Conflict)
        invariant Valid() && old(steps) <= steps && old(log) <= log
        invariant Underway(old(View()), old(turns), View(), turns, c, gets, puts, reply)
        decreases MAX_STATUS_ATTEMPTS - gets
      {
        var sent;
        ghost var before, between := View(), turns;
        reply, sent := Attempt(c);
        OneMoreRound(old(View()), old(turns), before, between, View(), turns, c, gets, puts, sent, reply);
        gets, puts := gets + 1, puts + sent;
      }
    }

    /** `update_status`. Whatever the others do in between, it makes at most three reads and three
        replaces and ends in a state of the protocol in which the call is over with the reply that is
        returned. A network fault ends it with an error. Without one it returns Ok, unless the object
        was missing at some moment of the call or others wrote it three times; and if no one disturbs
        it, the mutation is applied to the object as it was. */
    method UpdateStatus(c: nat, name: string, m: Mutation)
      returns (reply: Result<ApiKey, RepoError>, gets: nat, puts: nat)
      requires Valid() && c !in calls
      modifies this`objects, this`revision, this`calls, this`log, this`steps, this`turns
      ensures Valid() && old(steps) <= steps && old(log) <= log
      ensures gets <= 3 && puts <= gets
      ensures Answered(c, |old(log)|, name, m) && calls[c].phase.reply == reply
      ensures turns == Left(old(turns), gets + puts)
      ensures Served(old(View()), old(turns), View(), turns, c, name, m, reply)
    {
      Take(Begin(c, name, m));
      assert log == old(log);
      reply, gets, puts := Retry(c);
      Conclude(c, |old(log)|);
      ServedByLoop(old(View()), old(turns), View(), turns, c, name, m, reply, gets + puts);
    }

    /** What the protocol guarantees of a call that is over. */
    lemma Conclude(c: nat, started: nat)
      requires Valid() && c in calls && calls[c].phase.Done? && calls[c].started == started
      ensures Guaranteed(log, started, c, calls[c].name, calls[c].mutation, calls[c].phase.reply)
    {
      Linearizability.ExactlyOnce(ctx, steps, c);
      Linearizability.RefusalsAreJustified(ctx, steps, c);
      EveryRunKeepsInv(ctx, steps);
      assert CallInv(log, c, calls[c]);
      var at := calls[c].phase.at;
      assert log[started..] == log[started..at] + log[at..];
      TouchesConcat(log[started..at], log[at..], calls[c].name);
    }

    /** The server merges a patch of the controller into the present object. */
    method PatchStatus(name: string, patch: Patch, ghost run: Step) returns (done: Result<(), RepoError>)
      requires Valid() && Next(View(), ctx, run) == Send(View(), name, Some(patch))
      modifies this`objects, this`revision, this`calls, this`log, this`steps
      ensures Valid() && View() == Send(old(View()), name, Some(patch))
      ensures done == if name in old(objects) then Ok(()) else Err(Kube)
    {
      done := if name in objects then Ok(()) else Err(Kube);
      Become(Send(View(), name, Some(patch)), run);
    }

    /** `reconcile` of one object, given the controller's copy of it. Nothing is sent if the copy's
        condition is up to date. Otherwise the stored object ends with one `Valid` condition, the one
        desired for the copy, with the other conditions of the copy, and with every rotation field and
        every other object as stored. Either way this is one step of the protocol, or none. */
    method ReconcileObject(name: string, cached: ApiKey, now: Timestamp, fault: Fault)
      returns (done: Result<(), RepoError>)
      requires Valid()
      modifies this`objects, this`revision, this`calls, this`log, this`steps
      ensures Valid()
      ensures View() == old(View()) || View() == Next(old(View()), ctx, ControllerRuns(name, cached, now))
      ensures var desired := DesiredValidCondition(cached, ctx, now);
              && (done.Ok? <==> desired.None? || (fault == Delivered && name in old(objects)))
              && if desired.None? || fault == Rejected || name !in old(objects) then View() == old(View())
                 else ConditionStored(old(View()), View(), name, cached, desired.value)
    {
      var condition := DesiredValidCondition(cached, ctx, now);
      if condition.None? {
        return Ok(());
      }
      var conditions := match cached.status case Some(s) => Others(s.conditions) case None => [];
      conditions := conditions + [condition.value];
      if fault == Rejected {
        return Err(Kube);
      }
      assert Others([]) == [];
      SendStoresCondition(View(), name, cached, condition.value);
      done := PatchStatus(name, Patch(conditions, cached.generation), ControllerRuns(name, cached, now));
      if fault == ReplyLost {
        done := Err(Kube);
      }
    }

    method Get(name: string) returns (key: Option<ApiKey>)
      ensures key == if name in store then Some(store[name]) else None
    {
      key := if name in store then Some(store[name]) else None;
    }

    method RecordEvent(name: string, event: AuditEvent)
      modifies this`events
      ensures events == old(events) + [(name, event)]
    {
      events := events + [(name, event)];
    }
  }
}
