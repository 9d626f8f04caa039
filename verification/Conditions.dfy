// src/k8s.rs: the `Valid` condition that the controller keeps up to date.
module Conditions {
  import opened Wrappers
  import opened Sequences
  import opened Crd
  import opened Validation

  const VALID := "Valid"

  function StatusText(valid: bool): string {
    if valid then "True" else "False"
  }

  function MessageText(problems: seq<Problem>, ctx: Context): string {
    if problems == [] then "Spec is valid" else ctx.render(problems)
  }

  /** `desired_valid_condition`: nothing when the current condition is up to date. */
  function DesiredValidCondition(key: ApiKey, ctx: Context, now: Timestamp): Option<Condition> {
    var problems := Problems(key.spec, ctx);
    var status := StatusText(problems == []);
    var reason := if problems == [] then "Valid" else "InvalidSpec";
    var message := MessageText(problems, ctx);
    var existing := ConditionOf(key, VALID);
    if && existing.Some?
       && existing.value.status == status
       && existing.value.message == message
       && existing.value.observedGeneration == key.generation
    then None
    else
      var since :=
        if existing.Some? && existing.value.status == status then existing.value.lastTransitionTime else now;
      Some(Condition(VALID, status, reason, message, key.generation, since))
  }

  /** What a new condition says: whether the spec is well formed, or else the rendered list of its
      problems, of which there is at least one; for which generation; and since when it has been so. */
  lemma DesiredConditionSays(key: ApiKey, ctx: Context, now: Timestamp)
    ensures var desired := DesiredValidCondition(key, ctx, now);
            desired.Some? ==>
              && var c := desired.value;
              && c.kind == "Valid" && c.observedGeneration == key.generation
              && (WellFormed(key.spec, ctx) ==>
                    c.status == "True" && c.reason == "Valid" && c.message == "Spec is valid")
              && (!WellFormed(key.spec, ctx) ==>
                    && c.status == "False" && c.reason == "InvalidSpec"
                    && exists problems :: problems != [] && problems == Problems(key.spec, ctx)
                                          && c.message == ctx.render(problems))
              && var present := ConditionOf(key, VALID);
              && c.lastTransitionTime == (if present.Some? && present.value.status == c.status
                                          then present.value.lastTransitionTime else now)
  {
    ValidateDecides(key.spec, ctx);
  }

  /** Nothing is sent exactly when the condition in place says the same, for the same generation. */
  lemma SilentIff(key: ApiKey, ctx: Context, now: Timestamp)
    ensures Reconcile(key, ctx, now).None? <==>
            && var c := ConditionOf(key, VALID);
            && c.Some? && c.value.observedGeneration == key.generation
            && (c.value.status == (if WellFormed(key.spec, ctx) then "True" else "False"))
            && c.value.message == (if WellFormed(key.spec, ctx) then "Spec is valid" else ctx.render(Problems(key.spec, ctx)))
  {
    ValidateDecides(key.spec, ctx);
  }

  /** What `reconcile` sends: the conditions of the object it was given, with the `Valid` one
      replaced, and the generation they describe. */
  datatype Patch = Patch(conditions: seq<Condition>, observedGeneration: Option<int>)

  predicate IsOtherKind(c: Condition) {
    c.kind != VALID
  }

  function Others(conditions: seq<Condition>): seq<Condition> {
    Filter(conditions, IsOtherKind)
  }

  /** `reconcile`, up to sending the patch; `cached` is the controller's copy of the object. */
  function Reconcile(cached: ApiKey, ctx: Context, now: Timestamp): Option<Patch> {
    match DesiredValidCondition(cached, ctx, now)
    case None => None
    case Some(c) => Some(Patch(Others(StatusOf(cached).conditions) + [c], cached.generation))
  }

  function Patched(key: ApiKey, patch: Patch): ApiKey {
    key.(status := Some(StatusOf(key).(conditions := patch.conditions, observedGeneration := patch.observedGeneration)))
  }

  // ------------------------------------------------------------------------
  // Runs of spec edits and reconciles of the current object

  datatype Event = EditSpec(spec: ApiKeySpec) | RunReconcile(now: Timestamp)

  /** The API server counts a generation for every change of the spec. */
  function Edited(key: ApiKey, spec: ApiKeySpec): ApiKey {
    var generation := match key.generation case Some(g) => g + 1 case None => 1;
    key.(spec := spec, generation := Some(generation))
  }

  function Reconciled(key: ApiKey, ctx: Context, now: Timestamp): ApiKey {
    match Reconcile(key, ctx, now)
    case None => key
    case Some(patch) => Patched(key, patch)
  }

  function AfterEvent(key: ApiKey, ctx: Context, e: Event): ApiKey {
    match e
    case EditSpec(spec) => Edited(key, spec)
    case RunReconcile(now) => Reconciled(key, ctx, now)
  }

  function AfterEvents(key: ApiKey, ctx: Context, events: seq<Event>): ApiKey {
    if events == [] then key
    else AfterEvent(AfterEvents(key, ctx, events[..|events| - 1]), ctx, events[|events| - 1])
  }

  predicate IsValidKind(c: Condition) {
    c.kind == VALID
  }

  function ValidOnes(key: ApiKey): seq<Condition> {
    Filter(StatusOf(key).conditions, IsValidKind)
  }

  lemma {:induction false} OthersHoldNoValid(conditions: seq<Condition>)
    ensures Filter(Others(conditions), IsValidKind) == []
    ensures Others(Others(conditions)) == Others(conditions)
  {
    forall c | c in Others(conditions) ensures c.kind != VALID {
      FilterMember(conditions, IsOtherKind, c);
    }
    FilterNone(Others(conditions));
    FilterAll(Others(conditions));
  }

  lemma {:induction false} FilterNone(cs: seq<Condition>)
    requires forall c | c in cs :: c.kind != VALID
    ensures Filter(cs, IsValidKind) == []
  {
    if cs != [] { FilterNone(cs[..|cs| - 1]); }
  }

  lemma {:induction false} FilterAll(cs: seq<Condition>)
    requires forall c | c in cs :: c.kind != VALID
    ensures Others(cs) == cs
  {
    if cs != [] { FilterAll(cs[..|cs| - 1]); }
  }

  lemma {:induction false} FindValid(cs: seq<Condition>)
    ensures var found := FindCondition(cs, VALID);
            found == if Filter(cs, IsValidKind) == [] then None else Some(Filter(cs, IsValidKind)[0])
  {
    if cs != [] {
      var n := |cs| - 1;
      FindValid(cs[..n]);
      FindAppend(cs[..n], cs[n]);
      assert cs == cs[..n] + [cs[n]];
    }
  }

  lemma {:induction false} FindAppend(cs: seq<Condition>, c: Condition)
    ensures FindCondition(cs + [c], VALID) ==
            if FindCondition(cs, VALID).Some? then FindCondition(cs, VALID)
            else if c.kind == VALID then Some(c) else None
  {
    if cs != [] && cs[0].kind != VALID {
      FindAppend(cs[1..], c);
      assert (cs + [c])[1..] == cs[1..] + [c];
    }
  }

  /** All conditions of other types, each as often as before. */
  lemma {:induction false} OthersCounted(cs: seq<Condition>)
    ensures forall c: Condition ::
              multiset(Others(cs))[c] == if c.kind == "Valid" then 0 else multiset(cs)[c]
  {
    if cs != [] {
      var init, last := cs[..|cs| - 1], cs[|cs| - 1];
      OthersCounted(init);
      FilterStep(init, last, IsOtherKind);
      assert cs == init + [last];
    }
  }

  /** And in their order: adding a condition at the end adds it to the others, or not. */
  lemma OthersStep(cs: seq<Condition>, c: Condition)
    ensures Others(cs + [c]) == if c.kind == "Valid" then Others(cs) else Others(cs) + [c]
  {
    FilterStep(cs, c, IsOtherKind);
  }

  lemma ReplaceValid(cs: seq<Condition>, c: Condition)
    requires c.kind == VALID
    ensures Filter(Others(cs) + [c], IsValidKind) == [c]
    ensures Others(Others(cs) + [c]) == Others(cs)
  {
    OthersHoldNoValid(cs);
    FilterStep(Others(cs), c, IsValidKind);
    FilterStep(Others(cs), c, IsOtherKind);
  }

  /** A patch leaves exactly one `Valid` condition, however many there were, and all others in
      their order. */
  lemma PatchLeavesOneValid(key: ApiKey, ctx: Context, now: Timestamp)
    requires Reconcile(key, ctx, now).Some?
    ensures var after := Reconciled(key, ctx, now);
            && ValidOnes(after) == [DesiredValidCondition(key, ctx, now).value]
            && Others(StatusOf(after).conditions) == Others(StatusOf(key).conditions)
            && (forall c: Condition | c.kind != "Valid" ::
                  multiset(StatusOf(after).conditions)[c] == multiset(StatusOf(key).conditions)[c])
  {
    OthersCounted(StatusOf(key).conditions);
    assert StatusOf(Reconciled(key, ctx, now)).conditions
        == Others(StatusOf(key).conditions) + [DesiredValidCondition(key, ctx, now).value];
    ReplaceValid(StatusOf(key).conditions, DesiredValidCondition(key, ctx, now).value);
  }

  lemma UpToDate(key: ApiKey, ctx: Context, c: Condition, now: Timestamp)
    requires ConditionOf(key, VALID) == Some(c)
    requires c.status == StatusText(Problems(key.spec, ctx) == [])
    requires c.message == MessageText(Problems(key.spec, ctx), ctx)
    requires c.observedGeneration == key.generation
    ensures Reconcile(key, ctx, now).None?
  {}

  /** Reconciling again, at any later moment, writes nothing. */
  lemma SecondReconcileIsSilent(key: ApiKey, ctx: Context, now: Timestamp, later: Timestamp)
    ensures Reconcile(Reconciled(key, ctx, now), ctx, later).None?
  {
    var patch := Reconcile(key, ctx, now);
    if patch.Some? {
      var c, after := DesiredValidCondition(key, ctx, now).value, Reconciled(key, ctx, now);
      PatchLeavesOneValid(key, ctx, now);
      ConditionOfValidOnes(after);
      UpToDate(after, ctx, c, later);
    } else {
      var c := ConditionOf(key, VALID).value;
      UpToDate(key, ctx, c, later);
    }
  }

  /** After an edit of the spec, the condition that was up to date no longer is: the next reconcile
      sends a new one, even if the finding is the same. */
  lemma EditIsNoticed(key: ApiKey, ctx: Context, spec: ApiKeySpec, now: Timestamp)
    requires ConditionOf(key, VALID).Some? && ConditionOf(key, VALID).value.observedGeneration == key.generation
    ensures Reconcile(Edited(key, spec), ctx, now).Some?
    ensures ConditionOf(Reconciled(Edited(key, spec), ctx, now), VALID).Some?
    ensures ConditionOf(Reconciled(Edited(key, spec), ctx, now), VALID).value.observedGeneration
         == Edited(key, spec).generation != key.generation
  {
    var edited := Edited(key, spec);
    PatchLeavesOneValid(edited, ctx, now);
    ConditionOfValidOnes(Reconciled(edited, ctx, now));
  }

  /** The spec in force after a run. */
  function SpecAfter(spec: ApiKeySpec, events: seq<Event>): ApiKeySpec {
    if events == [] then spec
    else
      match events[|events| - 1]
      case EditSpec(s) => s
      case RunReconcile(_) => SpecAfter(spec, events[..|events| - 1])
  }

  /** The verdict of the last reconcile of a run and the time of the reconcile that first reached
      it: what validity has been, and since when. Conditions play no part in it. */
  function VerdictSince(spec: ApiKeySpec, before: Option<(string, Timestamp)>, ctx: Context, events: seq<Event>)
    : Option<(string, Timestamp)>
  {
    if events == [] then before
    else
      var n := |events| - 1;
      var earlier := VerdictSince(spec, before, ctx, events[..n]);
      match events[n]
      case EditSpec(_) => earlier
      case RunReconcile(now) =>
        var verdict := StatusText(Problems(SpecAfter(spec, events[..n]), ctx) == []);
        if earlier.Some? && earlier.value.0 == verdict then earlier else Some((verdict, now))
  }

  function VerdictOf(key: ApiKey): Option<(string, Timestamp)> {
    match ConditionOf(key, VALID)
    case None => None
    case Some(c) => Some((c.status, c.lastTransitionTime))
  }

  lemma ConditionOfValidOnes(key: ApiKey)
    ensures ConditionOf(key, VALID) == if ValidOnes(key) == [] then None else Some(ValidOnes(key)[0])
  {
    FindValid(StatusOf(key).conditions);
  }

  /** However it went, a reconcile leaves one `Valid` condition that describes the present spec; its
      transition time moves only when the finding changed. */
  lemma ReconcileStep(key: ApiKey, ctx: Context, now: Timestamp)
    requires |ValidOnes(key)| <= 1
    ensures var after, verdict := Reconciled(key, ctx, now), StatusText(Problems(key.spec, ctx) == []);
            && |ValidOnes(after)| == 1
            && Others(StatusOf(after).conditions) == Others(StatusOf(key).conditions)
            && VerdictOf(after) ==
               (if VerdictOf(key).Some? && VerdictOf(key).value.0 == verdict then VerdictOf(key) else Some((verdict, now)))
            && ConditionOf(after, VALID).Some?
            && (ConditionOf(after, VALID).value.status == "True" <==> WellFormed(key.spec, ctx))
            && ConditionOf(after, VALID).value.message == MessageText(Problems(key.spec, ctx), ctx)
            && ConditionOf(after, VALID).value.observedGeneration == key.generation
            && after.spec == key.spec && after.generation == key.generation
  {
    ValidateDecides(key.spec, ctx);
    ConditionOfValidOnes(key);
    ConditionOfValidOnes(Reconciled(key, ctx, now));
    if Reconcile(key, ctx, now).Some? {
      PatchLeavesOneValid(key, ctx, now);
    }
  }

  predicate HasReconcile(events: seq<Event>) {
    events != [] && (events[|events| - 1].RunReconcile? || HasReconcile(events[..|events| - 1]))
  }

  /** After the run there is one `Valid` condition if it reconciled at all, which says what the last
      reconcile found and since when; the other conditions keep their order. */
  predicate ConditionsDescribe(key: ApiKey, ctx: Context, events: seq<Event>) {
    var after := AfterEvents(key, ctx, events);
    && |ValidOnes(after)| == (if HasReconcile(events) then 1 else |ValidOnes(key)|)
    && Others(StatusOf(after).conditions) == Others(StatusOf(key).conditions)
    && VerdictOf(after) == VerdictSince(key.spec, VerdictOf(key), ctx, events)
  }

  lemma {:induction false} RunSpec(key: ApiKey, ctx: Context, events: seq<Event>)
    ensures AfterEvents(key, ctx, events).spec == SpecAfter(key.spec, events)
  {
    if events != [] {
      RunSpec(key, ctx, events[..|events| - 1]);
    }
  }

  lemma DescribeEdit(key: ApiKey, ctx: Context, events: seq<Event>)
    requires events != [] && events[|events| - 1].EditSpec?
    requires ConditionsDescribe(key, ctx, events[..|events| - 1])
    ensures ConditionsDescribe(key, ctx, events)
  {
    var before := AfterEvents(key, ctx, events[..|events| - 1]);
    assert AfterEvents(key, ctx, events).status == before.status;
  }

  lemma DescribeReconcile(key: ApiKey, ctx: Context, events: seq<Event>)
    requires |ValidOnes(key)| <= 1
    requires events != [] && events[|events| - 1].RunReconcile?
    requires ConditionsDescribe(key, ctx, events[..|events| - 1])
    ensures ConditionsDescribe(key, ctx, events)
  {
    var n := |events| - 1;
    var before := AfterEvents(key, ctx, events[..n]);
    RunSpec(key, ctx, events[..n]);
    ReconcileStep(before, ctx, events[n].now);
    assert AfterEvents(key, ctx, events) == Reconciled(before, ctx, events[n].now);
  }

  /** Over every run from at most one `Valid` condition: exactly one is left, its transition time is
      that of the reconcile where the finding last changed, and no other condition is touched. */
  lemma {:induction false} ConditionsOverRuns(key: ApiKey, ctx: Context, events: seq<Event>)
    requires |ValidOnes(key)| <= 1
    ensures ConditionsDescribe(key, ctx, events)
  {
    if events != [] {
      var n := |events| - 1;
      ConditionsOverRuns(key, ctx, events[..n]);
      match events[n]
      case EditSpec(_) => DescribeEdit(key, ctx, events);
      case RunReconcile(_) => DescribeReconcile(key, ctx, events);
    }
  }
}
