// src/validation.rs: the checks behind the `Valid` condition and the rotation gate.
module Validation {
  import opened Text
  import opened Wrappers
  import opened Sequences
  import opened Crd
  import opened Glob
  import Duration

  /** One reported problem, before it is rendered as text. */
  datatype Problem =
    | BadDuration(field: string, value: string)
    | CriticalLongerThanWarn
    | BadRenewUrl(url: string)
    | NoTargetType(index: nat)
    | EmptyField(index: nat, field: string)
    | InvalidMountOrPath(index: nat)
    | NotAllowed(index: nat, policyPath: string)
    | DuplicateTarget(index: nat, reference: string)

  /** The configured globs, and two library functions: whether a string parses as a URL of scheme
      http or https, and the text that a list of problems is shown as. */
  datatype Context = Context(
    allowed: seq<string>,
    isHttpUrl: string -> bool,
    render: seq<Problem> -> string)

  function DurationProblem(field: string, value: Option<string>): seq<Problem> {
    if value.Some? && Duration.Parse(value.value).None? then [BadDuration(field, value.value)] else []
  }

  predicate CriticalTooLong(r: RotationPolicy) {
    var w, c := Duration.ParseField(r.warnBefore), Duration.ParseField(r.criticalBefore);
    w.Some? && c.Some? && c.value > w.value
  }

  /** What is reported before the targets are looked at. */
  function PolicyProblems(spec: ApiKeySpec, ctx: Context): seq<Problem> {
    DurationProblem("rotation.maxAge", spec.rotation.maxAge)
    + DurationProblem("rotation.warnBefore", spec.rotation.warnBefore)
    + DurationProblem("rotation.criticalBefore", spec.rotation.criticalBefore)
    + (if CriticalTooLong(spec.rotation) then [CriticalLongerThanWarn] else [])
    + (if spec.renewUrl.Some? && !ctx.isHttpUrl(spec.renewUrl.value) then [BadRenewUrl(spec.renewUrl.value)] else [])
  }

  /** References of the targets that have a store set. */
  function SetReferences(targets: seq<TargetSpec>): set<string> {
    if targets == [] then {}
    else
      var n := |targets| - 1;
      SetReferences(targets[..n]) + (if targets[n].openbao.Some? then {targets[n].Reference()} else {})
  }

  function EmptyFieldProblem(index: nat, field: string, value: string): seq<Problem> {
    if Blank(value) then [EmptyField(index, field)] else []
  }

  predicate SuspiciousMountOrPath(t: OpenBaoTarget) {
    ".." in Split(t.path) || '/' in t.mount
  }

  function BlankFields(i: nat, t: OpenBaoTarget): seq<Problem> {
    EmptyFieldProblem(i, "mount", t.mount)
    + EmptyFieldProblem(i, "path", t.path)
    + EmptyFieldProblem(i, "key", t.key)
  }

  /** Problems of target number `i` with a store set; `seen` says its reference occurred before. */
  function StoreProblems(i: nat, t: OpenBaoTarget, allowed: seq<string>, seen: bool): seq<Problem> {
    BlankFields(i, t)
    + (if SuspiciousMountOrPath(t) then [InvalidMountOrPath(i)] else [])
    + (if !Allows(allowed, t.PolicyPath()) then [NotAllowed(i, t.PolicyPath())] else [])
    + (if seen then [DuplicateTarget(i, t.Reference())] else [])
  }

  function TargetProblemsAt(i: nat, target: TargetSpec, allowed: seq<string>, before: set<string>): seq<Problem> {
    match target.openbao
    case None => [NoTargetType(i)]
    case Some(t) => StoreProblems(i, t, allowed, t.Reference() in before)
  }

  function TargetProblems(targets: seq<TargetSpec>, allowed: seq<string>): seq<Problem> {
    if targets == [] then []
    else
      var n := |targets| - 1;
      var before := targets[..n];
      TargetProblems(before, allowed) + TargetProblemsAt(n, targets[n], allowed, SetReferences(before))
  }

  /** Everything `validate` reports, in order. */
  function Problems(spec: ApiKeySpec, ctx: Context): seq<Problem> {
    PolicyProblems(spec, ctx) + TargetProblems(spec.targets, ctx.allowed)
  }

  /** `validate`: problems are pushed one by one, and a hash set remembers the references seen. */
  method Validate(spec: ApiKeySpec, ctx: Context) returns (problems: seq<Problem>)
    ensures problems == Problems(spec, ctx)
  {
    problems := [];
    var r := spec.rotation;
    var durations := [("rotation.maxAge", r.maxAge), ("rotation.warnBefore", r.warnBefore),
                      ("rotation.criticalBefore", r.criticalBefore)];
    for i := 0 to 3
      invariant i == 0 ==> problems == []
      invariant i == 1 ==> problems == DurationProblem("rotation.maxAge", r.maxAge)
      invariant i == 2 ==> problems == DurationProblem("rotation.maxAge", r.maxAge)
                                       + DurationProblem("rotation.warnBefore", r.warnBefore)
      invariant i == 3 ==> problems == DurationProblem("rotation.maxAge", r.maxAge)
                                       + DurationProblem("rotation.warnBefore", r.warnBefore)
                                       + DurationProblem("rotation.criticalBefore", r.criticalBefore)
    {
      var (field, value) := durations[i];
      if value.Some? && Duration.Parse(value.value).None? {
        problems := problems + [BadDuration(field, value.value)];
      }
    }
    var w, c := Duration.ParseField(r.warnBefore), Duration.ParseField(r.criticalBefore);
    if w.Some? && c.Some? && c.value > w.value {
      problems := problems + [CriticalLongerThanWarn];
    }
    if spec.renewUrl.Some? && !ctx.isHttpUrl(spec.renewUrl.value) {
      problems := problems + [BadRenewUrl(spec.renewUrl.value)];
    }
    assert problems == PolicyProblems(spec, ctx);
    problems := ValidateTargets(spec.targets, ctx.allowed, problems);
  }

  method ValidateTargets(targets: seq<TargetSpec>, allowed: seq<string>, found: seq<Problem>)
    returns (problems: seq<Problem>)
    ensures problems == found + TargetProblems(targets, allowed)
  {
    problems := found;
    var seen: set<string> := {};
    for i := 0 to |targets|
      invariant seen == SetReferences(targets[..i])
      invariant problems == found + TargetProblems(targets[..i], allowed)
    {
      ghost var before := TargetProblems(targets[..i], allowed);
      assert targets[..i + 1][..i] == targets[..i];
      problems, seen := ValidateTarget(i, targets[i], allowed, seen, problems);
      Assoc(found, before, TargetProblemsAt(i, targets[i], allowed, SetReferences(targets[..i])));
    }
    assert targets[..|targets|] == targets;
  }

  method ValidateTarget(i: nat, target: TargetSpec, allowed: seq<string>, before: set<string>, found: seq<Problem>)
    returns (problems: seq<Problem>, seen: set<string>)
    ensures problems == found + TargetProblemsAt(i, target, allowed, before)
    ensures seen == before + (if target.openbao.Some? then {target.Reference()} else {})
  {
    seen := before;
    match target.openbao {
      case None =>
        problems := found + [NoTargetType(i)];
      case Some(t) =>
        problems := ValidateStore(i, t, allowed, seen, found);
        seen := seen + {t.Reference()};
    }
  }

  method BlankFieldProblems(i: nat, t: OpenBaoTarget) returns (problems: seq<Problem>)
    ensures problems == BlankFields(i, t)
  {
    problems := [];
    var fields := [("mount", t.mount), ("path", t.path), ("key", t.key)];
    for k := 0 to 3
      invariant k == 0 ==> problems == []
      invariant k == 1 ==> problems == EmptyFieldProblem(i, "mount", t.mount)
      invariant k == 2 ==> problems == EmptyFieldProblem(i, "mount", t.mount) + EmptyFieldProblem(i, "path", t.path)
      invariant k == 3 ==> problems == BlankFields(i, t)
    {
      var (field, value) := fields[k];
      if Blank(value) { problems := problems + [EmptyField(i, field)]; }
    }
  }

  method ValidateStore(i: nat, t: OpenBaoTarget, allowed: seq<string>, seen: set<string>, found: seq<Problem>)
    returns (problems: seq<Problem>)
    ensures problems == found + StoreProblems(i, t, allowed, t.Reference() in seen)
  {
    var own := BlankFieldProblems(i, t);
    if ".." in Split(t.path) || '/' in t.mount {
      own := own + [InvalidMountOrPath(i)];
    }
    if !Allows(allowed, t.PolicyPath()) {
      own := own + [NotAllowed(i, t.PolicyPath())];
    }
    if t.Reference() in seen {
      own := own + [DuplicateTarget(i, t.Reference())];
    }
    problems := found + own;
  }

  // ------------------------------------------------------------------------
  // What an empty report means

  predicate DurationOk(value: Option<string>) {
    value.Some? ==> Duration.Parse(value.value).Some?
  }

  predicate TargetOk(target: TargetSpec, allowed: seq<string>) {
    match target.openbao
    case None => false
    case Some(t) =>
      && !Blank(t.mount) && !Blank(t.path) && !Blank(t.key)
      && ".." !in Split(t.path) && '/' !in t.mount
      && Allows(allowed, t.PolicyPath())
  }

  predicate AllOk(targets: seq<TargetSpec>, allowed: seq<string>) {
    forall k | 0 <= k < |targets| :: TargetOk(targets[k], allowed)
  }

  function References(targets: seq<TargetSpec>): (refs: seq<string>)
    ensures |refs| == |targets|
  {
    if targets == [] then []
    else References(targets[..|targets| - 1]) + [targets[|targets| - 1].Reference()]
  }

  /** The part of a well-formed spec that is not about its targets. */
  predicate PolicyOk(spec: ApiKeySpec, ctx: Context) {
    && DurationOk(spec.rotation.maxAge)
    && DurationOk(spec.rotation.warnBefore)
    && DurationOk(spec.rotation.criticalBefore)
    && (spec.rotation.warnBefore.Some? && spec.rotation.criticalBefore.Some?
        ==> Duration.Parse(spec.rotation.criticalBefore.value).value
            <= Duration.Parse(spec.rotation.warnBefore.value).value)
    && (spec.renewUrl.Some? ==> ctx.isHttpUrl(spec.renewUrl.value))
  }

  /** A spec a reader of the documentation would call valid. */
  predicate WellFormed(spec: ApiKeySpec, ctx: Context) {
    && PolicyOk(spec, ctx)
    && AllOk(spec.targets, ctx.allowed)
    && Distinct(References(spec.targets))
  }

  lemma NoProblemsAt(i: nat, target: TargetSpec, allowed: seq<string>, before: set<string>)
    ensures TargetProblemsAt(i, target, allowed, before) == [] <==>
            TargetOk(target, allowed) && target.Reference() !in before
  {}

  predicate EveryStoreSet(targets: seq<TargetSpec>) {
    forall k | 0 <= k < |targets| :: targets[k].openbao.Some?
  }

  lemma {:induction false} SetReferencesOfSetTargets(targets: seq<TargetSpec>, x: string)
    requires EveryStoreSet(targets)
    ensures x in SetReferences(targets) <==> x in References(targets)
  {
    if targets != [] {
      SetReferencesOfSetTargets(targets[..|targets| - 1], x);
    }
  }

  lemma AllOkStep(targets: seq<TargetSpec>, allowed: seq<string>)
    requires targets != []
    ensures var n := |targets| - 1;
            AllOk(targets, allowed) <==> AllOk(targets[..n], allowed) && TargetOk(targets[n], allowed)
  {
    var n := |targets| - 1;
    assert forall k | 0 <= k < n :: targets[..n][k] == targets[k];
  }

  lemma AllSet(targets: seq<TargetSpec>, allowed: seq<string>)
    requires AllOk(targets, allowed)
    ensures EveryStoreSet(targets)
  {
    forall k | 0 <= k < |targets| ensures targets[k].openbao.Some? {
      assert TargetOk(targets[k], allowed);
    }
  }

  lemma LastIsNew(targets: seq<TargetSpec>)
    requires targets != [] && EveryStoreSet(targets[..|targets| - 1])
    ensures var n := |targets| - 1;
            Distinct(References(targets)) <==>
            Distinct(References(targets[..n])) && targets[n].Reference() !in SetReferences(targets[..n])
  {
    var n := |targets| - 1;
    var last := targets[n].Reference();
    DistinctStep(References(targets[..n]), last);
    SetReferencesOfSetTargets(targets[..n], last);
  }

  lemma {:induction false} NoTargetProblems(targets: seq<TargetSpec>, allowed: seq<string>)
    ensures TargetProblems(targets, allowed) == [] <==> AllOk(targets, allowed) && Distinct(References(targets))
  {
    if targets != [] {
      var n := |targets| - 1;
      var init := targets[..n];
      NoTargetProblems(init, allowed);
      NoProblemsAt(n, targets[n], allowed, SetReferences(init));
      AllOkStep(targets, allowed);
      if AllOk(init, allowed) {
        AllSet(init, allowed);
        LastIsNew(targets);
      }
    }
  }

  lemma NoPolicyProblems(spec: ApiKeySpec, ctx: Context)
    ensures PolicyProblems(spec, ctx) == [] <==> PolicyOk(spec, ctx)
  {
    assert PolicyProblems(spec, ctx) == [] <==>
           && DurationProblem("rotation.maxAge", spec.rotation.maxAge) == []
           && DurationProblem("rotation.warnBefore", spec.rotation.warnBefore) == []
           && DurationProblem("rotation.criticalBefore", spec.rotation.criticalBefore) == []
           && !CriticalTooLong(spec.rotation)
           && (spec.renewUrl.Some? ==> ctx.isHttpUrl(spec.renewUrl.value));
  }

  /** `validate` decides well-formedness exactly. */
  lemma ValidateDecides(spec: ApiKeySpec, ctx: Context)
    ensures Problems(spec, ctx) == [] <==> WellFormed(spec, ctx)
  {
    NoPolicyProblems(spec, ctx);
    NoTargetProblems(spec.targets, ctx.allowed);
  }

  // ------------------------------------------------------------------------
  // What each report means

  /** The problem is there: a field of the policy that cannot be read, with its name and text; both
      thresholds readable and in the wrong order; a link that is no http(s) URL; and of target number
      `index`: no store, a blank field, a path or mount that could point elsewhere, a checked path that
      no pattern allows, or a reference that a target before it has. */
  predicate IsThere(p: Problem, spec: ApiKeySpec, ctx: Context) {
    match p
    case BadDuration(field, value) =>
      && Duration.Parse(value).None?
      && ((field == "rotation.maxAge" && spec.rotation.maxAge == Some(value))
          || (field == "rotation.warnBefore" && spec.rotation.warnBefore == Some(value))
          || (field == "rotation.criticalBefore" && spec.rotation.criticalBefore == Some(value)))
    case CriticalLongerThanWarn =>
      && spec.rotation.warnBefore.Some? && spec.rotation.criticalBefore.Some?
      && var w, c := Duration.Parse(spec.rotation.warnBefore.value), Duration.Parse(spec.rotation.criticalBefore.value);
      && w.Some? && c.Some? && w.value < c.value
    case BadRenewUrl(url) => spec.renewUrl == Some(url) && !ctx.isHttpUrl(url)
    case _ => IsThereAt(p, spec.targets, ctx.allowed, |spec.targets|)
  }

  /** The problems of one target are its own; `seen` says that its reference occurred before. */
  predicate IsItsOwn(p: Problem, n: nat, target: TargetSpec, allowed: seq<string>, seen: bool) {
    match p
    case NoTargetType(i) => i == n && target.openbao.None?
    case EmptyField(i, field) =>
      && i == n && target.openbao.Some?
      && var t := target.openbao.value;
      && ((field == "mount" && Blank(t.mount)) || (field == "path" && Blank(t.path)) || (field == "key" && Blank(t.key)))
    case InvalidMountOrPath(i) =>
      i == n && target.openbao.Some? && (".." in Split(target.openbao.value.path) || '/' in target.openbao.value.mount)
    case NotAllowed(i, path) =>
      i == n && target.openbao.Some? && path == target.openbao.value.PolicyPath() && !Allows(allowed, path)
    case DuplicateTarget(i, reference) => i == n && target.openbao.Some? && reference == target.Reference() && seen
    case _ => false
  }

  predicate HasReference(targets: seq<TargetSpec>, reference: string) {
    exists t | t in targets :: t.openbao.Some? && t.Reference() == reference
  }

  predicate IsOfTarget(p: Problem) {
    !p.BadDuration? && !p.CriticalLongerThanWarn? && !p.BadRenewUrl?
  }

  /** It is a problem of one of the first `k` targets, and is there. */
  predicate IsThereAt(p: Problem, targets: seq<TargetSpec>, allowed: seq<string>, k: nat)
    requires k <= |targets|
  {
    && IsOfTarget(p) && p.index < k
    && var target := targets[p.index];
    IsItsOwn(p, p.index, target, allowed, HasReference(targets[..p.index], target.Reference()))
  }

  lemma {:induction false} SeenBefore(targets: seq<TargetSpec>, reference: string)
    ensures reference in SetReferences(targets) <==> HasReference(targets, reference)
  {
    if targets != [] {
      var init, last := targets[..|targets| - 1], targets[|targets| - 1];
      SeenBefore(init, reference);
      assert targets == init + [last];
      assert forall t :: t in targets <==> t in init || t == last;
    }
  }

  lemma BlankReports(p: Problem, n: nat, t: OpenBaoTarget)
    ensures p in BlankFields(n, t) <==>
            || (p == EmptyField(n, "mount") && Blank(t.mount))
            || (p == EmptyField(n, "path") && Blank(t.path))
            || (p == EmptyField(n, "key") && Blank(t.key))
  {}

  lemma StoreReports(p: Problem, n: nat, t: OpenBaoTarget, allowed: seq<string>, seen: bool)
    ensures p in StoreProblems(n, t, allowed, seen) <==>
            || p in BlankFields(n, t)
            || (p == InvalidMountOrPath(n) && SuspiciousMountOrPath(t))
            || (p == NotAllowed(n, t.PolicyPath()) && !Allows(allowed, t.PolicyPath()))
            || (p == DuplicateTarget(n, t.Reference()) && seen)
  {
    var a := BlankFields(n, t);
    var b := if SuspiciousMountOrPath(t) then [InvalidMountOrPath(n)] else [];
    var c := if !Allows(allowed, t.PolicyPath()) then [NotAllowed(n, t.PolicyPath())] else [];
    var d := if seen then [DuplicateTarget(n, t.Reference())] else [];
    InConcat(p, a + b, a, b);
    InConcat(p, a + b + c, a + b, c);
    InConcat(p, a + b + c + d, a + b + c, d);
  }

  lemma OwnReports(p: Problem, n: nat, target: TargetSpec, allowed: seq<string>, before: set<string>)
    ensures p in TargetProblemsAt(n, target, allowed, before) <==>
            IsItsOwn(p, n, target, allowed, target.Reference() in before)
  {
    match target.openbao {
      case None =>
      case Some(t) =>
        StoreReports(p, n, t, allowed, target.Reference() in before);
        BlankReports(p, n, t);
    }
  }

  lemma ProblemsOfNext(targets: seq<TargetSpec>, allowed: seq<string>, n: nat)
    requires n < |targets|
    ensures TargetProblems(targets[..n + 1], allowed) ==
            TargetProblems(targets[..n], allowed)
            + TargetProblemsAt(n, targets[n], allowed, SetReferences(targets[..n]))
  {
    assert targets[..n + 1][..n] == targets[..n];
  }

  lemma ReportedOfNext(p: Problem, targets: seq<TargetSpec>, allowed: seq<string>, n: nat)
    requires n < |targets|
    ensures p in TargetProblemsAt(n, targets[n], allowed, SetReferences(targets[..n])) <==>
            IsThereAt(p, targets, allowed, n + 1) && !IsThereAt(p, targets, allowed, n)
    ensures IsThereAt(p, targets, allowed, n) ==> IsThereAt(p, targets, allowed, n + 1)
  {
    OwnReports(p, n, targets[n], allowed, SetReferences(targets[..n]));
    SeenBefore(targets[..n], targets[n].Reference());
  }

  lemma {:induction false} TargetReports(p: Problem, targets: seq<TargetSpec>, allowed: seq<string>, k: nat)
    requires k <= |targets|
    ensures p in TargetProblems(targets[..k], allowed) <==> IsThereAt(p, targets, allowed, k)
  {
    if k > 0 {
      var n := k - 1;
      TargetReports(p, targets, allowed, n);
      ReportedOfNext(p, targets, allowed, n);
      ProblemsOfNext(targets, allowed, n);
      InConcat(p, TargetProblems(targets[..k], allowed), TargetProblems(targets[..n], allowed),
               TargetProblemsAt(n, targets[n], allowed, SetReferences(targets[..n])));
    }
  }

  lemma PolicyReports(p: Problem, spec: ApiKeySpec, ctx: Context)
    ensures p in PolicyProblems(spec, ctx) <==> IsThere(p, spec, ctx) && !IsOfTarget(p)
  {}

  /** Exactly the problems that are there are reported. */
  lemma ReportsWhatIsThere(p: Problem, spec: ApiKeySpec, ctx: Context)
    ensures p in Problems(spec, ctx) <==> IsThere(p, spec, ctx)
  {
    PolicyReports(p, spec, ctx);
    TargetReports(p, spec.targets, ctx.allowed, |spec.targets|);
    assert spec.targets[..|spec.targets|] == spec.targets;
  }

  // ------------------------------------------------------------------------
  // Duplicates

  function CountDuplicates(problems: seq<Problem>): nat {
    if problems == [] then 0
    else CountDuplicates(problems[..|problems| - 1]) + (if problems[|problems| - 1].DuplicateTarget? then 1 else 0)
  }

  function CountSet(targets: seq<TargetSpec>): nat {
    if targets == [] then 0
    else CountSet(targets[..|targets| - 1]) + (if targets[|targets| - 1].openbao.Some? then 1 else 0)
  }

  lemma {:induction false} CountDuplicatesConcat(a: seq<Problem>, b: seq<Problem>)
    ensures CountDuplicates(a + b) == CountDuplicates(a) + CountDuplicates(b)
  {
    if b == [] {
      assert a + b == a;
    } else {
      var n := |b| - 1;
      CountDuplicatesConcat(a, b[..n]);
      assert (a + b)[..|a + b| - 1] == a + b[..n];
    }
  }

  lemma NoDuplicateReports(problems: seq<Problem>)
    requires forall p | p in problems :: !p.DuplicateTarget?
    ensures CountDuplicates(problems) == 0
  {}

  lemma OtherReports(i: nat, t: OpenBaoTarget, allowed: seq<string>)
    ensures forall p | p in StoreProblems(i, t, allowed, false) :: !p.DuplicateTarget?
  {}

  lemma StoreDuplicates(i: nat, t: OpenBaoTarget, allowed: seq<string>, seen: bool)
    ensures CountDuplicates(StoreProblems(i, t, allowed, seen)) == if seen then 1 else 0
  {
    var others := StoreProblems(i, t, allowed, false);
    OtherReports(i, t, allowed);
    NoDuplicateReports(others);
    if seen {
      var last := DuplicateTarget(i, t.Reference());
      assert StoreProblems(i, t, allowed, true) == others + [last];
      CountDuplicatesConcat(others, [last]);
    }
  }

  lemma DuplicatesAt(i: nat, target: TargetSpec, allowed: seq<string>, before: set<string>)
    ensures CountDuplicates(TargetProblemsAt(i, target, allowed, before)) ==
            if target.openbao.Some? && target.Reference() in before then 1 else 0
  {
    match target.openbao
    case None => NoDuplicateReports([NoTargetType(i)]);
    case Some(t) => StoreDuplicates(i, t, allowed, t.Reference() in before);
  }

  function Repeats(targets: seq<TargetSpec>): nat {
    if targets == [] then 0
    else
      var n := |targets| - 1;
      Repeats(targets[..n])
      + (if targets[n].openbao.Some? && targets[n].Reference() in SetReferences(targets[..n]) then 1 else 0)
  }

  lemma {:induction false} CountRepeats(targets: seq<TargetSpec>)
    ensures Repeats(targets) == CountSet(targets) - |SetReferences(targets)|
  {
    if targets != [] {
      var n := |targets| - 1;
      var before, reference := SetReferences(targets[..n]), targets[n].Reference();
      CountRepeats(targets[..n]);
      if reference in before {
        assert before + {reference} == before;
      }
    }
  }

  lemma {:induction false} ReportedRepeats(targets: seq<TargetSpec>, allowed: seq<string>)
    ensures CountDuplicates(TargetProblems(targets, allowed)) == Repeats(targets)
  {
    if targets != [] {
      var n := |targets| - 1;
      var before, t := SetReferences(targets[..n]), targets[n];
      ReportedRepeats(targets[..n], allowed);
      DuplicatesAt(n, t, allowed, before);
      CountDuplicatesConcat(TargetProblems(targets[..n], allowed), TargetProblemsAt(n, t, allowed, before));
    }
  }

  lemma PolicyReportsNoDuplicate(spec: ApiKeySpec, ctx: Context)
    ensures forall p | p in PolicyProblems(spec, ctx) :: !p.DuplicateTarget?
  {}

  /** One report per set target whose reference occurred before: the reports number the set targets
      less the distinct references among them. */
  lemma DuplicatesInReport(spec: ApiKeySpec, ctx: Context)
    ensures CountDuplicates(Problems(spec, ctx)) == CountSet(spec.targets) - |SetReferences(spec.targets)|
  {
    PolicyReportsNoDuplicate(spec, ctx);
    NoDuplicateReports(PolicyProblems(spec, ctx));
    CountDuplicatesConcat(PolicyProblems(spec, ctx), TargetProblems(spec.targets, ctx.allowed));
    ReportedRepeats(spec.targets, ctx.allowed);
    CountRepeats(spec.targets);
  }
}
