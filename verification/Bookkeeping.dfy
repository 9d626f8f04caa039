// src/rotation.rs: what a rotation does to the status of its key.
module Bookkeeping {
  import opened Wrappers
  import opened Sequences
  import opened Crd

  datatype TargetOutcome = TargetOutcome(reference: string, error: Option<string>)

  /** The two closures that the program passes to `update_status`: one recording a rotation by hand,
      one storing the outcome of a submitted key. */
  datatype Mutation =
    | RecordRotation(at: Timestamp, actor: Actor, expiresAt: Option<Timestamp>)
    | StoreOutcome(
        at: Timestamp,
        actor: Actor,
        manualExpiresAt: Option<Timestamp>,
        probe: Option<ProbeStatus>,
        outcomes: seq<TargetOutcome>,
        specRefs: seq<string>)

  predicate AllWritten(outcomes: seq<TargetOutcome>) {
    forall o | o in outcomes :: o.error.None?
  }

  // ------------------------------------------------------------------------
  // Specification functions

  /** The probed expiry if there is one, otherwise the one entered by hand. */
  function EffectiveExpiry(probe: Option<ProbeStatus>, manual: Option<Timestamp>): (Option<Timestamp>, ExpirySource) {
    if probe.Some? && probe.value.expiresAt.Some? then (probe.value.expiresAt, ByProbe)
    else if manual.Some? then (manual, ByHand)
    else (None, NoExpiry)
  }

  function Truncate(history: seq<HistoryEntry>): seq<HistoryEntry> {
    if |history| > HISTORY_LIMIT then history[..HISTORY_LIMIT] else history
  }

  function AfterRotation(s: ApiKeyStatus, at: Timestamp, actor: Actor, kind: HistoryKind,
                         manual: Option<Timestamp>, probe: Option<ProbeStatus>): ApiKeyStatus {
    var (expiresAt, source) := EffectiveExpiry(probe, manual);
    s.(lastRotated := Some(at),
       rotatedBy := Some(actor),
       manualExpiresAt := manual,
       expiresAt := expiresAt,
       expiresAtSource := Some(source),
       probe := probe,
       history := Truncate([HistoryEntry(at, actor, kind, expiresAt)] + s.history))
  }

  function EntryFor(outcome: TargetOutcome, at: Timestamp): TargetStatus {
    TargetStatus(outcome.reference, Some(at), if outcome.error.None? then Written else Failed, outcome.error)
  }

  /** Position of the first entry with the reference, or the length when there is none. */
  function IndexOf(targets: seq<TargetStatus>, reference: string): (i: nat)
    ensures i <= |targets|
    ensures i < |targets| ==> targets[i].reference == reference
    ensures forall k | 0 <= k < i :: targets[k].reference != reference
  {
    if targets == [] || targets[0].reference == reference then 0 else 1 + IndexOf(targets[1..], reference)
  }

  function Upsert(targets: seq<TargetStatus>, entry: TargetStatus): seq<TargetStatus> {
    var i := IndexOf(targets, entry.reference);
    if i < |targets| then targets[i := entry] else targets + [entry]
  }

  function UpsertAll(targets: seq<TargetStatus>, outcomes: seq<TargetOutcome>, at: Timestamp): seq<TargetStatus> {
    if outcomes == [] then targets
    else
      var n := |outcomes| - 1;
      Upsert(UpsertAll(targets, outcomes[..n], at), EntryFor(outcomes[n], at))
  }

  function Retain(targets: seq<TargetStatus>, refs: seq<string>): seq<TargetStatus> {
    Filter(targets, (t: TargetStatus) => t.reference in refs)
  }

  function Merged(targets: seq<TargetStatus>, outcomes: seq<TargetOutcome>, refs: seq<string>, at: Timestamp)
    : seq<TargetStatus>
  {
    UpsertAll(Retain(targets, refs), outcomes, at)
  }

  /** What a mutation makes of a status. */
  function Apply(m: Mutation, s: ApiKeyStatus): ApiKeyStatus {
    match m
    case RecordRotation(at, actor, expiresAt) => AfterRotation(s, at, actor, Recorded, expiresAt, None)
    case StoreOutcome(at, actor, manual, probe, outcomes, refs) =>
      var merged := s.(targets := Merged(s.targets, outcomes, refs, at));
      if AllWritten(outcomes) then AfterRotation(merged, at, actor, Rotated, manual, probe) else merged
  }

  /** All of `ms`, the first one first. */
  function ApplyAll(ms: seq<Mutation>, s: ApiKeyStatus): ApiKeyStatus {
    if ms == [] then s else Apply(ms[|ms| - 1], ApplyAll(ms[..|ms| - 1], s))
  }

  // ------------------------------------------------------------------------
  // The code, which changes a status in place

  class StatusRecord {
    var lastRotated: Option<Timestamp>
    var rotatedBy: Option<Actor>
    var expiresAt: Option<Timestamp>
    var expiresAtSource: Option<ExpirySource>
    var manualExpiresAt: Option<Timestamp>
    var probe: Option<ProbeStatus>
    var targets: seq<TargetStatus>
    var history: seq<HistoryEntry>
    const conditions: seq<Condition>
    const observedGeneration: Option<int>

    function Value(): ApiKeyStatus
      reads this
    {
      ApiKeyStatus(lastRotated, rotatedBy, expiresAt, expiresAtSource, manualExpiresAt, probe,
                   targets, history, conditions, observedGeneration)
    }

    constructor (s: ApiKeyStatus)
      ensures Value() == s
    {
      lastRotated, rotatedBy := s.lastRotated, s.rotatedBy;
      expiresAt, expiresAtSource, manualExpiresAt := s.expiresAt, s.expiresAtSource, s.manualExpiresAt;
      probe, targets, history := s.probe, s.targets, s.history;
      conditions, observedGeneration := s.conditions, s.observedGeneration;
    }

    /** `apply_rotation`. */
    method ApplyRotation(at: Timestamp, actor: Actor, kind: HistoryKind,
                         manual: Option<Timestamp>, newProbe: Option<ProbeStatus>)
      modifies this
      ensures Value() == AfterRotation(old(Value()), at, actor, kind, manual, newProbe)
    {
      var probed: Option<Timestamp> := if newProbe.Some? then newProbe.value.expiresAt else None;
      var expiry, source := None, NoExpiry;
      match (probed, manual) {
        case (Some(p), _) => expiry, source := Some(p), ByProbe;
        case (None, Some(m)) => expiry, source := Some(m), ByHand;
        case (None, None) =>
      }
      lastRotated := Some(at);
      rotatedBy := Some(actor);
      manualExpiresAt := manual;
      expiresAt := expiry;
      expiresAtSource := Some(source);
      probe := newProbe;
      history := [HistoryEntry(at, actor, kind, expiry)] + history;
      if |history| > HISTORY_LIMIT {
        history := history[..HISTORY_LIMIT];
      }
    }

    /** The closure of `rotate_inner`, up to the call of `apply_rotation`. */
    method MergeTargets(outcomes: seq<TargetOutcome>, specRefs: seq<string>, at: Timestamp)
      modifies this`targets
      ensures targets == Merged(old(targets), outcomes, specRefs, at)
    {
      targets := Retain(targets, specRefs);
      ghost var retained := targets;
      for k := 0 to |outcomes|
        invariant targets == UpsertAll(retained, outcomes[..k], at)
      {
        var entry := EntryFor(outcomes[k], at);
        var i := 0;
        while i < |targets| && targets[i].reference != entry.reference
          invariant 0 <= i <= |targets|
          invariant forall j | 0 <= j < i :: targets[j].reference != entry.reference
        {
          i := i + 1;
        }
        assert i == IndexOf(targets, entry.reference);
        assert outcomes[..k + 1][..k] == outcomes[..k];
        if i < |targets| {
          targets := targets[i := entry];
        } else {
          targets := targets + [entry];
        }
      }
      assert outcomes[..|outcomes|] == outcomes;
    }

    method Mutate(m: Mutation)
      modifies this
      ensures Value() == Apply(m, old(Value()))
    {
      match m {
        case RecordRotation(at, actor, e) =>
          ApplyRotation(at, actor, Recorded, e, None);
        case StoreOutcome(at, actor, manual, p, outcomes, refs) =>
          MergeTargets(outcomes, refs, at);
          if AllWritten(outcomes) {
            ApplyRotation(at, actor, Rotated, manual, p);
          }
      }
    }
  }

  // ------------------------------------------------------------------------
  // History and expiry over every run

  /** The history entry of a mutation that completes a rotation; a submission of which some target
      failed completes none. */
  function Completion(m: Mutation): Option<HistoryEntry> {
    match m
    case RecordRotation(at, actor, expiresAt) => Some(HistoryEntry(at, actor, Recorded, expiresAt))
    case StoreOutcome(at, actor, manual, probe, outcomes, _) =>
      if AllWritten(outcomes) then Some(HistoryEntry(at, actor, Rotated, EffectiveExpiry(probe, manual).0)) else None
  }

  /** All completed rotations, oldest first. */
  function Completions(ms: seq<Mutation>): seq<HistoryEntry> {
    if ms == [] then []
    else
      var n := |ms| - 1;
      Completions(ms[..n]) + (match Completion(ms[n]) case Some(e) => [e] case None => [])
  }

  /** The last `HISTORY_LIMIT` of them, newest first. */
  function Newest(all: seq<HistoryEntry>): seq<HistoryEntry> {
    var n := if |all| < HISTORY_LIMIT then |all| else HISTORY_LIMIT;
    seq(n, k requires 0 <= k < n => all[|all| - 1 - k])
  }

  lemma NewestStep(all: seq<HistoryEntry>, e: HistoryEntry)
    ensures Newest(all + [e]) == Truncate([e] + Newest(all))
  {
    var long, short := Newest(all + [e]), Truncate([e] + Newest(all));
    forall k | 0 <= k < |long| ensures long[k] == short[k] {
      if k > 0 {
        assert (all + [e])[|all| - k] == all[|all| - k];
      }
    }
  }

  /** Dates, source and actor agree with the newest history entry, and the effective expiry is the
      stored probe's if that has one, or else the stored manual one. */
  predicate Coherent(s: ApiKeyStatus) {
    if s.history == [] then
      s.lastRotated.None? && s.rotatedBy.None? && s.expiresAt.None? && s.expiresAtSource.None?
      && s.manualExpiresAt.None? && s.probe.None?
    else
      var head := s.history[0];
      && s.lastRotated == Some(head.at)
      && s.rotatedBy == Some(head.actor)
      && s.expiresAt == head.expiresAt
      && (head.kind.Recorded? ==> s.probe.None?)
      && match (if s.probe.Some? then s.probe.value.expiresAt else None, s.manualExpiresAt)
         case (Some(p), _) => s.expiresAt == Some(p) && s.expiresAtSource == Some(ByProbe)
         case (None, Some(m)) => s.expiresAt == Some(m) && s.expiresAtSource == Some(ByHand)
         case (None, None) => s.expiresAt == None && s.expiresAtSource == Some(NoExpiry)
  }

  lemma CoherentStep(m: Mutation, s: ApiKeyStatus)
    requires Coherent(s)
    ensures Coherent(Apply(m, s))
  {}

  lemma HistoryStep(m: Mutation, s: ApiKeyStatus)
    ensures Apply(m, s).history ==
            match Completion(m)
            case Some(e) => Truncate([e] + s.history)
            case None => s.history
  {}

  lemma {:induction false} RunIsCoherent(ms: seq<Mutation>)
    ensures Coherent(ApplyAll(ms, DEFAULT_STATUS))
  {
    if ms != [] {
      var n := |ms| - 1;
      RunIsCoherent(ms[..n]);
      CoherentStep(ms[n], ApplyAll(ms[..n], DEFAULT_STATUS));
    }
  }

  lemma {:induction false} RunHistory(ms: seq<Mutation>)
    ensures ApplyAll(ms, DEFAULT_STATUS).history == Newest(Completions(ms))
  {
    if ms != [] {
      var n := |ms| - 1;
      RunHistory(ms[..n]);
      HistoryStep(ms[n], ApplyAll(ms[..n], DEFAULT_STATUS));
      match Completion(ms[n]) {
        case None =>
          assert Completions(ms) == Completions(ms[..n]);
        case Some(e) =>
          assert Completions(ms) == Completions(ms[..n]) + [e];
          NewestStep(Completions(ms[..n]), e);
      }
    }
  }

  /** What the last completed rotation gave as probe and as expiry by hand. */
  function LastGiven(ms: seq<Mutation>): (Option<ProbeStatus>, Option<Timestamp>) {
    if ms == [] then (None, None)
    else
      match ms[|ms| - 1]
      case RecordRotation(_, _, expiresAt) => (None, expiresAt)
      case StoreOutcome(_, _, manual, probe, outcomes, _) =>
        if AllWritten(outcomes) then (probe, manual) else LastGiven(ms[..|ms| - 1])
  }

  /** After any run, probe and manual expiry are those that the last completed rotation gave, and a
      partial rotation leaves them; the probed expiry counts before the one by hand. */
  lemma {:induction false} LastGivenIsStored(ms: seq<Mutation>)
    ensures var s, given := ApplyAll(ms, DEFAULT_STATUS), LastGiven(ms);
            && s.probe == given.0 && s.manualExpiresAt == given.1
            && (given.0.Some? && given.0.value.expiresAt.Some? ==> s.expiresAt == given.0.value.expiresAt)
            && (given.0.None? || given.0.value.expiresAt.None? ==> s.expiresAt == given.1)
  {
    if ms != [] {
      LastGivenIsStored(ms[..|ms| - 1]);
    }
  }

  /** After any run of recordings and submissions from an empty status, the history is exactly the
      newest ten completed rotations, newest first, and the dates describe the first of them. */
  lemma HistoryIsNewestFirst(ms: seq<Mutation>)
    ensures var s := ApplyAll(ms, DEFAULT_STATUS);
            var all := Completions(ms);
            && s.history == Newest(all)
            && |s.history| == (if |all| < 10 then |all| else 10)
            && (forall k | 0 <= k < |s.history| :: s.history[k] == all[|all| - 1 - k])
            && Coherent(s)
  {
    RunHistory(ms);
    RunIsCoherent(ms);
  }

  // ------------------------------------------------------------------------
  // Target entries

  function Refs(targets: seq<TargetStatus>): seq<string> {
    seq(|targets|, k requires 0 <= k < |targets| => targets[k].reference)
  }

  function OutcomeRefs(outcomes: seq<TargetOutcome>): seq<string> {
    seq(|outcomes|, k requires 0 <= k < |outcomes| => outcomes[k].reference)
  }

  lemma UpsertRefs(targets: seq<TargetStatus>, e: TargetStatus)
    ensures var refs := Refs(targets);
            Refs(Upsert(targets, e)) == if e.reference in refs then refs else refs + [e.reference]
  {
    var i := IndexOf(targets, e.reference);
    if i < |targets| {
      assert Refs(targets)[i] == e.reference;
    }
  }

  lemma {:induction false} UpsertAllRefs(targets: seq<TargetStatus>, outcomes: seq<TargetOutcome>, at: Timestamp)
    requires Distinct(OutcomeRefs(outcomes))
    ensures Refs(UpsertAll(targets, outcomes, at)) ==
            Refs(targets) + Filter(OutcomeRefs(outcomes), r => r !in Refs(targets))
  {
    if outcomes == [] {
      assert OutcomeRefs(outcomes) == [];
    } else {
      var n := |outcomes| - 1;
      var before, r := OutcomeRefs(outcomes[..n]), outcomes[n].reference;
      assert OutcomeRefs(outcomes) == before + [r];
      DistinctStep(before, r);
      UpsertAllRefs(targets, outcomes[..n], at);
      FilterStep(before, r, x => x !in Refs(targets));
      FilterMember(before, x => x !in Refs(targets), r);
      UpsertRefs(UpsertAll(targets, outcomes[..n], at), EntryFor(outcomes[n], at));
    }
  }

  lemma {:induction false} RetainRefs(targets: seq<TargetStatus>, refs: seq<string>)
    ensures Refs(Retain(targets, refs)) == Filter(Refs(targets), r => r in refs)
  {
    if targets != [] {
      var n := |targets| - 1;
      RetainRefs(targets[..n], refs);
      assert Refs(targets)[..n] == Refs(targets[..n]);
    }
  }

  lemma SameReference(targets: seq<TargetStatus>, a: TargetStatus, b: TargetStatus)
    requires Distinct(Refs(targets)) && a in targets && b in targets && a.reference == b.reference
    ensures a == b
  {
    var i :| 0 <= i < |targets| && targets[i] == a;
    var j :| 0 <= j < |targets| && targets[j] == b;
    assert Refs(targets)[i] == Refs(targets)[j];
  }

  lemma UpsertKeeps(targets: seq<TargetStatus>, e: TargetStatus, x: TargetStatus)
    ensures e in Upsert(targets, e)
    ensures x in targets && x.reference != e.reference ==> x in Upsert(targets, e)
  {
    var i := IndexOf(targets, e.reference);
    var result := Upsert(targets, e);
    assert result[i] == e;
    if x in targets && x.reference != e.reference {
      var j :| 0 <= j < |targets| && targets[j] == x;
      assert result[j] == x;
    }
  }

  lemma {:induction false} UpsertAllStores(targets: seq<TargetStatus>, outcomes: seq<TargetOutcome>, at: Timestamp, k: nat)
    requires k < |outcomes| && Distinct(OutcomeRefs(outcomes))
    ensures EntryFor(outcomes[k], at) in UpsertAll(targets, outcomes, at)
  {
    var n := |outcomes| - 1;
    var before := UpsertAll(targets, outcomes[..n], at);
    UpsertKeeps(before, EntryFor(outcomes[n], at), EntryFor(outcomes[k], at));
    if k < n {
      assert OutcomeRefs(outcomes) == OutcomeRefs(outcomes[..n]) + [outcomes[n].reference];
      DistinctStep(OutcomeRefs(outcomes[..n]), outcomes[n].reference);
      UpsertAllStores(targets, outcomes[..n], at, k);
      assert OutcomeRefs(outcomes)[k] != OutcomeRefs(outcomes)[n];
    }
  }

  function Entries(outcomes: seq<TargetOutcome>, at: Timestamp): seq<TargetStatus> {
    seq(|outcomes|, k requires 0 <= k < |outcomes| => EntryFor(outcomes[k], at))
  }

  lemma MergedOrder(targets: seq<TargetStatus>, outcomes: seq<TargetOutcome>, refs: seq<string>, at: Timestamp)
    requires Distinct(refs) && OutcomeRefs(outcomes) == refs
    ensures Refs(Merged(targets, outcomes, refs, at)) ==
            Filter(Refs(targets), r => r in refs) + Filter(refs, r => r !in Refs(targets))
  {
    var retained := Retain(targets, refs);
    UpsertAllRefs(retained, outcomes, at);
    RetainRefs(targets, refs);
    forall r | r in refs ensures r in Refs(retained) <==> r in Refs(targets) {
      FilterMember(Refs(targets), x => x in refs, r);
    }
    FilterAgrees(refs, r => r !in Refs(retained), r => r !in Refs(targets));
  }

  lemma MergedDistinct(targets: seq<TargetStatus>, outcomes: seq<TargetOutcome>, refs: seq<string>, at: Timestamp)
    requires Distinct(Refs(targets))
    ensures Distinct(Refs(Merged(targets, outcomes, refs, at)))
  {
    RetainRefs(targets, refs);
    FilterDistinct(Refs(targets), r => r in refs);
    UpsertAllDistinct(Retain(targets, refs), outcomes, at);
  }

  lemma MergedReferenceIsInSpec(targets: seq<TargetStatus>, outcomes: seq<TargetOutcome>, refs: seq<string>,
                                at: Timestamp, x: TargetStatus)
    requires Distinct(refs) && OutcomeRefs(outcomes) == refs
    requires x in Merged(targets, outcomes, refs, at)
    ensures x.reference in refs
  {
    var merged := Merged(targets, outcomes, refs, at);
    MergedOrder(targets, outcomes, refs, at);
    var j :| 0 <= j < |merged| && merged[j] == x;
    var left, right := Filter(Refs(targets), r => r in refs), Filter(refs, r => r !in Refs(targets));
    assert x.reference == (left + right)[j];
    FilterMember(Refs(targets), r => r in refs, x.reference);
    FilterMember(refs, r => r !in Refs(targets), x.reference);
    assert x.reference in left || x.reference in right;
  }

  lemma MergedElement(targets: seq<TargetStatus>, outcomes: seq<TargetOutcome>, refs: seq<string>, at: Timestamp,
                      x: TargetStatus)
    requires Distinct(Refs(targets)) && Distinct(refs) && OutcomeRefs(outcomes) == refs
    ensures x in Merged(targets, outcomes, refs, at) <==> x in Entries(outcomes, at)
  {
    var merged, entries := Merged(targets, outcomes, refs, at), Entries(outcomes, at);
    if x in entries {
      var k :| 0 <= k < |outcomes| && entries[k] == x;
      UpsertAllStores(Retain(targets, refs), outcomes, at, k);
    }
    if x in merged {
      MergedReferenceIsInSpec(targets, outcomes, refs, at, x);
      var k :| 0 <= k < |refs| && refs[k] == x.reference;
      UpsertAllStores(Retain(targets, refs), outcomes, at, k);
      MergedDistinct(targets, outcomes, refs, at);
      SameReference(merged, x, EntryFor(outcomes[k], at));
      assert entries[k] == x;
    }
  }

  /** The entry says what came of the target, as a reader of the status understands it. */
  predicate Reports(x: TargetStatus, o: TargetOutcome, at: Timestamp) {
    && x.reference == o.reference
    && x.lastWritten == Some(at)
    && x.message == o.error
    && (x.result == Written <==> o.error.None?)
    && (x.result == Failed <==> o.error.Some?)
  }

  /** The entries report the outcomes, each of them, and nothing else. */
  predicate ReportsAll(entries: seq<TargetStatus>, outcomes: seq<TargetOutcome>, at: Timestamp) {
    && |entries| == |outcomes|
    && Distinct(Refs(entries))
    && (forall o | o in outcomes :: exists x | x in entries :: Reports(x, o, at))
    && (forall x | x in entries :: exists o | o in outcomes :: Reports(x, o, at))
    && |Filter(entries, IsFailed)| == |Filter(outcomes, HasError)|
  }

  predicate IsFailed(x: TargetStatus) {
    x.result == Failed
  }

  predicate HasError(o: TargetOutcome) {
    o.error.Some?
  }

  lemma {:induction false} FailedEntries(outcomes: seq<TargetOutcome>, at: Timestamp)
    ensures |Filter(Entries(outcomes, at), IsFailed)| == |Filter(outcomes, HasError)|
  {
    if outcomes == [] {
      assert Entries(outcomes, at) == [];
    } else {
      var n := |outcomes| - 1;
      FailedEntries(outcomes[..n], at);
      assert outcomes == outcomes[..n] + [outcomes[n]];
      assert Entries(outcomes, at) == Entries(outcomes[..n], at) + [EntryFor(outcomes[n], at)];
      FilterStep(outcomes[..n], outcomes[n], HasError);
      FilterStep(Entries(outcomes[..n], at), EntryFor(outcomes[n], at), IsFailed);
    }
  }

  lemma SameFailures(s: seq<TargetStatus>, t: seq<TargetStatus>)
    requires Distinct(s) && Distinct(t)
    requires forall x :: x in s <==> x in t
    ensures |Filter(s, IsFailed)| == |Filter(t, IsFailed)|
  {
    FilterDistinct(s, IsFailed);
    FilterDistinct(t, IsFailed);
    forall x ensures x in Filter(s, IsFailed) <==> x in Filter(t, IsFailed) {
      FilterMember(s, IsFailed, x);
      FilterMember(t, IsFailed, x);
    }
    DistinctPermutation(Filter(s, IsFailed), Filter(t, IsFailed));
  }

  lemma EntriesReport(merged: seq<TargetStatus>, outcomes: seq<TargetOutcome>, at: Timestamp)
    requires Distinct(Refs(merged)) && Distinct(Refs(Entries(outcomes, at)))
    requires forall x :: x in merged <==> x in Entries(outcomes, at)
    ensures ReportsAll(merged, outcomes, at)
  {
    var entries := Entries(outcomes, at);
    DistinctByReference(merged);
    DistinctByReference(entries);
    DistinctPermutation(merged, entries);
    SameFailures(merged, entries);
    FailedEntries(outcomes, at);
    forall o | o in outcomes ensures exists x | x in merged :: Reports(x, o, at) {
      var k :| 0 <= k < |outcomes| && outcomes[k] == o;
      assert entries[k] in merged && Reports(entries[k], o, at);
    }
    forall x | x in merged ensures exists o | o in outcomes :: Reports(x, o, at) {
      var k :| 0 <= k < |outcomes| && entries[k] == x;
      assert outcomes[k] in outcomes && Reports(x, outcomes[k], at);
    }
  }

  /** The retain-and-upsert loop, for a validated spec: afterwards there is exactly one entry per
      spec target, reporting that target's outcome, and as many failed entries as failed targets.
      Entries that were there before keep their order and come first, the others follow in the order
      of the spec. */
  lemma MergedIsOnePerTarget(targets: seq<TargetStatus>, outcomes: seq<TargetOutcome>, refs: seq<string>, at: Timestamp)
    requires Distinct(Refs(targets)) && Distinct(refs) && OutcomeRefs(outcomes) == refs
    ensures var merged := Merged(targets, outcomes, refs, at);
            && ReportsAll(merged, outcomes, at)
            && Refs(merged) == Filter(Refs(targets), r => r in refs) + Filter(refs, r => r !in Refs(targets))
  {
    var merged, entries := Merged(targets, outcomes, refs, at), Entries(outcomes, at);
    MergedOrder(targets, outcomes, refs, at);
    MergedDistinct(targets, outcomes, refs, at);
    forall x ensures x in merged <==> x in entries {
      MergedElement(targets, outcomes, refs, at, x);
    }
    assert Refs(entries) == refs;
    EntriesReport(merged, outcomes, at);
  }

  lemma DistinctByReference(targets: seq<TargetStatus>)
    requires Distinct(Refs(targets))
    ensures Distinct(targets)
  {
    forall i, j | 0 <= i < j < |targets| ensures targets[i] != targets[j] {
      assert Refs(targets)[i] != Refs(targets)[j];
    }
  }

  lemma UpsertDistinct(targets: seq<TargetStatus>, e: TargetStatus)
    requires Distinct(Refs(targets))
    ensures Distinct(Refs(Upsert(targets, e)))
  {
    UpsertRefs(targets, e);
    DistinctStep(Refs(targets), e.reference);
  }

  lemma {:induction false} UpsertAllDistinct(targets: seq<TargetStatus>, outcomes: seq<TargetOutcome>, at: Timestamp)
    requires Distinct(Refs(targets))
    ensures Distinct(Refs(UpsertAll(targets, outcomes, at)))
  {
    if outcomes != [] {
      var n := |outcomes| - 1;
      UpsertAllDistinct(targets, outcomes[..n], at);
      UpsertDistinct(UpsertAll(targets, outcomes[..n], at), EntryFor(outcomes[n], at));
    }
  }

  /** In every reachable status no target has two entries, even when specs change in between. */
  lemma {:induction false} TargetsStayDistinct(ms: seq<Mutation>)
    ensures Distinct(Refs(ApplyAll(ms, DEFAULT_STATUS).targets))
  {
    if ms != [] {
      var n := |ms| - 1;
      TargetsStayDistinct(ms[..n]);
      if ms[n].StoreOutcome? {
        MergedDistinct(ApplyAll(ms[..n], DEFAULT_STATUS).targets, ms[n].outcomes, ms[n].specRefs, ms[n].at);
      }
    }
  }
}
