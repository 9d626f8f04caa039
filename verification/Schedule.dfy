// src/schedule.rs, with the gauges of src/metrics.rs and the shipped alert rules.
module Schedule {
  import opened Wrappers
  import opened Crd
  import opened Integers
  import Duration

  /** Range of jiff's `Timestamp`. */
  const TIMESTAMP_MIN: int := -377_705_023_201 * NANOS
  const TIMESTAMP_MAX: int := 253_402_207_200 * NANOS + 999_999_999

  /** In whole seconds, the unit that specs and flags are written in. */
  datatype Thresholds = Thresholds(warnBefore: int, criticalBefore: int)

  datatype State = Expired | Critical | Warning | Unknown | Ok

  /** Position in the derived order of `State`: the smaller, the more urgent. */
  function Rank(s: State): nat {
    match s
    case Expired => 0
    case Critical => 1
    case Warning => 2
    case Unknown => 3
    case Ok => 4
  }

  /** The declared order: from the most urgent to the least, a key without a known deadline just before
      one that is fine. */
  lemma RankOrders()
    ensures Rank(Expired) < Rank(Critical) < Rank(Warning) < Rank(Unknown) < Rank(State.Ok)
  {}

  datatype DeadlineKind = Expiry | MaxAge

  datatype Schedule = Schedule(
    lastRotated: Option<Timestamp>,
    expiresAt: Option<Timestamp>,
    rotateBy: Option<Timestamp>,
    deadline: Option<(Timestamp, DeadlineKind)>,
    thresholds: Thresholds)

  /** `Timestamp::checked_add`. */
  function CheckedAdd(at: Timestamp, secs: int): Option<Timestamp> {
    var sum := at + secs * NANOS;
    if TIMESTAMP_MIN <= sum <= TIMESTAMP_MAX then Some(sum) else None
  }

  function GetOr(o: Option<int>, default: int): int {
    match o
    case Some(v) => v
    case None => default
  }

  function Compute(key: ApiKey, defaults: Thresholds): Schedule {
    var policy := key.spec.rotation;
    var lastRotated := StatusOf(key).lastRotated;
    var expiresAt := StatusOf(key).expiresAt;
    var maxAge := Duration.ParseField(policy.maxAge);
    var rotateBy :=
      if lastRotated.Some? && maxAge.Some? then CheckedAdd(lastRotated.value, maxAge.value) else None;
    var deadline :=
      match (expiresAt, rotateBy)
      case (Some(e), Some(r)) => if r < e then Some((r, MaxAge)) else Some((e, Expiry))
      case (Some(e), None) => Some((e, Expiry))
      case (None, Some(r)) => Some((r, MaxAge))
      case (None, None) => None;
    Schedule(lastRotated, expiresAt, rotateBy, deadline,
             Thresholds(GetOr(Duration.ParseField(policy.warnBefore), defaults.warnBefore),
                        GetOr(Duration.ParseField(policy.criticalBefore), defaults.criticalBefore)))
  }

  function Remaining(s: Schedule, now: Timestamp): Option<int> {
    match s.deadline
    case Some((d, _)) => Some(d - now)
    case None => None
  }

  function StateAt(s: Schedule, now: Timestamp): State {
    match Remaining(s, now)
    case None => Unknown
    case Some(r) =>
      if r <= 0 then Expired
      else if r < s.thresholds.criticalBefore * NANOS then Critical
      else if r < s.thresholds.warnBefore * NANOS then Warning
      else State.Ok
  }

  /** The state never grows less urgent as time passes, whatever the thresholds: also when a key's
      own `criticalBefore` exceeds the default `warnBefore`. */
  lemma UrgencyGrows(s: Schedule, earlier: Timestamp, later: Timestamp)
    requires earlier <= later
    ensures Rank(StateAt(s, later)) <= Rank(StateAt(s, earlier))
    ensures StateAt(s, later).Unknown? <==> StateAt(s, earlier).Unknown?
  {}

  /** The key has a bound from the provider (or entered by hand) and less than `window` nanoseconds
      are left to it. */
  predicate ExpiryWithin(key: ApiKey, now: Timestamp, window: int) {
    var e := StatusOf(key).expiresAt;
    e.Some? && e.value - now < window
  }

  /** The same for the rotation policy: the last rotation plus the maximum age, if both are known,
      the age is readable and the sum is a timestamp. */
  predicate HasPolicyBound(key: ApiKey) {
    && StatusOf(key).lastRotated.Some?
    && key.spec.rotation.maxAge.Some?
    && Duration.Parse(key.spec.rotation.maxAge.value).Some?
    && TIMESTAMP_MIN <= PolicyBound(key) <= TIMESTAMP_MAX
  }

  function PolicyBound(key: ApiKey): Timestamp
    requires StatusOf(key).lastRotated.Some? && key.spec.rotation.maxAge.Some?
    requires Duration.Parse(key.spec.rotation.maxAge.value).Some?
  {
    StatusOf(key).lastRotated.value + NANOS * Duration.Parse(key.spec.rotation.maxAge.value).value
  }

  predicate PolicyWithin(key: ApiKey, now: Timestamp, window: int) {
    HasPolicyBound(key) && PolicyBound(key) - now < window
  }

  predicate DueWithin(key: ApiKey, now: Timestamp, window: int) {
    ExpiryWithin(key, now, window) || PolicyWithin(key, now, window)
  }

  /** A key's own threshold if it is readable, the configured one otherwise. */
  function Threshold(own: Option<string>, default: int): int {
    if own.Some? && Duration.Parse(own.value).Some? then Duration.Parse(own.value).value else default
  }

  /** The state said directly in terms of the key: expired when a bound has passed, critical when one
      is nearer than the critical threshold, warning when one is nearer than the warning threshold,
      each unless a more urgent one applies, and unknown when there is no bound at all. */
  lemma StateOfTheKey(key: ApiKey, defaults: Thresholds, now: Timestamp)
    ensures var state := StateAt(Compute(key, defaults), now);
            var critical := NANOS * Threshold(key.spec.rotation.criticalBefore, defaults.criticalBefore);
            var warn := NANOS * Threshold(key.spec.rotation.warnBefore, defaults.warnBefore);
            && (state.Expired? <==> DueWithin(key, now, 1))
            && (state.Critical? <==> DueWithin(key, now, critical) && !state.Expired?)
            && (state.Warning? <==> DueWithin(key, now, warn) && !state.Expired? && !state.Critical?)
            && (state.Unknown? <==> StatusOf(key).expiresAt.None? && !HasPolicyBound(key))
  {
    var s := Compute(key, defaults);
    assert s.rotateBy == if HasPolicyBound(key) then Some(PolicyBound(key)) else None;
    assert s.thresholds == Thresholds(Threshold(key.spec.rotation.warnBefore, defaults.warnBefore),
                                      Threshold(key.spec.rotation.criticalBefore, defaults.criticalBefore));
  }

  /** The schedule itself, as the page shows it: both bounds, the nearer one as the deadline with its
      kind, and the provider's bound when they coincide. */
  lemma ScheduleOfTheKey(key: ApiKey, defaults: Thresholds)
    ensures var s := Compute(key, defaults);
            && s.lastRotated == StatusOf(key).lastRotated && s.expiresAt == StatusOf(key).expiresAt
            && (s.rotateBy.Some? <==> HasPolicyBound(key))
            && (HasPolicyBound(key) ==> s.rotateBy.value == PolicyBound(key))
            && (s.deadline.Some? <==> s.expiresAt.Some? || HasPolicyBound(key))
            && (s.deadline.Some? && s.deadline.value.1 == Expiry ==>
                  && s.expiresAt == Some(s.deadline.value.0)
                  && (HasPolicyBound(key) ==> s.expiresAt.value <= PolicyBound(key)))
            && (s.deadline.Some? && s.deadline.value.1 == MaxAge ==>
                  && HasPolicyBound(key) && PolicyBound(key) == s.deadline.value.0
                  && (s.expiresAt.Some? ==> PolicyBound(key) < s.expiresAt.value))
            && s.thresholds.warnBefore == Threshold(key.spec.rotation.warnBefore, defaults.warnBefore)
            && s.thresholds.criticalBefore == Threshold(key.spec.rotation.criticalBefore, defaults.criticalBefore)
  {
    assert HasPolicyBound(key) ==> Compute(key, defaults).rotateBy == Some(PolicyBound(key));
  }

  // ------------------------------------------------------------------------
  // Gauges and alerts

  const NANOS_PER_MILLI: int := 1_000_000

  /** `as_millisecond`: truncated toward zero. */
  function TruncMillis(t: Timestamp): int {
    TruncDiv(t, NANOS_PER_MILLI)
  }

  /** The exported gauges, in milliseconds; the deadline is omitted when there is none. */
  datatype Gauges = Gauges(deadline: Option<int>, warnBefore: int, criticalBefore: int, stateKnown: int)

  function Export(s: Schedule): Gauges {
    Gauges(match s.deadline case Some((d, _)) => Some(TruncMillis(d)) case None => None,
           s.thresholds.warnBefore * 1000,
           s.thresholds.criticalBefore * 1000,
           if s.deadline.Some? then 1 else 0)
  }

  predicate ExpiringSoonFires(g: Gauges, time: int) {
    g.deadline.Some? && g.deadline.value - time < g.warnBefore && g.deadline.value - time >= g.criticalBefore
  }

  predicate ExpiringVerySoonFires(g: Gauges, time: int) {
    g.deadline.Some? && g.deadline.value - time < g.criticalBefore && g.deadline.value - time > 0
  }

  predicate ExpiredFires(g: Gauges, time: int) {
    g.deadline.Some? && g.deadline.value - time <= 0
  }

  predicate StateUnknownFires(g: Gauges) {
    g.stateKnown == 0
  }

  /** Each alert holds exactly when the page shows the state it is named after. */
  predicate AlertsAgree(s: Schedule, time: int) {
    var g, state := Export(s), StateAt(s, time * NANOS_PER_MILLI);
    && (ExpiredFires(g, time) <==> state.Expired?)
    && (ExpiringVerySoonFires(g, time) <==> state.Critical?)
    && (ExpiringSoonFires(g, time) <==> state.Warning?)
    && (StateUnknownFires(g) <==> state.Unknown?)
  }

  predicate AtMostOneFires(g: Gauges, time: int) {
    var n := (if ExpiredFires(g, time) then 1 else 0)
             + (if ExpiringVerySoonFires(g, time) then 1 else 0)
             + (if ExpiringSoonFires(g, time) then 1 else 0)
             + (if StateUnknownFires(g) then 1 else 0);
    n <= 1
  }

  /** The deadline is representable in the exported unit. */
  predicate WholeMillis(s: Schedule) {
    s.deadline.Some? ==> s.deadline.value.0 % NANOS_PER_MILLI == 0
  }

  predicate PastDueYetSoon(s: Schedule, now: Timestamp) {
    var r := Remaining(s, now);
    r.Some? && r.value <= 0 && s.thresholds.criticalBefore * NANOS <= r.value < s.thresholds.warnBefore * NANOS
  }

  /** The two rules about a deadline that is near never hold at once. The rules and the page agree,
      and no two of all four rules hold at once, exactly at the moments that are not past due yet soon:
      at or after the deadline, but with no less time left than the critical threshold, and inside the
      warning window. With a critical threshold above zero there is no such moment. */
  lemma AlertsMatchStates(s: Schedule, time: int)
    requires WholeMillis(s)
    ensures !(ExpiringSoonFires(Export(s), time) && ExpiringVerySoonFires(Export(s), time))
    ensures AlertsAgree(s, time) <==> !PastDueYetSoon(s, time * NANOS_PER_MILLI)
    ensures AtMostOneFires(Export(s), time) <==> !PastDueYetSoon(s, time * NANOS_PER_MILLI)
    ensures s.thresholds.criticalBefore > 0 ==> !PastDueYetSoon(s, time * NANOS_PER_MILLI)
  {
    if s.deadline.Some? {
      var d := s.deadline.value.0;
      assert d == TruncMillis(d) * NANOS_PER_MILLI;
    }
  }

  /** A key that a spec can describe for which this happens: its critical threshold is "0s", and it
      expires this very moment. Then it is both expired and expiring soon. */
  lemma TwoAlertsAtTheDeadline(key: ApiKey, defaults: Thresholds, time: int)
    requires key.spec.rotation == RotationPolicy(None, None, Some("0s"))
    requires StatusOf(key).lastRotated.None? && StatusOf(key).expiresAt == Some(time * NANOS_PER_MILLI)
    requires defaults.warnBefore > 0
    ensures var g := Export(Compute(key, defaults));
            ExpiredFires(g, time) && ExpiringSoonFires(g, time)
    ensures var s := Compute(key, defaults);
            StateAt(s, time * NANOS_PER_MILLI).Expired? && PastDueYetSoon(s, time * NANOS_PER_MILLI)
  {
    var h := "0s";
    assert h[..|h| - 1] == "0" && "0"[..|"0"| - 1] == "";
    Duration.ParseAgreesWithCrdPattern(h);
    var s := Compute(key, defaults);
    assert s.thresholds == Thresholds(defaults.warnBefore, 0);
    assert TruncMillis(time * NANOS_PER_MILLI) == time by {
      var t := time * NANOS_PER_MILLI;
      QuotientUnique(if t < 0 then -t else t, NANOS_PER_MILLI, if time < 0 then -time else time, 0);
    }
  }

  /** The schedule as the gauge shows it, with the deadline cut to the millisecond. */
  function CutToMillis(s: Schedule): Schedule {
    match s.deadline
    case Some((d, kind)) => s.(deadline := Some((TruncMillis(d) * NANOS_PER_MILLI, kind)))
    case None => s
  }

  /** For every deadline: the rules agree with the page exactly when cutting the deadline to the
      millisecond does not change the state, nor makes the key past due yet due soon. */
  lemma AlertsBetweenMillisIff(s: Schedule, time: int)
    ensures AlertsAgree(s, time) <==>
            && StateAt(CutToMillis(s), time * NANOS_PER_MILLI) == StateAt(s, time * NANOS_PER_MILLI)
            && !PastDueYetSoon(CutToMillis(s), time * NANOS_PER_MILLI)
  {
    var cut := CutToMillis(s);
    if s.deadline.Some? {
      var g := TruncMillis(s.deadline.value.0);
      var d := g * NANOS_PER_MILLI;
      QuotientUnique(if d < 0 then -d else d, NANOS_PER_MILLI, if g < 0 then -g else g, 0);
      assert TruncMillis(d) == g;
      QuotientUnique(d, NANOS_PER_MILLI, g, 0);
    }
    assert Export(cut) == Export(s) && WholeMillis(cut);
    AlertsMatchStates(cut, time);
  }

  /** For deadlines since 1970 and critical thresholds above zero: the gauge is rounded down, so the
      expired alert fires during the last fraction of a millisecond, and that is the only difference. */
  lemma AlertsWithinTheMillisecond(s: Schedule, time: int)
    requires s.thresholds.criticalBefore > 0
    requires s.deadline.Some? && s.deadline.value.0 >= 0
    ensures AlertsAgree(s, time) <==> !(0 < s.deadline.value.0 - time * NANOS_PER_MILLI < NANOS_PER_MILLI)
  {
    var d := s.deadline.value.0;
    var q, rest := d / NANOS_PER_MILLI, d % NANOS_PER_MILLI;
    assert d == q * NANOS_PER_MILLI + rest;
    assert d - time * NANOS_PER_MILLI == (q - time) * NANOS_PER_MILLI + rest;
  }
}
