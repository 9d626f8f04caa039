// src/crd.rs: the `ApiKey` custom resource. `spec` comes from git, `status` is written by this app.
module Crd {
  import opened Integers
  import opened Text
  import opened Wrappers

  /** Nanoseconds since the Unix epoch. */
  type Timestamp = int

  const NANOS: int := 1_000_000_000

  /** `Timestamp::as_second`: whole seconds, truncated toward zero. */
  function AsSecond(t: Timestamp): int {
    TruncDiv(t, NANOS)
  }

  datatype Provider = Generic | Github | Cloudflare

  datatype RotationPolicy = RotationPolicy(
    maxAge: Option<string>,
    warnBefore: Option<string>,
    criticalBefore: Option<string>)

  datatype OpenBaoTarget = OpenBaoTarget(mount: string, path: string, key: string) {
    /** Stable reference used in status, metrics and logs. */
    function Reference(): string {
      "openbao/" + mount + "/" + TrimSlashes(path) + "#" + key
    }

    /** The API path as used in OpenBao policies. */
    function PolicyPath(): string {
      TrimSlashes(mount) + "/data/" + TrimSlashes(path)
    }
  }

  datatype TargetSpec = TargetSpec(openbao: Option<OpenBaoTarget>) {
    function Reference(): string {
      match openbao
      case Some(t) => t.Reference()
      case None => "invalid-target"
    }
  }

  lemma PrefixUntil(a: string, b: string, mark: char, x: string, y: string)
    requires mark !in a && mark !in b && a + [mark] + x == b + [mark] + y
    ensures a == b && x == y
  {
    var s := a + [mark] + x;
    assert s[|a|] == mark && s[|b|] == mark;
    assert forall k | 0 <= k < |a| :: s[k] == a[k];
    assert forall k | 0 <= k < |b| :: s[k] == b[k];
    assert s[..|a|] == a && s[..|b|] == b;
    assert s[|a| + 1..] == x && s[|b| + 1..] == y;
  }

  lemma SuffixAfter(a: string, b: string, mark: char, x: string, y: string)
    requires mark !in x && mark !in y && a + [mark] + x == b + [mark] + y
    ensures a == b && x == y
  {
    var s := a + [mark] + x;
    assert s[|s| - |x| - 1] == mark && s[|s| - |y| - 1] == mark;
    assert forall k | |s| - |x| <= k < |s| :: s[k] == x[k - (|s| - |x|)];
    assert forall k | |s| - |y| <= k < |s| :: s[k] == y[k - (|s| - |y|)];
    assert s[..|s| - |x| - 1] == a && s[..|s| - |y| - 1] == b;
    assert s[|s| - |x|..] == x && s[|s| - |y|..] == y;
  }

  /** A reference tells mount, path and key apart, slashes around the path aside: two targets share one
      if and only if they agree on all three, provided that mounts have no "/" and keys no "#". */
  lemma ReferenceTells(s: OpenBaoTarget, t: OpenBaoTarget)
    requires '/' !in s.mount && '/' !in t.mount && '#' !in s.key && '#' !in t.key
    ensures s.Reference() == t.Reference() <==>
            s.mount == t.mount && TrimSlashes(s.path) == TrimSlashes(t.path) && s.key == t.key
  {
    if s.Reference() == t.Reference() {
      var p, q := TrimSlashes(s.path), TrimSlashes(t.path);
      ReferenceParts(s);
      ReferenceParts(t);
      assert s.Reference()[8..] == t.Reference()[8..];
      PrefixUntil(s.mount, t.mount, '/', p + ['#'] + s.key, q + ['#'] + t.key);
      SuffixAfter(p, q, '#', s.key, t.key);
    }
  }

  lemma ReferenceParts(t: OpenBaoTarget)
    ensures |t.Reference()| >= 8
    ensures t.Reference()[8..] == t.mount + ['/'] + (TrimSlashes(t.path) + ['#'] + t.key)
  {
    assert "/" == ['/'] && "#" == ['#'];
    assert t.Reference() == "openbao/" + (t.mount + ['/'] + (TrimSlashes(t.path) + ['#'] + t.key));
  }

  datatype ApiKeySpec = ApiKeySpec(
    provider: Provider,
    renewUrl: Option<string>,
    rotation: RotationPolicy,
    targets: seq<TargetSpec>)

  datatype Actor = Actor(sub: string, name: string)

  datatype ExpirySource = ByProbe | ByHand | NoExpiry

  datatype ProbeStatus = ProbeStatus(at: Timestamp, identity: Option<string>, expiresAt: Option<Timestamp>)

  datatype TargetResult = Written | Failed

  datatype TargetStatus = TargetStatus(
    reference: string,
    lastWritten: Option<Timestamp>,
    result: TargetResult,
    message: Option<string>)

  datatype HistoryKind = Rotated | Recorded

  datatype HistoryEntry = HistoryEntry(at: Timestamp, actor: Actor, kind: HistoryKind, expiresAt: Option<Timestamp>)

  /** Kubernetes' `metav1.Condition`; `status` is "True" or "False" for the one this app writes. */
  datatype Condition = Condition(
    kind: string,
    status: string,
    reason: string,
    message: string,
    observedGeneration: Option<int>,
    lastTransitionTime: Timestamp)

  datatype ApiKeyStatus = ApiKeyStatus(
    lastRotated: Option<Timestamp>,
    rotatedBy: Option<Actor>,
    expiresAt: Option<Timestamp>,
    expiresAtSource: Option<ExpirySource>,
    manualExpiresAt: Option<Timestamp>,
    probe: Option<ProbeStatus>,
    targets: seq<TargetStatus>,
    history: seq<HistoryEntry>,
    conditions: seq<Condition>,
    observedGeneration: Option<int>)

  const DEFAULT_STATUS := ApiKeyStatus(None, None, None, None, None, None, [], [], [], None)

  const HISTORY_LIMIT: nat := 10

  /** The object without its name and resourceVersion. */
  datatype ApiKey = ApiKey(generation: Option<int>, spec: ApiKeySpec, status: Option<ApiKeyStatus>)

  /** `status.take().unwrap_or_default()`. */
  function StatusOf(key: ApiKey): ApiKeyStatus {
    match key.status
    case Some(s) => s
    case None => DEFAULT_STATUS
  }

  /** First condition of the given type. */
  function FindCondition(conditions: seq<Condition>, kind: string): (c: Option<Condition>)
    ensures c.Some? ==> exists i | 0 <= i < |conditions| ::
              && c.value == conditions[i] && c.value.kind == kind
              && forall k | 0 <= k < i :: conditions[k].kind != kind
    ensures c.None? ==> forall x | x in conditions :: x.kind != kind
  {
    if conditions == [] then None
    else if conditions[0].kind == kind then Some(conditions[0])
    else
      var c := FindCondition(conditions[1..], kind);
      assert forall k | 0 < k < |conditions| :: conditions[k] == conditions[1..][k - 1];
      c
  }

  /** `ApiKey::condition`. */
  function ConditionOf(key: ApiKey, kind: string): Option<Condition> {
    match key.status
    case None => None
    case Some(s) => FindCondition(s.conditions, kind)
  }
}
