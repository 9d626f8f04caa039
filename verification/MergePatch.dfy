// JSON Merge Patch (section 2 of RFC 7396), as the API server applies it to a stored object when
// `reconcile` patches the conditions.
module MergePatch {
  import opened Wrappers
  import opened Crd
  import opened Conditions
  import Validation

  datatype Json =
    | Null
    | Num(n: int)
    | Str(s: string)
    | Arr(items: seq<Json>)
    | Obj(fields: map<string, Json>)

  /** The algorithm of section 2: members that are null are removed, objects are merged, everything
      else replaces what was there. */
  function Merge(target: Json, patch: Json): Json
    decreases patch
  {
    if patch.Obj? then
      var base := if target.Obj? then target.fields else map[];
      Obj(map k | k in base.Keys + patch.fields.Keys && !(k in patch.fields && patch.fields[k].Null?) ::
            if k in patch.fields then Merge(if k in base then base[k] else Null, patch.fields[k]) else base[k])
    else patch
  }

  /** How a condition is written as JSON; the lists of the patch are sent and stored whole. */
  type Encoder = Condition -> Json

  function ConditionsJson(conditions: seq<Condition>, encode: Encoder): Json {
    Arr(seq(|conditions|, k requires 0 <= k < |conditions| => encode(conditions[k])))
  }

  const CONDITIONS := "conditions"
  const OBSERVED_GENERATION := "observedGeneration"

  /** Null stands for a member that is not written. */
  function WithMember(base: map<string, Json>, name: string, value: Json): map<string, Json> {
    if value.Null? then base - {name} else base[name := value]
  }

  function SkipEmpty(conditions: seq<Condition>, encode: Encoder): Json {
    if conditions == [] then Null else ConditionsJson(conditions, encode)
  }

  function GenerationJson(generation: Option<int>): Json {
    match generation case Some(g) => Num(g) case None => Null
  }

  /** The JSON of a status: the members owned by rotations, whatever they are, and the two that
      belong to the controller; absent options and empty lists are skipped. */
  function StatusJson(owned: map<string, Json>, conditions: seq<Condition>, generation: Option<int>, encode: Encoder): Json {
    Obj(WithMember(WithMember(owned, CONDITIONS, SkipEmpty(conditions, encode)),
                   OBSERVED_GENERATION, GenerationJson(generation)))
  }

  /** The stored object: metadata, spec and whatever else it holds, and its status if it has one. */
  function ObjectJson(rest: map<string, Json>, owned: map<string, Json>, key: ApiKey, encode: Encoder): Json {
    Obj(WithMember(rest, "status",
      match key.status
      case Some(s) => StatusJson(owned, s.conditions, s.observedGeneration, encode)
      case None => Null))
  }

  /** The members of the status that the patch sends; a missing generation is written as null. */
  function Sent(p: Patch, encode: Encoder): map<string, Json> {
    map[CONDITIONS := ConditionsJson(p.conditions, encode),
        OBSERVED_GENERATION := GenerationJson(p.observedGeneration)]
  }

  function PatchJson(p: Patch, encode: Encoder): Json {
    Obj(map["status" := Obj(Sent(p, encode))])
  }

  /** Two members that are not objects: each is removed or replaced. */
  lemma MergeTwoMembers(base: map<string, Json>, a: string, x: Json, b: string, y: Json)
    requires a != b && !x.Obj? && !y.Obj?
    ensures Merge(Obj(base), Obj(map[a := x, b := y])) == Obj(WithMember(WithMember(base, a, x), b, y))
  {
    var left, right := Merge(Obj(base), Obj(map[a := x, b := y])).fields, WithMember(WithMember(base, a, x), b, y);
    MergeLeaf(if a in base then base[a] else Null, x);
    MergeLeaf(if b in base then base[b] else Null, y);
    assert left.Keys == right.Keys;
    assert left == right;
  }

  lemma MergeLeaf(target: Json, patch: Json)
    requires !patch.Obj?
    ensures Merge(target, patch) == patch
  {}

  lemma OverwriteTwice(base: map<string, Json>, a: string, x: Json, x': Json, b: string, y: Json, y': Json)
    requires a != b
    ensures WithMember(WithMember(WithMember(WithMember(base, a, x'), b, y'), a, x), b, y)
         == WithMember(WithMember(base, a, x), b, y)
  {
    var left, right := WithMember(WithMember(WithMember(WithMember(base, a, x'), b, y'), a, x), b, y),
                       WithMember(WithMember(base, a, x), b, y);
    assert left.Keys == right.Keys;
    assert left == right;
  }

  lemma MergedStatus(owned: map<string, Json>, conditions: seq<Condition>, generation: Option<int>, p: Patch, encode: Encoder)
    requires p.conditions != []
    ensures Merge(StatusJson(owned, conditions, generation, encode), Obj(Sent(p, encode))) ==
            StatusJson(owned, p.conditions, p.observedGeneration, encode)
  {
    var x, y := SkipEmpty(p.conditions, encode), GenerationJson(p.observedGeneration);
    MergeTwoMembers(StatusJson(owned, conditions, generation, encode).fields, CONDITIONS, x, OBSERVED_GENERATION, y);
    OverwriteTwice(owned, CONDITIONS, x, SkipEmpty(conditions, encode),
                   OBSERVED_GENERATION, y, GenerationJson(generation));
  }

  lemma MergeOneMember(base: map<string, Json>, k: string, patch: Json)
    requires patch.Obj?
    ensures Merge(Obj(base), Obj(map[k := patch])) ==
            Obj(base[k := Merge(if k in base then base[k] else Null, patch)])
  {
    var left, right := Merge(Obj(base), Obj(map[k := patch])).fields,
                       base[k := Merge(if k in base then base[k] else Null, patch)];
    assert left.Keys == right.Keys;
    assert left == right;
  }

  /** Merging what `reconcile` sends into the stored JSON replaces exactly the two members of the
      status that belong to the controller, and creates a status of just these when there was none.
      Nothing else changes, whichever copy the patch was computed from. */
  lemma PatchIsMergePatch(rest: map<string, Json>, owned: map<string, Json>, stored: ApiKey, cached: ApiKey,
                          ctx: Validation.Context, now: Timestamp, encode: Encoder)
    requires Reconcile(cached, ctx, now).Some?
    requires stored.status.None? ==> owned == map[]
    ensures var p := Reconcile(cached, ctx, now).value;
            Merge(ObjectJson(rest, owned, stored, encode), PatchJson(p, encode)) ==
            ObjectJson(rest, owned, Patched(stored, p), encode)
  {
    MergedObject(rest, owned, stored, Reconcile(cached, ctx, now).value, encode);
  }

  lemma MergedObject(rest: map<string, Json>, owned: map<string, Json>, key: ApiKey, p: Patch, encode: Encoder)
    requires p.conditions != []
    requires key.status.None? ==> owned == map[]
    ensures Merge(ObjectJson(rest, owned, key, encode), PatchJson(p, encode)) ==
            ObjectJson(rest, owned, Patched(key, p), encode)
  {
    var after := StatusJson(owned, p.conditions, p.observedGeneration, encode);
    MergeOneMember(ObjectJson(rest, owned, key, encode).fields, "status", Obj(Sent(p, encode)));
    match key.status {
      case Some(s) =>
        MergedStatus(owned, s.conditions, s.observedGeneration, p, encode);
        Overwrite(rest, "status", StatusJson(owned, s.conditions, s.observedGeneration, encode), after);
      case None =>
        MergedStatus(map[], [], None, p, encode);
        assert StatusJson(map[], [], None, encode).fields == map[];
        MergeIntoNothing(Obj(Sent(p, encode)));
        Overwrite(rest, "status", Null, after);
    }
  }

  lemma MergeIntoNothing(patch: Json)
    ensures Merge(Null, patch) == Merge(Obj(map[]), patch)
  {}

  lemma Overwrite(base: map<string, Json>, name: string, x: Json, y: Json)
    requires !y.Null?
    ensures WithMember(WithMember(base, name, x), name, y) == WithMember(base, name, y)
  {
    assert WithMember(WithMember(base, name, x), name, y).Keys == WithMember(base, name, y).Keys;
  }
}
