/** Conversion of SubNamespace objects between API versions v1 and v2
    (api/accurate/v1/conversion.go). */
module Conversion {
  import opened Meta
  import opened Cluster
  import opened Decimal

  datatype Condition = Condition(typ: string, status: string, reason: string, message: string, changedAt: int)

  const STALLED := "Stalled"
  const TRUE := "True"
  const STATUS_OK := "ok"
  const STATUS_CONFLICT := "conflict"

  /** The JSON codec for lists of conditions. */
  datatype Codec = Codec(marshal: seq<Condition> -> string, unmarshal: string -> Option<seq<Condition>>)

  ghost predicate Invertible(codec: Codec) {
    forall cs :: codec.unmarshal(codec.marshal(cs)) == Some(cs)
  }

  /** Object metadata other than annotations. */
  datatype ObjectMeta =
    ObjectMeta(namespace: Name, name: Name, generation: Int64, labels: Labels, finalizers: seq<string>)

  /** The contents of objects.  A map that is nil is None. */
  datatype V1Object = V1Object(meta: ObjectMeta, annotations: Option<Labels>, spec: Spec, status: string)

  datatype V2Object = V2Object(meta: ObjectMeta, annotations: Option<Labels>, spec: Spec, observedGeneration: Int64,
                               conditions: seq<Condition>)

  /** Nil and empty maps are the same. */
  function Contents(annotations: Option<Labels>): Labels {
    match annotations
    case None => map[]
    case Some(m) => m
  }

  predicate SameV1(a: V1Object, b: V1Object) {
    a.(annotations := None) == b.(annotations := None) && Contents(a.annotations) == Contents(b.annotations)
  }

  predicate SameV2(a: V2Object, b: V2Object) {
    a.(annotations := None) == b.(annotations := None) && Contents(a.annotations) == Contents(b.annotations)
  }

  predicate NoInternal(annotations: Option<Labels>) {
    ObservedGeneration !in Contents(annotations) && Conditions !in Contents(annotations)
  }

  /** Whether the first condition of this type is true. */
  predicate IsConditionTrue(cs: seq<Condition>, typ: string) {
    cs != [] && if cs[0].typ == typ then cs[0].status == TRUE else IsConditionTrue(cs[1..], typ)
  }

  function StatusOf(v: V2Object): string {
    if IsConditionTrue(v.conditions, STALLED) then STATUS_CONFLICT
    else if v.observedGeneration == 0 then ""
    else if v.observedGeneration == v.meta.generation && v.conditions == [] then STATUS_OK
    else ""
  }

  /** The annotations with the status stashed in them. */
  function Stashed(codec: Codec, annotations: Labels, observedGeneration: int, conditions: seq<Condition>): Labels {
    var a := if observedGeneration != 0 then annotations[ObservedGeneration := FormatInt(observedGeneration)]
             else annotations;
    if conditions != [] then a[Conditions := codec.marshal(conditions)] else a
  }

  function ToV1(codec: Codec, v: V2Object): V1Object {
    var a := Stashed(codec, Contents(v.annotations), v.observedGeneration, v.conditions);
    V1Object(v.meta, if a == map[] then None else Some(a), v.spec, StatusOf(v))
  }

  /** None is the error for an annotation that cannot be read. */
  function ToV2(codec: Codec, v: V1Object): Option<V2Object> {
    var a := Contents(v.annotations);
    var gen := if ObservedGeneration in a then ParseInt(a[ObservedGeneration]) else Some(0);
    var cs := if Conditions in a then codec.unmarshal(a[Conditions]) else Some([]);
    if gen.None? || cs.None? then None
    else
      var rest := if v.annotations.None? then None else Some(a - {ObservedGeneration, Conditions});
      Some(V2Object(v.meta, rest, v.spec, gen.value, cs.value))
  }

  /** The condition that the API takes for the one of a type is the first of it. */
  lemma {:induction false} FirstConditionDecides(cs: seq<Condition>, typ: string)
    ensures IsConditionTrue(cs, typ) <==>
            exists i | 0 <= i < |cs| :: cs[i].typ == typ && cs[i].status == TRUE && IsFirst(cs, typ, i)
  {
    if cs != [] {
      var rest := cs[1..];
      FirstConditionDecides(rest, typ);
      if cs[0].typ == typ {
        assert IsFirst(cs, typ, 0);
      } else {
        forall i | 0 <= i < |rest| ensures IsFirst(rest, typ, i) <==> IsFirst(cs, typ, i + 1) {
          if IsFirst(cs, typ, i + 1) { assert forall j | 0 <= j < i :: rest[j] == cs[j + 1]; }
        }
        if i :| 0 <= i < |rest| && rest[i].typ == typ && rest[i].status == TRUE && IsFirst(rest, typ, i) {
          assert cs[i + 1] == rest[i];
        }
        if i :| 0 <= i < |cs| && cs[i].typ == typ && cs[i].status == TRUE && IsFirst(cs, typ, i) {
          assert cs[i] == rest[i - 1];
        }
      }
    }
  }

  ghost predicate IsFirst(cs: seq<Condition>, typ: string, i: int)
    requires 0 <= i <= |cs|
  {
    forall j | 0 <= j < i :: cs[j].typ != typ
  }

  /** The status that v1 shows: a conflict if the first Stalled condition is true; ok if there
      are no conditions and the present generation has been observed; and else none. */
  lemma StatusMeans(codec: Codec, v: V2Object)
    ensures var status := ToV1(codec, v).status;
            && (status == "conflict" <==>
                  exists i | 0 <= i < |v.conditions| ::
                    v.conditions[i].typ == "Stalled" && v.conditions[i].status == "True"
                    && IsFirst(v.conditions, "Stalled", i))
            && (status == "ok" <==>
                  v.conditions == [] && v.observedGeneration != 0 && v.observedGeneration == v.meta.generation)
            && status in {"conflict", "ok", ""}
  {
    FirstConditionDecides(v.conditions, "Stalled");
  }

  /** What else v1 has: metadata and spec are the same, the rest is in two annotations. */
  lemma ToV1Keeps(codec: Codec, v: V2Object, k: MetaKey)
    requires NoInternal(v.annotations)
    ensures var r := ToV1(codec, v);
            var a, a' := Contents(v.annotations), Contents(r.annotations);
            && r.meta == v.meta && r.spec == v.spec
            && (k != ObservedGeneration && k != Conditions ==> SameAt(a, a', k))
            && (ObservedGeneration in a' <==> v.observedGeneration != 0)
            && (ObservedGeneration in a' ==> a'[ObservedGeneration] == FormatInt(v.observedGeneration))
            && (Conditions in a' <==> v.conditions != [])
            && (Conditions in a' ==> a'[Conditions] == codec.marshal(v.conditions))
            && r.annotations != Some(map[])
  {
  }

  /** What v2 has, if the two annotations can be read: they are gone, and the status is theirs. */
  lemma ToV2Keeps(codec: Codec, v: V1Object, k: MetaKey)
    ensures var a := Contents(v.annotations);
            && (ToV2(codec, v).None? <==>
                  (ObservedGeneration in a && ParseInt(a[ObservedGeneration]).None?)
                  || (Conditions in a && codec.unmarshal(a[Conditions]).None?))
            && (ToV2(codec, v).Some? ==>
                  var r := ToV2(codec, v).value;
                  && r.meta == v.meta && r.spec == v.spec
                  && ObservedGeneration !in Contents(r.annotations) && Conditions !in Contents(r.annotations)
                  && (k != ObservedGeneration && k != Conditions ==> SameAt(a, Contents(r.annotations), k))
                  && (if ObservedGeneration in a then Some(r.observedGeneration) == ParseInt(a[ObservedGeneration])
                      else r.observedGeneration == 0)
                  && (if Conditions in a then Some(r.conditions) == codec.unmarshal(a[Conditions])
                      else r.conditions == []))
  {
  }

  /** What is stashed can be taken out again. */
  lemma StashedIsThere(codec: Codec, a: Labels, observedGeneration: int, conditions: seq<Condition>)
    requires ObservedGeneration !in a && Conditions !in a
    ensures var s := Stashed(codec, a, observedGeneration, conditions);
            && s - {ObservedGeneration, Conditions} == a
            && (ObservedGeneration in s <==> observedGeneration != 0)
            && (ObservedGeneration in s ==> s[ObservedGeneration] == FormatInt(observedGeneration))
            && (Conditions in s <==> conditions != [])
            && (Conditions in s ==> s[Conditions] == codec.marshal(conditions))
  {
  }

  /** Nothing of a v2 object is lost on the way through v1. */
  lemma V2RoundTrip(codec: Codec, v: V2Object)
    requires Invertible(codec) && NoInternal(v.annotations)
    ensures ToV2(codec, ToV1(codec, v)).Some? && SameV2(ToV2(codec, ToV1(codec, v)).value, v)
  {
    ParseFormatInt(v.observedGeneration);
    StashedIsThere(codec, Contents(v.annotations), v.observedGeneration, v.conditions);
    assert Contents(ToV1(codec, v).annotations) ==
           Stashed(codec, Contents(v.annotations), v.observedGeneration, v.conditions);
  }

  /** A v1 object without stashed status survives the way through v2 exactly if its status is
      not set: v2 has nowhere to keep it. */
  lemma V1RoundTrip(codec: Codec, v: V1Object)
    requires NoInternal(v.annotations)
    ensures ToV2(codec, v).Some? && (SameV1(ToV1(codec, ToV2(codec, v).value), v) <==> v.status == "")
  {
    var a := Contents(v.annotations);
    assert a - {ObservedGeneration, Conditions} == a;
  }

  /** A v1 object that was converted from v2 survives in any case. */
  lemma ConvertedV1RoundTrip(codec: Codec, v: V2Object)
    requires Invertible(codec) && NoInternal(v.annotations)
    ensures ToV2(codec, ToV1(codec, v)).Some? &&
            SameV1(ToV1(codec, ToV2(codec, ToV1(codec, v)).value), ToV1(codec, v))
  {
    V2RoundTrip(codec, v);
  }

  /** A Go map: a reference to contents that change. */
  class StringMap {
    var m: Labels

    constructor (m: Labels)
      ensures this.m == m
    {
      this.m := m;
    }
  }

  class V1 {
    var meta: ObjectMeta
    var annotations: StringMap?
    var spec: Spec
    var status: string

    constructor ()
      ensures annotations == null && status == ""
    {
      meta := ObjectMeta("", "", 0, map[], []);
      annotations := null;
      spec := Spec(map[], map[]);
      status := "";
    }

    ghost function Object(): V1Object
      reads this, annotations
    {
      V1Object(meta, if annotations == null then None else Some(annotations.m), spec, status)
    }
  }

  class V2 {
    var meta: ObjectMeta
    var annotations: StringMap?
    var spec: Spec
    var observedGeneration: Int64
    var conditions: seq<Condition>

    constructor ()
      ensures annotations == null && observedGeneration == 0 && conditions == []
    {
      meta := ObjectMeta("", "", 0, map[], []);
      annotations := null;
      spec := Spec(map[], map[]);
      observedGeneration := 0;
      conditions := [];
    }

    ghost function Object(): V2Object
      reads this, annotations
    {
      V2Object(meta, if annotations == null then None else Some(annotations.m), spec, observedGeneration, conditions)
    }
  }

  /** Converts `from` into the fresh object `out`.  The annotation map is shared, so stashing
      changes the annotations of `from` too. */
  method ConvertV2ToV1(codec: Codec, from: V2, out: V1)
    requires out.status == ""
    modifies out, from.annotations
    ensures out.Object() == ToV1(codec, old(from.Object()))
    ensures out.annotations == null || fresh(out.annotations) || out.annotations == from.annotations
    ensures from.annotations != null ==>
              from.annotations.m == Stashed(codec, old(from.annotations.m), from.observedGeneration, from.conditions)
    ensures from.annotations != null && from.annotations.m != map[] ==> out.annotations == from.annotations
    ensures from.annotations != null && from.annotations.m == map[] ==> out.annotations == null
  {
    out.meta := from.meta;
    out.annotations := from.annotations;
    out.spec := from.spec;
    if IsConditionTrue(from.conditions, STALLED) {
      out.status := STATUS_CONFLICT;
    } else if from.observedGeneration == 0 {
      // Never been reconciled.
    } else if from.observedGeneration == from.meta.generation && from.conditions == [] {
      out.status := STATUS_OK;
    }
    if out.annotations == null {
      out.annotations := new StringMap(map[]);
    }
    if from.observedGeneration != 0 {
      out.annotations.m := out.annotations.m[ObservedGeneration := FormatInt(from.observedGeneration)];
    }
    if from.conditions != [] {
      out.annotations.m := out.annotations.m[Conditions := codec.marshal(from.conditions)];
    }
    if out.annotations.m == map[] {
      out.annotations := null;
    }
  }

  /** Converts `from` into the fresh object `out`; what was stashed is taken out of the shared
      annotation map. */
  method ConvertV1ToV2(codec: Codec, from: V1, out: V2) returns (ok: bool)
    requires out.observedGeneration == 0 && out.conditions == []
    modifies out, from.annotations
    ensures ok <==> ToV2(codec, old(from.Object())).Some?
    ensures ok ==> Some(out.Object()) == ToV2(codec, old(from.Object())) && out.annotations == from.annotations
  {
    out.meta := from.meta;
    out.annotations := from.annotations;
    out.spec := from.spec;
    if out.annotations != null && ObservedGeneration in out.annotations.m {
      var gen := ParseInt(out.annotations.m[ObservedGeneration]);
      if gen.None? {
        return false;
      }
      out.observedGeneration := gen.value;
      out.annotations.m := out.annotations.m - {ObservedGeneration};
    }
    if out.annotations != null && Conditions in out.annotations.m {
      var cs := codec.unmarshal(out.annotations.m[Conditions]);
      if cs.None? {
        return false;
      }
      out.conditions := cs.value;
      out.annotations.m := out.annotations.m - {Conditions};
    }
    ok := true;
    assert out.annotations != null ==>
           out.annotations.m ==
           old(if from.annotations == null then map[] else from.annotations.m) - {ObservedGeneration, Conditions};
  }

  /** Converting to v1 and back gives the same object, and leaves the source, whose annotation
      map was written to on the way, with its original contents. */
  method ThereAndBack(codec: Codec, from: V2) returns (back: V2)
    requires Invertible(codec) && NoInternal(from.Object().annotations)
    modifies from.annotations
    ensures SameV2(back.Object(), old(from.Object()))
    ensures from.Object() == old(from.Object())
  {
    V2RoundTrip(codec, from.Object());
    ghost var before := from.Object();
    var v1 := new V1();
    ConvertV2ToV1(codec, from, v1);
    back := new V2();
    var ok := ConvertV1ToV2(codec, v1, back);
    assert Stashed(codec, Contents(before.annotations), before.observedGeneration, before.conditions)
           - {ObservedGeneration, Conditions} == Contents(before.annotations);
  }
}
