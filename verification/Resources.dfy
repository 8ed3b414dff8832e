/** Namespace-scoped resources, how they are cloned, and the API server that holds them. */
module Resources {
  import opened Meta
  import opened ServerSideApply

  /** What a client sends: labels, annotations, and the leaves of everything else but
      metadata and status. */
  datatype Manifest = Manifest(labels: Labels, annotations: Labels, body: map<string, string>)

  /** What the API server stores. */
  datatype Resource = Resource(labels: Fields<MetaKey>, annotations: Fields<MetaKey>, body: Fields<string>,
                               status: map<string, string>)

  function ModeOf(res: Resource): string { Value(Values(res.annotations), Propagate) }

  function FromOf(res: Resource): Name { Value(Values(res.annotations), From) }

  /** Fields as a plain write leaves them: owned, but not by the apply manager. */
  function Own<K>(m: map<K, string>): Fields<K> {
    map k | k in m :: Field(m[k], {Other})
  }

  function Created(m: Manifest): Resource {
    Resource(Own(m.labels), Own(m.annotations), Own(m.body), map[])
  }

  function Applied(res: Resource, m: Manifest): Resource {
    Resource(Apply(res.labels, m.labels), Apply(res.annotations, m.annotations), Apply(res.body, m.body), res.status)
  }

  /** DeepDerivative(m, res): whatever m sets is set in res. */
  predicate Covers(m: Manifest, res: Resource) {
    Covered(m.labels, res.labels) && Covered(m.annotations, res.annotations) && Covered(m.body, res.body)
  }

  lemma WrittenIsCovered(m: Manifest, res: Resource)
    ensures Covers(m, Created(m)) && Covers(m, Applied(res, m))
  {
  }

  /** The configuration of cloning.  The lists of glob patterns are predicates on keys. */
  datatype Cloner = Cloner(labelExcluded: MetaKey -> bool, annotationExcluded: MetaKey -> bool, serviceAccount: bool)

  const SECRETS := "secrets"

  function Kept(fields: Fields<MetaKey>, excluded: MetaKey -> bool): Labels {
    map k | k in fields && !excluded(k) :: fields[k].value
  }

  function KeptBody(cl: Cloner, body: Fields<string>): map<string, string> {
    map k | k in body && !(cl.serviceAccount && k == SECRETS) :: body[k].value
  }

  /** The clone of a resource that lives in namespace `home`. */
  function CloneOf(cl: Cloner, res: Resource, home: Name): Manifest {
    Manifest(Kept(res.labels, cl.labelExcluded)[CreatedBy := CREATED_BY],
             Kept(res.annotations, cl.annotationExcluded)[From := home],
             KeptBody(cl, res.body))
  }

  method CopyKept(fields: Fields<MetaKey>, excluded: MetaKey -> bool) returns (kept: Labels)
    ensures kept == Kept(fields, excluded)
  {
    kept := map[];
    var rest := fields.Keys;
    while rest != {}
      invariant rest <= fields.Keys
      invariant kept == map k | k in fields.Keys - rest && !excluded(k) :: fields[k].value
    {
      var k :| k in rest;
      rest := rest - {k};
      if !excluded(k) {
        kept := kept[k := fields[k].value];
      }
    }
  }

  method CloneResource(cl: Cloner, res: Resource, home: Name) returns (c: Manifest)
    ensures c == CloneOf(cl, res, home)
  {
    var labels := CopyKept(res.labels, cl.labelExcluded);
    labels := labels[CreatedBy := CREATED_BY];
    var annotations := CopyKept(res.annotations, cl.annotationExcluded);
    annotations := annotations[From := home];
    var body := Values(res.body);
    if cl.serviceAccount {
      body := body - {SECRETS};
    }
    assert body == KeptBody(cl, res.body);
    c := Manifest(labels, annotations, body);
  }

  /** A clone key by key: labels and annotations that are not excluded, the marks of where it
      comes from, and all contents but the secrets of a service account. */
  lemma CloneHas(cl: Cloner, res: Resource, home: Name, k: MetaKey, b: string)
    ensures var c := CloneOf(cl, res, home);
            && (k in c.labels <==> k == CreatedBy || (k in res.labels && !cl.labelExcluded(k)))
            && (k in c.labels ==> c.labels[k] == if k == CreatedBy then "accurate" else res.labels[k].value)
            && (k in c.annotations <==> k == From || (k in res.annotations && !cl.annotationExcluded(k)))
            && (k in c.annotations ==> c.annotations[k] == if k == From then home else res.annotations[k].value)
            && (b in c.body <==> b in res.body && !(cl.serviceAccount && b == "secrets"))
            && (b in c.body ==> c.body[b] == res.body[b].value)
  {
  }

  /** A resource that has just been created from a manifest has what that says, and nothing of
      it belongs to the apply manager; so a key that later applies leave out stays. */
  lemma CreatedHas(m: Manifest, later: Manifest, k: MetaKey, b: string)
    ensures var r := Created(m);
            && (k in r.labels <==> k in m.labels) && (k in m.labels ==> r.labels[k].value == m.labels[k])
            && (k in r.annotations <==> k in m.annotations)
            && (k in m.annotations ==> r.annotations[k].value == m.annotations[k])
            && (b in r.body <==> b in m.body) && (b in m.body ==> r.body[b].value == m.body[b])
            && r.status == map[]
    ensures var r := Applied(Created(m), later);
            && (k in m.labels && k !in later.labels ==> ValueAt(r.labels, k) == Some(m.labels[k]))
            && (k in m.annotations && k !in later.annotations ==> ValueAt(r.annotations, k) == Some(m.annotations[k]))
            && (b in m.body && b !in later.body ==> ValueAt(r.body, b) == Some(m.body[b]))
  {
    assert Other in {Other} && {Other} != {Accurate};
  }

  /** An applied resource has what the manifest says, and else what others own; its status is
      left alone. */
  lemma AppliedHas(res: Resource, m: Manifest, k: MetaKey, b: string)
    ensures var r := Applied(res, m);
            && ValueAt(r.labels, k) == (if k in m.labels then Some(m.labels[k]) else UserValue(res.labels, k))
            && ValueAt(r.annotations, k) ==
               (if k in m.annotations then Some(m.annotations[k]) else UserValue(res.annotations, k))
            && ValueAt(r.body, b) == (if b in m.body then Some(m.body[b]) else UserValue(res.body, b))
            && r.status == res.status
  {
  }

  /** Cloning down a path of namespaces, creating a copy in each.  `res` lives in path[0]. */
  function CloneAlong(cl: Cloner, res: Resource, path: seq<Name>): Resource
    requires |path| >= 1
    decreases |path|
  {
    if |path| == 1 then res
    else CloneAlong(cl, Created(CloneOf(cl, res, path[0])), path[1..])
  }

  /** Filtering what has been filtered changes nothing, except for the key that is set. */
  lemma KeptAgain(fields: Fields<MetaKey>, excluded: MetaKey -> bool, key: MetaKey, v: string, v': string)
    ensures Kept(Own(Kept(fields, excluded)[key := v]), excluded)[key := v'] == Kept(fields, excluded)[key := v']
  {
  }

  /** A clone of a clone is a clone of the origin, up to the annotation that says where it
      comes from, whatever the exclude lists are. */
  lemma CloneOfClone(cl: Cloner, res: Resource, home: Name, next: Name)
    ensures CloneOf(cl, Created(CloneOf(cl, res, home)), next) == CloneOf(cl, res, next)
  {
    KeptAgain(res.labels, cl.labelExcluded, CreatedBy, CREATED_BY, CREATED_BY);
    KeptAgain(res.annotations, cl.annotationExcluded, From, home, next);
    assert KeptBody(cl, Own(KeptBody(cl, res.body))) == KeptBody(cl, res.body);
  }

  /** Cloning along a path is cloning once, from the next-to-last namespace. */
  lemma {:induction false} CloneAlongIsCloneOnce(cl: Cloner, res: Resource, path: seq<Name>)
    requires |path| >= 2
    ensures CloneAlong(cl, res, path) == Created(CloneOf(cl, res, path[|path| - 2]))
    decreases |path|
  {
    if |path| > 2 {
      CloneAlongIsCloneOnce(cl, Created(CloneOf(cl, res, path[0])), path[1..]);
      CloneOfClone(cl, res, path[0], path[|path| - 2]);
    }
  }

  /** The copies of one resource, by namespace. */
  type Copies = map<Name, Resource>

  /** Kind and name of a resource. */
  datatype Ref = Ref(kind: string, name: Name)

  /** All resources of the cluster. */
  type Stored = map<Ref, Copies>

  function CopiesOf(all: Stored, ref: Ref): Copies {
    if ref in all then all[ref] else map[]
  }
}
