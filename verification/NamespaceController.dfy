/** The controller that reconciles one namespace: its labels and annotations, those of the
    namespaces below it, and its resources (controllers/namespace_controller.go). */
module NamespaceController {
  import opened Meta
  import opened ServerSideApply
  import opened Resources
  import opened Cluster
  import opened PropagateController

  /** The configured lists of key patterns, as predicates. */
  datatype Config = Config(labelKey: MetaKey -> bool, annotationKey: MetaKey -> bool,
                           subLabelKey: MetaKey -> bool, subAnnotationKey: MetaKey -> bool)

  function Matching(m: Labels, key: MetaKey -> bool): Labels {
    map k | k in m && key(k) :: m[k]
  }

  /** The labels that are applied to a namespace on behalf of `parent`. */
  function WantedLabels(cfg: Config, isSub: bool, spec: Option<Spec>, parent: Name, labels: Labels): Labels {
    var inherited := Matching(labels, cfg.labelKey);
    if !isSub then inherited
    else
      var own := if spec.Some? then Matching(spec.value.labels, cfg.subLabelKey) else map[];
      (inherited + own)[CreatedBy := CREATED_BY][Parent := parent]
  }

  function WantedAnnotations(cfg: Config, isSub: bool, spec: Option<Spec>, annotations: Labels): Labels {
    var inherited := Matching(annotations, cfg.annotationKey);
    if isSub && spec.Some? then inherited + Matching(spec.value.annotations, cfg.subAnnotationKey) else inherited
  }

  function SpecOf(subs: SubNamespaces, parent: Name, name: Name): Option<Spec> {
    if SubName(parent, name) in subs then Some(subs[SubName(parent, name)].spec) else None
  }

  /** Namespace c after the metadata of `parent`, as given by `from`, has been propagated to it. */
  function Inherit(cfg: Config, subs: SubNamespaces, c: Name, ns: Namespace, parent: Name, from: Namespace): Namespace {
    var isSub := Parent in ns.labels;
    var spec := SpecOf(subs, parent, c);
    AppliedTo(ns, WantedLabels(cfg, isSub, spec, parent, Values(from.labels)),
              WantedAnnotations(cfg, isSub, spec, Values(from.annotations)))
  }

  function InheritAll(cfg: Config, subs: SubNamespaces, all: Namespaces, cs: set<Name>, parent: Name,
                      from: Namespace): Namespaces {
    map c | c in all :: if c in cs then Inherit(cfg, subs, c, all[c], parent, from) else all[c]
  }

  /** The namespace that a namespace is reconciled with. */
  function ReconcileSource(labels: Labels): Option<Name> {
    if Parent in labels then Some(labels[Parent])
    else if Template in labels then Some(labels[Template])
    else None
  }

  /** The namespaces that a namespace pushes its metadata to. */
  function PushTargets(store: Store, n: Name, labels: Labels): set<Name> {
    if Parent in labels then SubsOf(store, n)
    else if TypeOf(labels) == NS_TYPE_TEMPLATE then InstancesOf(store, n)
    else if TypeOf(labels) == NS_TYPE_ROOT then SubsOf(store, n)
    else {}
  }

  /** All namespaces after namespace n has pulled the metadata of its source. */
  function Pulled(cfg: Config, subs: SubNamespaces, all: Namespaces, n: Name): Namespaces
    requires n in all
  {
    match ReconcileSource(Values(all[n].labels))
    case None => all
    case Some(p) => if p in all then all[n := Inherit(cfg, subs, n, all[n], p, all[p])] else all
  }

  /** All namespaces after a reconciliation of n.  What it pushes is the metadata it had
      before it pulled. */
  function MetaReconciled(cfg: Config, subs: SubNamespaces, all: Namespaces, n: Name): Namespaces
    requires n in all
  {
    var labels := Values(all[n].labels);
    var pulled := Pulled(cfg, subs, all, n);
    if ReconcileSource(labels).Some? && ReconcileSource(labels).value !in all then all
    else InheritAll(cfg, subs, pulled, PushTargets(LabelsOf(pulled), n, labels), n, all[n])
  }

  /** The resource of one name, if there is one. */
  function At(all: Stored, kind: string, n: Name, name: Name): Option<Resource> {
    Lookup(CopiesOf(all, Ref(kind, name)), n)
  }

  predicate HasMode(res: Option<Resource>, mode: string) {
    res.Some? && ModeOf(res.value) == mode
  }

  function CreateMissing(cl: Cloner, parent: Name, p: Option<Resource>, n: Option<Resource>): Option<Resource> {
    if HasMode(p, PROPAGATE_CREATE) && n.None? then Some(Created(CloneOf(cl, p.value, parent))) else n
  }

  function SyncPresent(cl: Cloner, parent: Name, p: Option<Resource>, n: Option<Resource>): Option<Resource> {
    if HasMode(p, PROPAGATE_UPDATE) then Some(Sync(CloneOf(cl, p.value, parent), n)) else n
  }

  predicate IsStale(parent: Name, p: Option<Resource>, n: Option<Resource>) {
    HasMode(n, PROPAGATE_UPDATE) && FromOf(n.value) != "" &&
    !(FromOf(n.value) == parent && HasMode(p, PROPAGATE_UPDATE))
  }

  function DropStale(parent: Name, p: Option<Resource>, n: Option<Resource>): Option<Resource> {
    if IsStale(parent, p, n) then None else n
  }

  /** What one pass of propagateResource makes of the resource n, given the resource p of the
      same name in the parent. */
  function PassAt(cl: Cloner, parent: Name, p: Option<Resource>, n: Option<Resource>): Option<Resource> {
    DropStale(parent, p, SyncPresent(cl, parent, p, CreateMissing(cl, parent, p, n)))
  }

  /** What deleteResource makes of a resource: copies in update mode go. */
  function Dropped(n: Option<Resource>): Option<Resource> {
    if HasMode(n, PROPAGATE_UPDATE) && FromOf(n.value) != "" then None else n
  }

  /** List, restricted to one namespace, by the index of the propagate annotation. */
  function ListNames(all: Stored, kind: string, n: Name, mode: string): (names: set<Name>)
    ensures forall x :: x in names <==> HasMode(At(all, kind, n, x), mode)
  {
    set ref | ref in all && ref.kind == kind && n in all[ref] && ModeOf(all[ref][n]) == mode :: ref.name
  }

  /** Nothing but this resource differs. */
  ghost predicate OnlyAt(kind: string, n: Name, x: Name, before: Stored, after: Stored) {
    forall k, m, y | !(k == kind && m == n && y == x) :: At(after, k, m, y) == At(before, k, m, y)
  }

  /** Nothing but resources of this kind in this namespace differs. */
  ghost predicate OnlyIn(kind: string, n: Name, before: Stored, after: Stored) {
    forall k, m, y | !(k == kind && m == n) :: At(after, k, m, y) == At(before, k, m, y)
  }

  class Reconciler {
    const api: ApiServer
    const cfg: Config
    const cloner: Cloner
    const watched: seq<string>

    constructor (api: ApiServer, cfg: Config, cloner: Cloner, watched: seq<string>)
      ensures this.api == api && this.cfg == cfg && this.cloner == cloner && this.watched == watched
    {
      this.api, this.cfg, this.cloner, this.watched := api, cfg, cloner, watched;
    }

    /** propagateCreate for one resource. */
    method CreateOne(kind: string, parent: Name, n: Name, x: Name)
      requires n in api.namespaces && parent != n
      requires HasMode(At(api.resources, kind, parent, x), PROPAGATE_CREATE)
      modifies api`resources, api`writes
      ensures OnlyAt(kind, n, x, old(api.resources), api.resources)
      ensures At(api.resources, kind, n, x) ==
              CreateMissing(cloner, parent, At(old(api.resources), kind, parent, x), At(old(api.resources), kind, n, x))
    {
      if At(api.resources, kind, n, x).None? {
        var clone := CloneResource(cloner, At(api.resources, kind, parent, x).value, parent);
        var _ := api.Create(Ref(kind, x), n, clone);
      }
    }

    /** propagateUpdate for one resource. */
    method SyncOne(kind: string, parent: Name, n: Name, x: Name)
      requires n in api.namespaces && parent != n
      requires HasMode(At(api.resources, kind, parent, x), PROPAGATE_UPDATE)
      modifies api`resources, api`writes
      ensures OnlyAt(kind, n, x, old(api.resources), api.resources)
      ensures At(api.resources, kind, n, x) ==
              SyncPresent(cloner, parent, At(old(api.resources), kind, parent, x), At(old(api.resources), kind, n, x))
    {
      var clone := CloneResource(cloner, At(api.resources, kind, parent, x).value, parent);
      if At(api.resources, kind, n, x).None? {
        var _ := api.Create(Ref(kind, x), n, clone);
      } else if !Covers(clone, At(api.resources, kind, n, x).value) {
        api.Apply(Ref(kind, x), n, clone);
      }
    }

    /** The first loop of propagateResource. */
    method CreateFromParent(kind: string, parent: Name, n: Name)
      requires n in api.namespaces && parent != n
      modifies api`resources, api`writes
      ensures OnlyIn(kind, n, old(api.resources), api.resources)
      ensures forall x :: At(api.resources, kind, n, x) ==
                CreateMissing(cloner, parent, At(old(api.resources), kind, parent, x),
                              At(old(api.resources), kind, n, x))
    {
      ghost var before := api.resources;
      ghost var names := api.namespaces.Keys;
      var list := ListNames(api.resources, kind, parent, PROPAGATE_CREATE);
      var done: set<Name> := {};
      while done != list
        invariant done <= list
        invariant OnlyIn(kind, n, before, api.resources)
        invariant forall x :: At(api.resources, kind, n, x) ==
                    if x in done then CreateMissing(cloner, parent, At(before, kind, parent, x), At(before, kind, n, x))
                    else At(before, kind, n, x)
        decreases list - done
      {
        var x :| x in list && x !in done;
        ParentUntouched(kind, parent, n, before, api.resources);
        assert n in names;
        ghost var now := api.resources;
        CreateOne(kind, parent, n, x);
        StaysIn(kind, n, x, before, now, api.resources);
        done := done + {x};
      }
    }

    /** The second loop: update-mode resources.  Returns their names. */
    method SyncWithParent(kind: string, parent: Name, n: Name) returns (presNames: set<Name>)
      requires n in api.namespaces && parent != n
      modifies api`resources, api`writes
      ensures OnlyIn(kind, n, old(api.resources), api.resources)
      ensures forall x :: At(api.resources, kind, n, x) ==
                SyncPresent(cloner, parent, At(old(api.resources), kind, parent, x), At(old(api.resources), kind, n, x))
      ensures forall x :: x in presNames <==> HasMode(At(old(api.resources), kind, parent, x), PROPAGATE_UPDATE)
    {
      ghost var before := api.resources;
      ghost var names := api.namespaces.Keys;
      var list := ListNames(api.resources, kind, parent, PROPAGATE_UPDATE);
      presNames := {};
      while presNames != list
        invariant presNames <= list
        invariant OnlyIn(kind, n, before, api.resources)
        invariant forall x :: At(api.resources, kind, n, x) ==
                    if x in presNames then
                      SyncPresent(cloner, parent, At(before, kind, parent, x), At(before, kind, n, x))
                    else At(before, kind, n, x)
        decreases list - presNames
      {
        var x :| x in list && x !in presNames;
        ParentUntouched(kind, parent, n, before, api.resources);
        assert n in names;
        ghost var now := api.resources;
        presNames := presNames + {x};
        SyncOne(kind, parent, n, x);
        StaysIn(kind, n, x, before, now, api.resources);
      }
    }

    method Remove(kind: string, n: Name, x: Name)
      requires At(api.resources, kind, n, x).Some?
      modifies api`resources, api`writes
      ensures OnlyAt(kind, n, x, old(api.resources), api.resources)
      ensures At(api.resources, kind, n, x) == None
    {
      api.Delete(Ref(kind, x), n);
    }

    /** The third loop: copies that have no update-mode source (any more). */
    method DeleteStale(kind: string, parent: Name, n: Name, presNames: set<Name>)
      requires parent != n
      requires forall x :: x in presNames <==> HasMode(At(api.resources, kind, parent, x), PROPAGATE_UPDATE)
      modifies api`resources, api`writes
      ensures OnlyIn(kind, n, old(api.resources), api.resources)
      ensures forall x :: At(api.resources, kind, n, x) ==
                DropStale(parent, At(old(api.resources), kind, parent, x), At(old(api.resources), kind, n, x))
    {
      ghost var before := api.resources;
      var list := ListNames(api.resources, kind, n, PROPAGATE_UPDATE);
      var done: set<Name> := {};
      while done != list
        invariant done <= list
        invariant OnlyIn(kind, n, before, api.resources)
        invariant forall x :: At(api.resources, kind, n, x) ==
                    if x in done then DropStale(parent, At(before, kind, parent, x), At(before, kind, n, x))
                    else At(before, kind, n, x)
        decreases list - done
      {
        var x :| x in list && x !in done;
        assert At(api.resources, kind, n, x) == At(before, kind, n, x);
        ghost var now := api.resources;
        var from := FromOf(At(api.resources, kind, n, x).value);
        if from != "" && !(from == parent && x in presNames) {
          Remove(kind, n, x);
          StaysIn(kind, n, x, before, now, api.resources);
        }
        done := done + {x};
      }
    }

    /** A change at one key is a change in its namespace. */
    lemma StaysIn(kind: string, n: Name, x: Name, before: Stored, now: Stored,
                  after: Stored)
      requires OnlyIn(kind, n, before, now) && OnlyAt(kind, n, x, now, after)
      ensures OnlyIn(kind, n, before, after)
      ensures forall y | y != x :: At(after, kind, n, y) == At(now, kind, n, y)
    {
    }

    /** One pass over the resources of one kind. */
    method PropagateResource(kind: string, parent: Name, n: Name)
      requires n in api.namespaces && parent != n
      modifies api`resources, api`writes
      ensures OnlyIn(kind, n, old(api.resources), api.resources)
      ensures forall x :: At(api.resources, kind, n, x) ==
                PassAt(cloner, parent, At(old(api.resources), kind, parent, x), At(old(api.resources), kind, n, x))
    {
      ghost var before := api.resources;
      ghost var names := api.namespaces.Keys;
      CreateFromParent(kind, parent, n);
      ghost var created := api.resources;
      ParentUntouched(kind, parent, n, before, created);
      assert n in names;
      var presNames := SyncWithParent(kind, parent, n);
      ghost var synced := api.resources;
      ParentUntouched(kind, parent, n, created, synced);
      DeleteStale(kind, parent, n, presNames);
    }

    lemma ParentUntouched(kind: string, parent: Name, n: Name, before: Stored, after: Stored)
      requires OnlyIn(kind, n, before, after) && parent != n
      ensures forall x :: At(after, kind, parent, x) == At(before, kind, parent, x)
    {
    }

    /** Deletes the update-mode copies of one kind, but no origins. */
    method DeleteResource(kind: string, n: Name)
      modifies api`resources, api`writes
      ensures OnlyIn(kind, n, old(api.resources), api.resources)
      ensures forall x :: At(api.resources, kind, n, x) == Dropped(At(old(api.resources), kind, n, x))
    {
      ghost var before := api.resources;
      var list := ListNames(api.resources, kind, n, PROPAGATE_UPDATE);
      var done: set<Name> := {};
      while done != list
        invariant done <= list
        invariant OnlyIn(kind, n, before, api.resources)
        invariant forall x :: At(api.resources, kind, n, x) ==
                    if x in done then Dropped(At(before, kind, n, x)) else At(before, kind, n, x)
        decreases list - done
      {
        var x :| x in list && x !in done;
        assert At(api.resources, kind, n, x) == At(before, kind, n, x);
        ghost var now := api.resources;
        if FromOf(At(api.resources, kind, n, x).value) != "" {
          Remove(kind, n, x);
          StaysIn(kind, n, x, before, now, api.resources);
        }
        done := done + {x};
      }
    }

    /** propagateResource for all watched kinds. */
    method PropagateResources(parent: Name, n: Name)
      requires n in api.namespaces && parent != n && NoDuplicates(watched)
      modifies api`resources, api`writes
      ensures forall kind, m, x :: At(api.resources, kind, m, x) ==
                if m == n && kind in watched
                then PassAt(cloner, parent, At(old(api.resources), kind, parent, x), At(old(api.resources), kind, n, x))
                else At(old(api.resources), kind, m, x)
    {
      ghost var before := api.resources;
      ghost var names := api.namespaces.Keys;
      for i := 0 to |watched|
        invariant forall kind, m, x :: At(api.resources, kind, m, x) ==
                    if m == n && kind in watched[..i]
                    then PassAt(cloner, parent, At(before, kind, parent, x), At(before, kind, n, x))
                    else At(before, kind, m, x)
      {
        ghost var now := api.resources;
        assert n in names;
        PropagateResource(watched[i], parent, n);
        OneKindMore(watched, i, n, now, api.resources);
      }
      assert watched[..|watched|] == watched;
    }

    lemma OneKindMore(watched: seq<string>, i: nat, n: Name, now: Stored, after: Stored)
      requires i < |watched| && NoDuplicates(watched) && OnlyIn(watched[i], n, now, after)
      ensures watched[i] !in watched[..i]
      ensures forall kind :: kind in watched[..i + 1] <==> kind in watched[..i] || kind == watched[i]
      ensures forall kind, m, x | !(kind == watched[i] && m == n) :: At(after, kind, m, x) == At(now, kind, m, x)
    {
      assert watched[..i + 1] == watched[..i] + [watched[i]];
    }

    /** deletePropagatedResources: deleteResource for all watched kinds. */
    method DeletePropagatedResources(n: Name)
      requires NoDuplicates(watched)
      modifies api`resources, api`writes
      ensures forall kind, m, x :: At(api.resources, kind, m, x) ==
                if m == n && kind in watched then Dropped(At(old(api.resources), kind, n, x))
                else At(old(api.resources), kind, m, x)
    {
      ghost var before := api.resources;
      for i := 0 to |watched|
        invariant forall kind, m, x :: At(api.resources, kind, m, x) ==
                    if m == n && kind in watched[..i] then Dropped(At(before, kind, n, x)) else At(before, kind, m, x)
      {
        ghost var now := api.resources;
        DeleteResource(watched[i], n);
        OneKindMore(watched, i, n, now, api.resources);
      }
      assert watched[..|watched|] == watched;
    }

    /** propagateMeta: what namespace c, as read just now, is to inherit from `parent`. */
    method PropagateMeta(c: Name, parent: Name, from: Namespace)
      requires c in api.namespaces
      modifies api`namespaces
      ensures api.namespaces ==
              old(api.namespaces)[c := Inherit(cfg, api.subNamespaces, c, old(api.namespaces)[c], parent, from)]
    {
      var labels := Matching(Values(from.labels), cfg.labelKey);
      var annotations := Matching(Values(from.annotations), cfg.annotationKey);
      if Parent in api.namespaces[c].labels {
        var spec := SpecOf(api.subNamespaces, parent, c);
        if spec.Some? {
          labels := labels + Matching(spec.value.labels, cfg.subLabelKey);
          annotations := annotations + Matching(spec.value.annotations, cfg.subAnnotationKey);
        }
        labels := labels[CreatedBy := CREATED_BY];
        labels := labels[Parent := parent];
        ghost var inherited := Matching(Values(from.labels), cfg.labelKey);
        assert spec.None? ==> inherited + map[] == inherited;
      }
      api.ApplyNamespace(c, labels, annotations);
    }

    /** The loops that push the metadata of `parent` to the namespaces below it. */
    method PushMeta(cs: set<Name>, parent: Name, from: Namespace)
      requires cs <= api.namespaces.Keys
      modifies api`namespaces
      ensures api.namespaces == InheritAll(cfg, api.subNamespaces, old(api.namespaces), cs, parent, from)
    {
      ghost var before := api.namespaces;
      var done: set<Name> := {};
      assert InheritAll(cfg, api.subNamespaces, before, done, parent, from) == before;
      while done != cs
        invariant done <= cs
        invariant api.namespaces == InheritAll(cfg, api.subNamespaces, before, done, parent, from)
        decreases cs - done
      {
        var c :| c in cs && c !in done;
        assert api.namespaces[c] == before[c];
        PropagateMeta(c, parent, from);
        done := done + {c};
      }
    }

    /** One reconciliation of namespace n. */
    method Reconcile(n: Name) returns (ok: bool)
      requires n in api.namespaces ==> ReconcileSource(Values(api.namespaces[n].labels)) != Some(n)
      requires NoDuplicates(watched)
      modifies api`namespaces, api`resources, api`writes
      ensures api.namespaces ==
              if n in old(api.namespaces) then MetaReconciled(cfg, api.subNamespaces, old(api.namespaces), n)
              else old(api.namespaces)
      ensures forall kind, m, x :: At(api.resources, kind, m, x) ==
                if m == n && kind in watched && n in old(api.namespaces)
                then ResourceReconciled(cloner, old(api.namespaces), old(api.resources), kind, n, x)
                else At(old(api.resources), kind, m, x)
      ensures !ok <==> n in old(api.namespaces) &&
                       var p := ReconcileSource(Values(old(api.namespaces)[n].labels));
                       p.Some? && p.value !in old(api.namespaces)
    {
      if n !in api.namespaces {
        return true;
      }
      var ns := api.namespaces[n];
      var labels := Values(ns.labels);
      if Parent in labels {
        var parent := labels[Parent];
        if parent !in api.namespaces {
          return false;
        }
        PropagateMeta(n, parent, api.namespaces[parent]);
        PushMeta(SubsOf(LabelsOf(api.namespaces), n), n, ns);
        PropagateResources(parent, n);
        return true;
      }
      if Template in labels {
        var tmpl := labels[Template];
        if tmpl !in api.namespaces {
          return false;
        }
        PropagateMeta(n, tmpl, api.namespaces[tmpl]);
        PropagateResources(tmpl, n);
      } else {
        DeletePropagatedResources(n);
      }
      if TypeOf(labels) == NS_TYPE_TEMPLATE {
        PushMeta(InstancesOf(LabelsOf(api.namespaces), n), n, ns);
      } else if TypeOf(labels) == NS_TYPE_ROOT {
        PushMeta(SubsOf(LabelsOf(api.namespaces), n), n, ns);
      } else {
        assert InheritAll(cfg, api.subNamespaces, api.namespaces, {}, n, ns) == api.namespaces;
      }
      ok := true;
    }
  }

  predicate NoDuplicates<T(==)>(s: seq<T>) {
    forall i, j | 0 <= i < j < |s| :: s[i] != s[j]
  }

  /** What a reconciliation of namespace n makes of a resource in it. */
  function ResourceReconciled(cl: Cloner, namespaces: Namespaces, all: Stored, kind: string, n: Name,
                              x: Name): Option<Resource>
    requires n in namespaces
  {
    match ReconcileSource(Values(namespaces[n].labels))
    case None => Dropped(At(all, kind, n, x))
    case Some(p) =>
      if p in namespaces then PassAt(cl, p, At(all, kind, p, x), At(all, kind, n, x)) else At(all, kind, n, x)
  }
}
