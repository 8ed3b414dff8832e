/** The controller that copies one kind of resource down the forest (controllers/propagate.go). */
module PropagateController {
  import opened Meta
  import opened ServerSideApply
  import opened Resources
  import opened Cluster
  import opened NamespaceForest

  /** The namespaces that a resource in n is propagated to. */
  function Children(store: Store, n: Name): set<Name> {
    if n !in store then {}
    else if CanHaveSubs(store[n]) then SubsOf(store, n)
    else InstancesOf(store, n)
  }

  lemma ChildrenExist(namespaces: Namespaces, n: Name)
    ensures Children(LabelsOf(namespaces), n) <= namespaces.Keys
  {
  }

  function Lookup(R: Copies, c: Name): Option<Resource> {
    if c in R then Some(R[c]) else None
  }

  /** What becomes of a copy that is to cover the clone m. */
  function Sync(m: Manifest, have: Option<Resource>): Resource {
    match have
    case None => Created(m)
    case Some(res) => if Covers(m, res) then res else Applied(res, m)
  }

  /** The copy in c after an update-mode propagation of R[n]. */
  function Synced(cl: Cloner, R: Copies, n: Name, c: Name): Resource
    requires n in R
  {
    Sync(CloneOf(cl, R[n], n), Lookup(R, c))
  }

  /** The copies after an update-mode propagation of R[n] to the namespaces cs. */
  function SyncedTo(cl: Cloner, R: Copies, n: Name, cs: set<Name>): Copies
    requires n in R
  {
    map c | c in R.Keys + cs :: if c in cs then Synced(cl, R, n, c) else R[c]
  }

  /** The same for create mode. */
  function CreatedIn(cl: Cloner, R: Copies, n: Name, cs: set<Name>): Copies
    requires n in R
  {
    map c | c in R.Keys + cs :: if c in R then R[c] else Created(CloneOf(cl, R[n], n))
  }

  predicate IsUpdateCopy(R: Copies, c: Name) {
    c in R && ModeOf(R[c]) == PROPAGATE_UPDATE
  }

  predicate IsPropagating(R: Copies, c: Name) {
    c in R && (ModeOf(R[c]) == PROPAGATE_CREATE || ModeOf(R[c]) == PROPAGATE_UPDATE)
  }

  function CascadeDeleted(R: Copies, cs: set<Name>): Copies {
    map c | c in R && !(c in cs && IsUpdateCopy(R, c)) :: R[c]
  }

  /** Where handleDelete looks for a resource to re-create from.  A parent label counts even
      when it is empty. */
  function RecreateSource(labels: Labels): Name {
    if Parent in labels then labels[Parent] else TemplateOf(labels)
  }

  function AfterDelete(store: Store, cl: Cloner, R: Copies, n: Name): Copies {
    if n !in store then R
    else
      var p := RecreateSource(store[n]);
      if p != "" && p !in store then R
      else if p != "" && IsPropagating(R, p) then R[n := Created(CloneOf(cl, R[p], p))]
      else CascadeDeleted(R, Children(store, n))
  }

  /** The copies after one Reconcile of the copy in n. */
  function Reconciled(store: Store, cl: Cloner, R: Copies, n: Name): Copies {
    if n !in R then AfterDelete(store, cl, R, n)
    else
      var from := FromOf(R[n]);
      if from != "" && from !in R && IsUpdateCopy(R, n) then R - {n}
      else if from != "" && IsUpdateCopy(R, from) then
        if Covers(CloneOf(cl, R[from], from), R[n]) then SyncedTo(cl, R, n, Children(store, n))
        else R[n := Applied(R[n], CloneOf(cl, R[from], from))]
      else if ModeOf(R[n]) == PROPAGATE_CREATE then CreatedIn(cl, R, n, Children(store, n))
      else if ModeOf(R[n]) == PROPAGATE_UPDATE then SyncedTo(cl, R, n, Children(store, n))
      else R
  }

  /** The namespaces whose copy differs. */
  function Changed(R: Copies, R': Copies): set<Name> {
    set c | c in R.Keys + R'.Keys && !(c in R && c in R' && R[c] == R'[c])
  }

  /** Syncing makes the copy cover the clone, and writes only if it did not. */
  lemma SyncWrites(m: Manifest, have: Option<Resource>)
    ensures Covers(m, Sync(m, have))
    ensures have == Some(Sync(m, have)) <==> have.Some? && Covers(m, have.value)
  {
    match have
    case None => WrittenIsCovered(m, Created(m));
    case Some(res) => WrittenIsCovered(m, res);
  }

  lemma SyncedToNone(cl: Cloner, R: Copies, n: Name)
    requires n in R
    ensures SyncedTo(cl, R, n, {}) == R && CreatedIn(cl, R, n, {}) == R && CascadeDeleted(R, {}) == R
    ensures Changed(R, R) == {}
  {
  }

  lemma SyncedToOneMore(cl: Cloner, R: Copies, n: Name, cs: set<Name>, c: Name)
    requires n in R && c !in cs
    ensures Lookup(SyncedTo(cl, R, n, cs), c) == Lookup(R, c)
    ensures SyncedTo(cl, R, n, cs + {c}) == SyncedTo(cl, R, n, cs)[c := Synced(cl, R, n, c)]
  {
  }

  lemma CreatedInOneMore(cl: Cloner, R: Copies, n: Name, cs: set<Name>, c: Name)
    requires n in R && c !in cs
    ensures Lookup(CreatedIn(cl, R, n, cs), c) == Lookup(R, c)
    ensures CreatedIn(cl, R, n, cs + {c}) ==
            if c in R then CreatedIn(cl, R, n, cs)
            else CreatedIn(cl, R, n, cs)[c := Created(CloneOf(cl, R[n], n))]
  {
  }

  lemma CascadeOneMore(R: Copies, cs: set<Name>, c: Name)
    requires c !in cs
    ensures Lookup(CascadeDeleted(R, cs), c) == Lookup(R, c)
    ensures CascadeDeleted(R, cs + {c}) ==
            if IsUpdateCopy(R, c) then CascadeDeleted(R, cs) - {c} else CascadeDeleted(R, cs)
  {
  }

  lemma SyncedChanges(cl: Cloner, R: Copies, n: Name, cs: set<Name>, written: set<Name>)
    requires n in R
    requires forall c :: c in written <==> c in cs && Lookup(R, c) != Some(Synced(cl, R, n, c))
    ensures Changed(R, SyncedTo(cl, R, n, cs)) == written
  {
    var R' := SyncedTo(cl, R, n, cs);
    forall c ensures c in Changed(R, R') <==> c in written {
      assert c in cs ==> Lookup(R', c) == Some(Synced(cl, R, n, c));
      assert c !in cs ==> Lookup(R', c) == Lookup(R, c);
    }
  }

  lemma CreatedChanges(cl: Cloner, R: Copies, n: Name, cs: set<Name>, written: set<Name>)
    requires n in R
    requires forall c :: c in written <==> c in cs && c !in R
    ensures Changed(R, CreatedIn(cl, R, n, cs)) == written
  {
  }

  lemma CascadeChanges(R: Copies, cs: set<Name>, written: set<Name>)
    requires forall c :: c in written <==> c in cs && IsUpdateCopy(R, c)
    ensures Changed(R, CascadeDeleted(R, cs)) == written
  {
  }

  /** A delete event does nothing if the parent or template is missing; and an empty parent label
      keeps a template from being looked at. */
  lemma NothingIsRecreated(store: Store, cl: Cloner, R: Copies, n: Name)
    requires n in store && n !in R
    ensures var p := if Parent in store[n] then store[n][Parent] else Value(store[n], Template);
            && (p != "" && p !in store ==> AfterDelete(store, cl, R, n) == R)
            && (n in AfterDelete(store, cl, R, n) ==> p != "" && p in R)
  {
  }

  /** A single write. */
  lemma OneChange(R: Copies, c: Name, res: Resource)
    ensures |Changed(R, R[c := res])| == if Lookup(R, c) == Some(res) then 0 else 1
    ensures c in R ==> |Changed(R, R - {c})| == 1
    ensures Changed(R, R) == {}
  {
    assert Changed(R, R[c := res]) == if Lookup(R, c) == Some(res) then {} else {c};
    if c in R { assert Changed(R, R - {c}) == {c}; }
  }

  class Controller {
    const api: ApiServer
    const kind: string
    const cloner: Cloner

    constructor (api: ApiServer, kind: string, cloner: Cloner)
      ensures this.api == api && this.kind == kind && this.cloner == cloner
    {
      this.api, this.kind, this.cloner := api, kind, cloner;
    }

    ghost function Copies(name: Name): Copies
      reads api
    {
      CopiesOf(api.resources, Ref(kind, name))
    }

    ghost function Others(name: Name): Stored
      reads api
    {
      api.resources - {Ref(kind, name)}
    }

    method CreateCopy(c: Name, name: Name, m: Manifest) returns (ok: bool)
      modifies api`resources, api`writes
      ensures ok <==> c in api.namespaces && c !in old(Copies(name))
      ensures Copies(name) == if ok then old(Copies(name))[c := Created(m)] else old(Copies(name))
      ensures api.writes == if ok then old(api.writes) + 1 else old(api.writes)
      ensures Others(name) == old(Others(name))
    {
      ok := api.Create(Ref(kind, name), c, m);
    }

    method ApplyCopy(c: Name, name: Name, m: Manifest)
      requires c in Copies(name)
      modifies api`resources, api`writes
      ensures Copies(name) == old(Copies(name))[c := Applied(old(Copies(name))[c], m)]
      ensures api.writes == old(api.writes) + 1
      ensures Others(name) == old(Others(name))
    {
      api.Apply(Ref(kind, name), c, m);
    }

    method DeleteCopy(c: Name, name: Name)
      requires c in Copies(name)
      modifies api`resources, api`writes
      ensures Copies(name) == old(Copies(name)) - {c}
      ensures api.writes == old(api.writes) + 1
      ensures Others(name) == old(Others(name))
    {
      api.Delete(Ref(kind, name), c);
    }

    method Get(c: Name, name: Name) returns (res: Option<Resource>)
      ensures res == Lookup(Copies(name), c)
    {
      res := Lookup(CopiesOf(api.resources, Ref(kind, name)), c);
    }

    /** One round of the loop of propagateUpdate. */
    method SyncChild(c: Name, name: Name, clone: Manifest)
      requires c in api.namespaces
      modifies api`resources, api`writes
      ensures Copies(name) == old(Copies(name))[c := Sync(clone, Lookup(old(Copies(name)), c))]
      ensures api.writes == old(api.writes) +
              if Lookup(old(Copies(name)), c) == Some(Sync(clone, Lookup(old(Copies(name)), c))) then 0 else 1
      ensures Others(name) == old(Others(name))
    {
      SyncWrites(clone, Lookup(Copies(name), c));
      var cres := Get(c, name);
      if cres.None? {
        var _ := CreateCopy(c, name, clone);
      } else if !Covers(clone, cres.value) {
        ApplyCopy(c, name, clone);
      }
    }

    /** getChildren; it fails if there is no such namespace. */
    method GetChildren(n: Name) returns (found: bool, children: set<Name>)
      ensures found <==> n in api.namespaces
      ensures children == Children(LabelsOf(api.namespaces), n) && forall c | c in children :: c in api.namespaces
    {
      ChildrenExist(api.namespaces, n);
      found, children := n in api.namespaces, Children(LabelsOf(api.namespaces), n);
    }

    /** The loop of propagateUpdate.  `written` are the children written to. */
    method SyncChildren(children: set<Name>, n: Name, name: Name, obj: Resource) returns (ghost written: set<Name>)
      requires n in Copies(name) && Copies(name)[n] == obj && forall c | c in children :: c in api.namespaces
      modifies api`resources, api`writes
      ensures Copies(name) == SyncedTo(cloner, old(Copies(name)), n, children)
      ensures api.writes == old(api.writes) + |written|
      ensures forall c :: c in written <==>
                c in children && Lookup(old(Copies(name)), c) != Some(Synced(cloner, old(Copies(name)), n, c))
      ensures Others(name) == old(Others(name))
    {
      ghost var R := Copies(name);
      var clone := CloneResource(cloner, obj, n);
      SyncedToNone(cloner, R, n);
      var done: set<Name> := {};
      written := {};
      while done != children
        invariant done <= children
        invariant Copies(name) == SyncedTo(cloner, R, n, done)
        invariant forall c :: c in written <==> c in done && Lookup(R, c) != Some(Sync(clone, Lookup(R, c)))
        invariant api.writes == old(api.writes) + |written|
        invariant Others(name) == old(Others(name))
        decreases children - done
      {
        var c :| c in children && c !in done;
        SyncedToOneMore(cloner, R, n, done, c);
        SyncChild(c, name, clone);
        if Lookup(R, c) != Some(Sync(clone, Lookup(R, c))) { written := written + {c}; }
        done := done + {c};
      }
    }

    /** One round of the loop of propagateCreate. */
    method CreateChild(c: Name, name: Name, obj: Resource, n: Name)
      requires c in api.namespaces
      modifies api`resources, api`writes
      ensures Copies(name) ==
              if c in old(Copies(name)) then old(Copies(name))
              else old(Copies(name))[c := Created(CloneOf(cloner, obj, n))]
      ensures api.writes == old(api.writes) + if c in old(Copies(name)) then 0 else 1
      ensures Others(name) == old(Others(name))
    {
      var cres := Get(c, name);
      if cres.None? {
        var clone := CloneResource(cloner, obj, n);
        var _ := CreateCopy(c, name, clone);
      }
    }

    /** The loop of propagateCreate. */
    method CreateInChildren(children: set<Name>, n: Name, name: Name, obj: Resource) returns (ghost written: set<Name>)
      requires n in Copies(name) && Copies(name)[n] == obj && forall c | c in children :: c in api.namespaces
      modifies api`resources, api`writes
      ensures Copies(name) == CreatedIn(cloner, old(Copies(name)), n, children)
      ensures api.writes == old(api.writes) + |written|
      ensures forall c :: c in written <==> c in children && c !in old(Copies(name))
      ensures Others(name) == old(Others(name))
    {
      ghost var R := Copies(name);
      SyncedToNone(cloner, R, n);
      var done: set<Name> := {};
      written := {};
      while done != children
        invariant done <= children && forall c :: c in written <==> c in done && c !in R
        invariant Copies(name) == CreatedIn(cloner, R, n, done)
        invariant api.writes == old(api.writes) + |written|
        invariant Others(name) == old(Others(name))
        decreases children - done
      {
        var c :| c in children && c !in done;
        CreatedInOneMore(cloner, R, n, done, c);
        CreateChild(c, name, obj, n);
        if c !in R { written := written + {c}; }
        done := done + {c};
      }
    }

    /** The cascade of handleDelete. */
    method DeleteInChildren(children: set<Name>, name: Name) returns (ghost written: set<Name>)
      modifies api`resources, api`writes
      ensures Copies(name) == CascadeDeleted(old(Copies(name)), children)
      ensures api.writes == old(api.writes) + |written|
      ensures forall c :: c in written <==> c in children && IsUpdateCopy(old(Copies(name)), c)
      ensures Others(name) == old(Others(name))
    {
      ghost var R := Copies(name);
      assert CascadeDeleted(R, {}) == R;
      var done: set<Name> := {};
      written := {};
      while done != children
        invariant done <= children && forall c :: c in written <==> c in done && IsUpdateCopy(R, c)
        invariant Copies(name) == CascadeDeleted(R, done)
        invariant api.writes == old(api.writes) + |written|
        invariant Others(name) == old(Others(name))
        decreases children - done
      {
        var c :| c in children && c !in done;
        CascadeOneMore(R, done, c);
        var cres := Get(c, name);
        if cres.Some? && ModeOf(cres.value) == PROPAGATE_UPDATE {
          DeleteCopy(c, name);
          written := written + {c};
        }
        done := done + {c};
      }
    }

    /** A delete event: re-create from the source, or delete the copies in the children. */
    method HandleDelete(n: Name, name: Name) returns (ok: bool)
      requires n !in Copies(name)
      modifies api`resources, api`writes
      ensures ok <==> n in api.namespaces ==>
                        var p := RecreateSource(LabelsOf(api.namespaces)[n]);
                        p == "" || p in api.namespaces
      ensures Copies(name) == AfterDelete(LabelsOf(api.namespaces), cloner, old(Copies(name)), n)
      ensures api.writes == old(api.writes) + |Changed(old(Copies(name)), Copies(name))|
      ensures Others(name) == old(Others(name))
    {
      ghost var R := Copies(name);
      assert Changed(R, R) == {};
      if n !in api.namespaces {
        return true;
      }
      var p := RecreateSource(Values(api.namespaces[n].labels));
      if p != "" {
        if p !in api.namespaces {
          return false;
        }
        var obj := Get(p, name);
        if obj.Some? && (ModeOf(obj.value) == PROPAGATE_CREATE || ModeOf(obj.value) == PROPAGATE_UPDATE) {
          var clone := CloneResource(cloner, obj.value, p);
          ok := CreateCopy(n, name, clone);
          OneChange(R, n, Created(clone));
          return;
        }
      }
      var _, children := GetChildren(n);
      ghost var written := DeleteInChildren(children, name);
      CascadeChanges(R, children, written);
      ok := true;
    }

    method PropagateCreate(n: Name, name: Name, obj: Resource) returns (ok: bool)
      requires n in Copies(name) && Copies(name)[n] == obj
      modifies api`resources, api`writes
      ensures ok <==> n in api.namespaces
      ensures Copies(name) == CreatedIn(cloner, old(Copies(name)), n, Children(LabelsOf(api.namespaces), n))
      ensures api.writes == old(api.writes) + |Changed(old(Copies(name)), Copies(name))|
      ensures Others(name) == old(Others(name))
    {
      ghost var R := Copies(name);
      SyncedToNone(cloner, R, n);
      var children;
      ok, children := GetChildren(n);
      if ok {
        ghost var written := CreateInChildren(children, n, name, obj);
        CreatedChanges(cloner, R, n, children, written);
      }
    }

    /** propagateUpdate with a parent: re-sync the copy itself, or go on to the children. */
    method PropagateUpdateFrom(n: Name, name: Name, obj: Resource, parent: Resource) returns (ok: bool)
      requires n in Copies(name) && Copies(name)[n] == obj
      modifies api`resources, api`writes
      ensures Copies(name) ==
              if Covers(CloneOf(cloner, parent, FromOf(obj)), obj)
              then SyncedTo(cloner, old(Copies(name)), n, Children(LabelsOf(api.namespaces), n))
              else old(Copies(name))[n := Applied(obj, CloneOf(cloner, parent, FromOf(obj)))]
      ensures api.writes == old(api.writes) + |Changed(old(Copies(name)), Copies(name))|
      ensures Others(name) == old(Others(name))
      ensures n in api.namespaces ==> ok
    {
      var clone := CloneResource(cloner, parent, FromOf(obj));
      if Covers(clone, obj) {
        ok := PropagateUpdate(n, name, obj);
      } else {
        SyncWrites(clone, Some(obj));
        OneChange(Copies(name), n, Applied(obj, clone));
        ApplyCopy(n, name, clone);
        ok := true;
      }
    }

    /** propagateUpdate to the children. */
    method PropagateUpdate(n: Name, name: Name, obj: Resource) returns (ok: bool)
      requires n in Copies(name) && Copies(name)[n] == obj
      modifies api`resources, api`writes
      ensures Copies(name) == SyncedTo(cloner, old(Copies(name)), n, Children(LabelsOf(api.namespaces), n))
      ensures api.writes == old(api.writes) + |Changed(old(Copies(name)), Copies(name))|
      ensures Others(name) == old(Others(name))
      ensures ok <==> n in api.namespaces
    {
      ghost var R := Copies(name);
      SyncedToNone(cloner, R, n);
      var children;
      ok, children := GetChildren(n);
      if ok {
        ghost var written := SyncChildren(children, n, name, obj);
        SyncedChanges(cloner, R, n, children, written);
      }
    }

    /** One reconciliation of the copy in n.  It fails only if a namespace is missing. */
    method Reconcile(n: Name, name: Name) returns (ok: bool)
      modifies api`resources, api`writes
      ensures Copies(name) == Reconciled(LabelsOf(api.namespaces), cloner, old(Copies(name)), n)
      ensures api.writes == old(api.writes) + |Changed(old(Copies(name)), Copies(name))|
      ensures Others(name) == old(Others(name))
      ensures ok || n !in api.namespaces || RecreateSource(LabelsOf(api.namespaces)[n]) !in api.namespaces
    {
      ghost var R := Copies(name);
      var found := Get(n, name);
      if found.None? {
        ok := HandleDelete(n, name);
        return;
      }
      var obj := found.value;
      var from := FromOf(obj);
      if from != "" {
        var p := Get(from, name);
        if p.None? {
          if ModeOf(obj) == PROPAGATE_UPDATE {
            DeleteCopy(n, name);
            assert Changed(R, R) == {};
            OneChange(R, n, obj);
            return true;
          }
        } else if ModeOf(p.value) == PROPAGATE_UPDATE {
          ok := PropagateUpdateFrom(n, name, obj, p.value);
          return;
        }
      }
      if ModeOf(obj) == PROPAGATE_CREATE {
        ok := PropagateCreate(n, name, obj);
      } else if ModeOf(obj) == PROPAGATE_UPDATE {
        ok := PropagateUpdate(n, name, obj);
      } else {
        assert Changed(R, R) == {};
        ok := true;
      }
    }
  }
}
