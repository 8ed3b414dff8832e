/** The reconciler for SubNamespace objects (controllers/subnamespace_controller.go) and the
    commands that move namespaces (cmd/kubectl-accurate/sub), each running undisturbed.  What
    they do is tied to the calls of module Lifecycle, where they are interleaved. */
module SubNamespaceController {
  import opened Meta
  import opened ServerSideApply
  import opened Cluster
  import opened Lifecycle
  import N = NamespaceWebhook
  import S = SubNamespaceWebhook

  /** The SubNamespace objects with this name, by namespace. */
  function ObjectsNamed(subs: SubNamespaces, name: Name): map<Name, SubNs> {
    map key | key in subs && key.name == name :: key.namespace := subs[key]
  }

  lemma ObjectAt(subs: SubNamespaces, key: SubName)
    ensures key in subs <==> key.namespace in ObjectsNamed(subs, key.name)
    ensures key in subs ==> ObjectsNamed(subs, key.name)[key.namespace] == subs[key]
  {
    if key.namespace in ObjectsNamed(subs, key.name) {
      var k :| k in subs && k.name == key.name && k.namespace == key.namespace;
      assert k == key;
    }
  }

  lemma ObjectPut(subs: SubNamespaces, key: SubName, sn: SubNs)
    ensures ObjectsNamed(subs[key := sn], key.name) == ObjectsNamed(subs, key.name)[key.namespace := sn]
  {
    var a, b := ObjectsNamed(subs[key := sn], key.name), ObjectsNamed(subs, key.name)[key.namespace := sn];
    forall h ensures h in a <==> h in b
      ensures h in a ==> a[h] == b[h]
    {
      ObjectAt(subs[key := sn], SubName(h, key.name));
      ObjectAt(subs, SubName(h, key.name));
    }
  }

  lemma ObjectRemoved(subs: SubNamespaces, key: SubName)
    ensures ObjectsNamed(subs - {key}, key.name) == ObjectsNamed(subs, key.name) - {key.namespace}
  {
    var a, b := ObjectsNamed(subs - {key}, key.name), ObjectsNamed(subs, key.name) - {key.namespace};
    forall h ensures h in a <==> h in b
      ensures h in a ==> a[h] == b[h]
    {
      ObjectAt(subs - {key}, SubName(h, key.name));
      ObjectAt(subs, SubName(h, key.name));
    }
  }

  /** The writes to objects, seen through ObjectsNamed. */
  lemma WritesSeen(subs: SubNamespaces, key: SubName, finalizers: seq<string>, stalled: bool)
    ensures ObjectsNamed(MarkDeleted(subs, key), key.name) == MarkDeleted(ObjectsNamed(subs, key.name), key.namespace)
    ensures ObjectsNamed(PatchFinalizers(subs, key, finalizers), key.name) ==
            PatchFinalizers(ObjectsNamed(subs, key.name), key.namespace, finalizers)
    ensures ObjectsNamed(SetStalled(subs, key, stalled), key.name) ==
            SetStalled(ObjectsNamed(subs, key.name), key.namespace, stalled)
  {
    ObjectAt(subs, key);
    ObjectRemoved(subs, key);
    if key in subs {
      ObjectPut(subs, key, subs[key].(deleting := true));
      ObjectPut(subs, key, subs[key].(finalizers := finalizers));
      ObjectPut(subs, key, subs[key].(stalled := stalled));
    }
  }

  lemma WritesElsewhere(subs: SubNamespaces, key: SubName, finalizers: seq<string>, stalled: bool)
    ensures PatchFinalizers(subs, key, finalizers) - {key} == subs - {key}
    ensures SetStalled(subs, key, stalled) - {key} == subs - {key}
  {
  }

  lemma ElsewhereSame<V>(m: map<Name, V>, n: Name, v: V)
    ensures m[n := v] - {n} == m - {n} && m - {n} - {n} == m - {n}
  {
  }

  /** The part of the cluster that has to do with one name, with nothing under way, and with a
      namespace that may be deleted. */
  function WorldOf(namespaces: Namespaces, subs: SubNamespaces, name: Name): World {
    World(if name in namespaces then Some(ParentOf(Values(namespaces[name].labels))) else None,
          true, ObjectsNamed(subs, name), map[], Started)
  }

  predicate SameThings(a: World, b: World) {
    a.parent == b.parent && a.subs == b.subs
  }

  /** All calls of one reconciliation of the object in h. */
  function Round(w: World, h: Name): World {
    var w' := WorkerCall(WorkerCall(WorkerCall(w, h), h), h);
    if WorkerOf(w', h).Idle? then w' else WorkerCall(w', h)
  }

  function Calls(plan: Plan, w: World, k: nat): World
    decreases k
  {
    if k == 0 then w else Calls(plan, CommandCall(plan, w), k - 1)
  }

  /** All calls of a command. */
  function Alone(plan: Plan, w: World): World {
    Calls(plan, w, 4)
  }

  lemma FourCalls(plan: Plan, w: World)
    ensures Alone(plan, w) == CommandCall(plan, CommandCall(plan, CommandCall(plan, CommandCall(plan, w))))
  {
    var w1 := CommandCall(plan, w);
    var w2 := CommandCall(plan, w1);
    var w3 := CommandCall(plan, w2);
    assert Calls(plan, w3, 1) == CommandCall(plan, w3);
    assert Calls(plan, w2, 2) == Calls(plan, w3, 1);
    assert Calls(plan, w1, 3) == Calls(plan, w2, 2);
  }

  lemma RoundOfFinalize(w: World, h: Name)
    requires w.workers == map[] && h in w.subs && w.subs[h].deleting
    ensures var r, refused := Round(w, h), w.parent == Some(h) && !w.deletable;
            && r.parent == (if w.parent == Some(h) && !refused then None else w.parent)
            && r.subs == if FINALIZER in w.subs[h].finalizers && !refused
                         then PatchFinalizers(w.subs, h, WithoutFinalizer(w.subs[h].finalizers)) else w.subs
  {
  }

  lemma RoundOfReconcileNS(w: World, h: Name)
    requires w.workers == map[] && h in w.subs && !w.subs[h].deleting
    ensures var r := Round(w, h);
            && r.parent == (if w.parent.None? then Some(h) else w.parent)
            && r.subs == SetStalled(w.subs, h, r.parent != Some(h))
  {
  }

  /** Deleting an object deletes its namespace: once the deletion is reconciled the namespace is
      gone, and then the object, unless finalizers of others still pin it. */
  lemma DeletionReachesNamespace(w: World, h: Name)
    requires w.workers == map[] && w.parent == Some(h) && w.deletable
    requires h in w.subs && w.subs[h].finalizers != []
    ensures var r := Round(w.(subs := MarkDeleted(w.subs, h)), h);
            && r.parent == None
            && (h in r.subs <==> WithoutFinalizer(w.subs[h].finalizers) != [])
            && (h in r.subs ==> r.subs[h].deleting && r.subs[h].finalizers == WithoutFinalizer(w.subs[h].finalizers))
            && forall x | x != h :: (x in r.subs <==> x in w.subs) && (x in r.subs ==> r.subs[x] == w.subs[x])
  {
    var w' := w.(subs := MarkDeleted(w.subs, h));
    RoundOfFinalize(w', h);
    Unpinned(w.subs[h].finalizers);
  }

  /** Creating an object creates its namespace, unless there is one; a conflict is reported if
      that has another parent. */
  lemma CreationReachesNamespace(w: World, h: Name)
    requires w.workers == map[] && h in w.subs && !w.subs[h].deleting
    ensures var r := Round(w, h);
            && r.parent == (if w.parent == None then Some(h) else w.parent)
            && h in r.subs && r.subs[h] == w.subs[h].(stalled := w.parent != None && w.parent != Some(h))
            && forall x | x != h :: (x in r.subs <==> x in w.subs) && (x in r.subs ==> r.subs[x] == w.subs[x])
  {
    RoundOfReconcileNS(w, h);
  }

  class Reconciler {
    const api: ApiServer

    constructor (api: ApiServer)
      ensures this.api == api
    {
      this.api := api;
    }

    method RemoveFinalizer(key: SubName, sn: SubNs)
      modifies api`subNamespaces
      ensures api.subNamespaces ==
              if FINALIZER in sn.finalizers
              then PatchFinalizers(old(api.subNamespaces), key, WithoutFinalizer(sn.finalizers))
              else old(api.subNamespaces)
    {
      if FINALIZER in sn.finalizers {
        api.PatchSubNamespace(key, WithoutFinalizer(sn.finalizers));
      }
    }

    /** Deletes the namespace if it is a child of the namespace of the object, and unpins the
        object; fails if the namespace may not be deleted. */
    method Finalize(key: SubName, sn: SubNs) returns (ok: bool)
      modifies api`namespaces, api`subNamespaces
      ensures ok <==>
              var before := old(api.namespaces);
              key.name in before && ParentOf(Values(before[key.name].labels)) == key.namespace ==>
                N.Accepted(LabelsOf(before), N.Delete(key.name), api.allowCascadingDeletion)
      ensures api.namespaces ==
              var before := old(api.namespaces);
              if ok && key.name in before && ParentOf(Values(before[key.name].labels)) == key.namespace
              then before - {key.name} else before
      ensures api.subNamespaces ==
              if ok && FINALIZER in sn.finalizers
              then PatchFinalizers(old(api.subNamespaces), key, WithoutFinalizer(sn.finalizers))
              else old(api.subNamespaces)
    {
      if key.name !in api.namespaces {
        RemoveFinalizer(key, sn);
        return true;
      }
      var ns := api.namespaces[key.name];
      if ParentOf(Values(ns.labels)) != key.namespace {
        RemoveFinalizer(key, sn);
        return true;
      }
      ok := api.DeleteNamespace(key.name);
      if ok {
        RemoveFinalizer(key, sn);
      }
    }

    /** Creates the namespace if there is none, and reports whether the one that is there
        belongs to the object; fails if the namespace may not be created. */
    method ReconcileNS(key: SubName) returns (ok: bool)
      modifies api`namespaces, api`subNamespaces
      ensures ok <==> key.name in old(api.namespaces) ||
                      N.Accepted(LabelsOf(old(api.namespaces)), N.Create(key.name, S.SubLabels(key.namespace)),
                                 api.allowCascadingDeletion)
      ensures api.namespaces ==
              if key.name in old(api.namespaces) || !ok then old(api.namespaces)
              else old(api.namespaces)[key.name := Namespace(Resources.Own(S.SubLabels(key.namespace)), map[])]
      ensures ok && key.name !in old(api.namespaces) ==>
                && HasLabel(api.namespaces, key.name, Parent, key.namespace)
                && HasLabel(api.namespaces, key.name, CreatedBy, "accurate")
                && forall k | HasKey(api.namespaces, key.name, k) :: k in {Parent, CreatedBy}
      ensures api.subNamespaces ==
              if ok then SetStalled(old(api.subNamespaces), key,
                                    ParentOf(Values(api.namespaces[key.name].labels)) != key.namespace)
              else old(api.subNamespaces)
    {
      if key.name !in api.namespaces {
        ok := api.CreateNamespace(key.name, S.SubLabels(key.namespace));
        if !ok {
          return;
        }
      }
      ok := true;
      api.ApplyStatus(key, ParentOf(Values(api.namespaces[key.name].labels)) != key.namespace);
    }

    /** One reconciliation does what the calls of a worker do, unless a webhook refuses. */
    method Reconcile(key: SubName) returns (ok: bool)
      modifies api`namespaces, api`subNamespaces
      ensures ok ==> SameThings(WorldOf(api.namespaces, api.subNamespaces, key.name),
                                Round(WorldOf(old(api.namespaces), old(api.subNamespaces), key.name), key.namespace))
      ensures !ok ==> api.namespaces == old(api.namespaces) && api.subNamespaces == old(api.subNamespaces)
      ensures api.namespaces - {key.name} == old(api.namespaces) - {key.name}
      ensures api.subNamespaces - {key} == old(api.subNamespaces) - {key}
    {
      ObjectAt(api.subNamespaces, key);
      if key !in api.subNamespaces {
        return true;
      }
      var sn := api.subNamespaces[key];
      ghost var before := api.subNamespaces;
      ghost var w := WorldOf(api.namespaces, before, key.name);
      ElsewhereSame(api.namespaces, key.name, Namespace(Resources.Own(S.SubLabels(key.namespace)), map[]));
      if sn.deleting {
        ok := Finalize(key, sn);
        WritesSeen(before, key, WithoutFinalizer(sn.finalizers), false);
        WritesElsewhere(before, key, WithoutFinalizer(sn.finalizers), false);
        RoundOfFinalize(w, key.namespace);
      } else {
        ok := ReconcileNS(key);
        WritesSeen(before, key, [], Round(w, key.namespace).parent != Some(key.namespace));
        WritesElsewhere(before, key, [], Round(w, key.namespace).parent != Some(key.namespace));
        RoundOfReconcileNS(w, key.namespace);
      }
    }
  }

  /** An accepted update of labels, seen in the plain labels. */
  lemma UpdateSeen(all: Namespaces, n: Name, labels: Labels)
    requires n in all
    ensures LabelsOf(all[n := all[n].(labels := Overwritten(all[n].labels, labels))]) == LabelsOf(all)[n := labels]
  {
    assert Values(Overwritten(all[n].labels, labels)) == labels;
  }

  /** No other namespace changes, and of this one only labels with these keys do. */
  ghost predicate OnlyRelabelled(before: Namespaces, after: Namespaces, name: Name, keys: set<MetaKey>) {
    && after.Keys == before.Keys && (forall n | n in before && n != name :: after[n] == before[n])
    && (name in before ==> after[name].annotations == before[name].annotations
                           && SameBut(before[name].labels, after[name].labels, keys))
  }

  /** SubNamespace objects of other names stay as they are. */
  ghost predicate OnlyNamed(before: SubNamespaces, after: SubNamespaces, name: Name) {
    forall key: SubName | key.name != name ::
      (key in after <==> key in before) && (key in before ==> after[key] == before[key])
  }

  ghost predicate SameBut(before: Fields<MetaKey>, after: Fields<MetaKey>, keys: set<MetaKey>) {
    forall k | k !in keys :: (k in after <==> k in before) && (k in before ==> after[k] == before[k])
  }

  ghost predicate HasLabel(all: Namespaces, name: Name, k: MetaKey, v: string) {
    name in all && ValueAt(all[name].labels, k) == Some(v)
  }

  ghost predicate HasKey(all: Namespaces, name: Name, k: MetaKey) {
    name in all && k in all[name].labels
  }

  lemma LabelsGive(all: Namespaces, name: Name, labels: Labels)
    requires name in all && Values(all[name].labels) == labels
    ensures forall k :: HasKey(all, name, k) <==> k in labels
    ensures forall k | k in labels :: HasLabel(all, name, k, labels[k])
  {
  }

  /** What a command does once it has read the namespace: all its calls, or none if the
      webhook refuses the first. */
  ghost predicate Performs(plan: Plan, name: Name, labels: Labels, ok: bool, casc: bool, before: Namespaces,
                           subs: SubNamespaces, after: Namespaces, subs': SubNamespaces)
  {
    var end := Alone(plan, WorldOf(before, subs, name));
    if N.Accepted(LabelsOf(before), N.Update(name, labels), casc) then
      && LabelsOf(after) == LabelsOf(before)[name := labels]
      && SameThings(WorldOf(after, subs', name), end)
      && ok == end.progress.Finished?
    else
      !ok && after == before && subs' == subs
  }

  lemma AloneMove(plan: Plan, w: World)
    requires w.parent == Some(plan.orig) && w.progress.Started? && plan.readOld && plan.createNew
    ensures var end := Alone(plan, w);
            var subs := if plan.deleteOld then MarkDeleted(w.subs, plan.orig) else w.subs;
            && end.parent == Some(plan.target)
            && (plan.orig !in w.subs ==> !end.progress.Finished? && end.subs == w.subs)
            && (plan.orig in w.subs && plan.target in subs ==> !end.progress.Finished? && end.subs == subs)
            && (plan.orig in w.subs && plan.target !in subs ==>
                  end.progress.Finished? &&
                  end.subs == subs[plan.target := SubNs(w.subs[plan.orig].spec, false, [FINALIZER], false)])
  {
    FourCalls(plan, w);
  }

  lemma AloneOther(plan: Plan, w: World)
    requires w.parent == Some(plan.orig) && w.progress.Started? && !plan.readOld
    ensures var end := Alone(plan, w);
            var subs := if plan.deleteOld then MarkDeleted(w.subs, plan.orig) else w.subs;
            && end.parent == Some(plan.target)
            && (plan.createNew && plan.target in subs ==> !end.progress.Finished? && end.subs == subs)
            && (plan.createNew && plan.target !in subs ==>
                  end.progress.Finished? &&
                  end.subs == subs[plan.target := SubNs(Spec(map[], map[]), false, [FINALIZER], false)])
            && (!plan.createNew ==> end.progress.Finished? && end.subs == subs)
  {
    FourCalls(plan, w);
  }

  lemma OverwrittenAt(all: Namespaces, n: Name, labels: Labels, keys: set<MetaKey>)
    requires n in all && forall k | k !in keys :: SameAt(Values(all[n].labels), labels, k)
    ensures OnlyRelabelled(all, all[n := all[n].(labels := Overwritten(all[n].labels, labels))], n, keys)
  {
    var before, after := all[n].labels, Overwritten(all[n].labels, labels);
    forall k | k !in keys ensures (k in after <==> k in before) && (k in before ==> after[k] == before[k]) {
      assert SameAt(Values(before), labels, k);
    }
  }

  /** The first write of every command: no labels but those with the given keys change. */
  method Replace(api: ApiServer, name: Name, labels: Labels, ghost keys: set<MetaKey>) returns (ok: bool)
    requires name in api.namespaces && "" !in api.namespaces
    requires forall k | k !in keys :: SameAt(Values(api.namespaces[name].labels), labels, k)
    modifies api`namespaces
    ensures ok <==> N.Accepted(LabelsOf(old(api.namespaces)), N.Update(name, labels), api.allowCascadingDeletion)
    ensures ok ==> LabelsOf(api.namespaces) == LabelsOf(old(api.namespaces))[name := labels]
    ensures ok ==> WorldOf(api.namespaces, api.subNamespaces, name).parent == Some(ParentOf(labels))
    ensures ok ==> forall k :: HasKey(api.namespaces, name, k) <==> k in labels
    ensures ok ==> forall k | k in labels :: HasLabel(api.namespaces, name, k, labels[k])
    ensures OnlyRelabelled(old(api.namespaces), api.namespaces, name, keys)
    ensures !ok ==> api.namespaces == old(api.namespaces)
  {
    UpdateSeen(api.namespaces, name, labels);
    OverwrittenAt(api.namespaces, name, labels, keys);
    ok := api.UpdateNamespace(name, labels);
    if ok {
      assert LabelsOf(api.namespaces)[name] == labels;
      LabelsGive(api.namespaces, name, labels);
    }
  }

  /** sub move. */
  method Move(api: ApiServer, name: Name, parent: Name, leaveOriginal: bool) returns (ok: bool)
    requires "" !in api.namespaces
    modifies api`namespaces, api`subNamespaces
    ensures var labels := if name in old(api.namespaces) then Values(old(api.namespaces)[name].labels) else map[];
            if Parent !in labels then
              !ok && api.namespaces == old(api.namespaces) && api.subNamespaces == old(api.subNamespaces)
            else if labels[Parent] == parent then
              ok && api.namespaces == old(api.namespaces) && api.subNamespaces == old(api.subNamespaces)
            else
              Performs(MovePlan(labels[Parent], parent, leaveOriginal), name, S.Relabel(labels, S.Move(parent)), ok,
                       api.allowCascadingDeletion, old(api.namespaces), old(api.subNamespaces), api.namespaces,
                       api.subNamespaces)
    ensures OnlyRelabelled(old(api.namespaces), api.namespaces, name, {Parent})
    ensures OnlyNamed(old(api.subNamespaces), api.subNamespaces, name)
    ensures ok ==> HasLabel(api.namespaces, name, Parent, parent)
  {
    if name !in api.namespaces {
      return false;
    }
    var labels := Values(api.namespaces[name].labels);
    if Parent !in labels {
      return false;
    }
    if labels[Parent] == parent {
      return true;
    }
    ok := MoveFrom(api, name, labels, parent, leaveOriginal);
  }

  /** sub move, once it is clear that there is something to do. */
  method MoveFrom(api: ApiServer, name: Name, before: Labels, parent: Name, leaveOriginal: bool) returns (ok: bool)
    requires "" !in api.namespaces && name in api.namespaces && before == Values(api.namespaces[name].labels)
    requires Parent in before && before[Parent] != parent
    modifies api`namespaces, api`subNamespaces
    ensures Performs(MovePlan(before[Parent], parent, leaveOriginal), name, S.Relabel(before, S.Move(parent)), ok,
                     api.allowCascadingDeletion, old(api.namespaces), old(api.subNamespaces), api.namespaces,
                     api.subNamespaces)
    ensures OnlyRelabelled(old(api.namespaces), api.namespaces, name, {Parent})
    ensures OnlyNamed(old(api.subNamespaces), api.subNamespaces, name)
    ensures ok ==> HasLabel(api.namespaces, name, Parent, parent)
  {
    var orig := before[Parent];
    AloneMove(MovePlan(orig, parent, leaveOriginal), WorldOf(api.namespaces, api.subNamespaces, name));
    var labels := before;
    labels := labels[Parent := parent];
    assert labels == S.Relabel(before, S.Move(parent)) && ParentOf(labels) == parent;
    ok := Replace(api, name, labels, {Parent});
    if ok {
      ok := MoveObject(api, name, orig, parent, leaveOriginal);
    }
  }

  method DeleteObject(api: ApiServer, name: Name, parent: Name)
    modifies api`subNamespaces
    ensures OnlyNamed(old(api.subNamespaces), api.subNamespaces, name)
    ensures ObjectsNamed(api.subNamespaces, name) == MarkDeleted(ObjectsNamed(old(api.subNamespaces), name), parent)
  {
    WritesSeen(api.subNamespaces, SubName(parent, name), [], false);
    api.DeleteSubNamespace(SubName(parent, name));
  }

  /** The calls of sub move after the label has been changed. */
  method MoveObject(api: ApiServer, name: Name, orig: Name, parent: Name, leaveOriginal: bool) returns (ok: bool)
    requires orig != parent
    modifies api`subNamespaces
    ensures OnlyNamed(old(api.subNamespaces), api.subNamespaces, name)
    ensures var before := ObjectsNamed(old(api.subNamespaces), name);
            var subs := if leaveOriginal then before else MarkDeleted(before, orig);
            var after := ObjectsNamed(api.subNamespaces, name);
            && ok == (orig in before && parent !in subs)
            && after == if orig !in before then before
                        else if parent in subs then subs
                        else subs[parent := SubNs(before[orig].spec, false, [FINALIZER], false)]
  {
    ObjectAt(api.subNamespaces, SubName(orig, name));
    if SubName(orig, name) !in api.subNamespaces {
      return false;
    }
    var oldSN := api.subNamespaces[SubName(orig, name)];
    if !leaveOriginal {
      DeleteObject(api, name, orig);
    }
    ObjectAt(api.subNamespaces, SubName(parent, name));
    ObjectPut(api.subNamespaces, SubName(parent, name), SubNs(oldSN.spec, false, [FINALIZER], false));
    ok := api.CreateSubNamespace(SubName(parent, name), oldSN.spec);
  }

  /** sub cut. */
  method Cut(api: ApiServer, name: Name) returns (ok: bool)
    requires "" !in api.namespaces
    modifies api`namespaces, api`subNamespaces
    ensures var labels := if name in old(api.namespaces) then Values(old(api.namespaces)[name].labels) else map[];
            if Parent !in labels then
              !ok && api.namespaces == old(api.namespaces) && api.subNamespaces == old(api.subNamespaces)
            else
              Performs(CutPlan(labels[Parent]), name, S.Relabel(labels, S.Cut), ok, api.allowCascadingDeletion,
                       old(api.namespaces), old(api.subNamespaces), api.namespaces, api.subNamespaces)
    ensures OnlyRelabelled(old(api.namespaces), api.namespaces, name, {Parent, Type})
    ensures OnlyNamed(old(api.subNamespaces), api.subNamespaces, name)
    ensures ok ==> HasLabel(api.namespaces, name, Type, "root") && !HasKey(api.namespaces, name, Parent)
  {
    if name !in api.namespaces {
      return false;
    }
    var labels := Values(api.namespaces[name].labels);
    if Parent !in labels {
      return false;
    }
    ok := CutFrom(api, name, labels);
  }

  lemma CutAlone(all: Namespaces, subs: SubNamespaces, name: Name, parent: Name)
    requires WorldOf(all, subs, name).parent == Some(parent)
    ensures var end := Alone(CutPlan(parent), WorldOf(all, subs, name));
            && end.parent == Some("") && end.progress.Finished?
            && end.subs == MarkDeleted(ObjectsNamed(subs, name), parent)
  {
    AloneOther(CutPlan(parent), WorldOf(all, subs, name));
  }

  /** sub cut, once it is clear that there is something to do. */
  method CutFrom(api: ApiServer, name: Name, before: Labels) returns (ok: bool)
    requires "" !in api.namespaces && name in api.namespaces && before == Values(api.namespaces[name].labels)
    requires Parent in before
    modifies api`namespaces, api`subNamespaces
    ensures Performs(CutPlan(before[Parent]), name, S.Relabel(before, S.Cut), ok, api.allowCascadingDeletion,
                     old(api.namespaces), old(api.subNamespaces), api.namespaces, api.subNamespaces)
    ensures OnlyRelabelled(old(api.namespaces), api.namespaces, name, {Parent, Type})
    ensures OnlyNamed(old(api.subNamespaces), api.subNamespaces, name)
    ensures ok ==> HasLabel(api.namespaces, name, Type, "root") && !HasKey(api.namespaces, name, Parent)
  {
    var parent := before[Parent];
    var labels := before;
    labels := labels - {Parent};
    labels := labels[Type := NS_TYPE_ROOT];
    assert labels == S.Relabel(before, S.Cut) && ParentOf(labels) == "";
    assert Parent !in labels && labels[Type] == "root";
    CutAlone(api.namespaces, api.subNamespaces, name, parent);
    ok := Replace(api, name, labels, {Parent, Type});
    if ok {
      assert HasLabel(api.namespaces, name, Type, labels[Type]) && !HasKey(api.namespaces, name, Parent);
      DeleteObject(api, name, parent);
    }
  }

  /** sub graft. */
  method Graft(api: ApiServer, name: Name, parent: Name) returns (ok: bool)
    requires "" !in api.namespaces
    modifies api`namespaces, api`subNamespaces
    ensures if name !in old(api.namespaces) || Parent in old(api.namespaces)[name].labels then
              !ok && api.namespaces == old(api.namespaces) && api.subNamespaces == old(api.subNamespaces)
            else
              Performs(GraftPlan(parent), name,
                       S.Relabel(Values(old(api.namespaces)[name].labels), S.Graft(parent)), ok,
                       api.allowCascadingDeletion, old(api.namespaces), old(api.subNamespaces), api.namespaces,
                       api.subNamespaces)
    ensures OnlyRelabelled(old(api.namespaces), api.namespaces, name, {Parent, Type, Template})
    ensures OnlyNamed(old(api.subNamespaces), api.subNamespaces, name)
    ensures ok ==> HasLabel(api.namespaces, name, Parent, parent)
    ensures ok ==> !HasKey(api.namespaces, name, Type) && !HasKey(api.namespaces, name, Template)
  {
    if name !in api.namespaces || Parent in api.namespaces[name].labels {
      return false;
    }
    var labels := Values(api.namespaces[name].labels);
    AloneOther(GraftPlan(parent), WorldOf(api.namespaces, api.subNamespaces, name));
    labels := labels - {Type, Template};
    labels := labels[Parent := parent];
    ok := Replace(api, name, labels, {Parent, Type, Template});
    if !ok {
      return;
    }
    assert HasLabel(api.namespaces, name, Parent, labels[Parent]);
    assert !HasKey(api.namespaces, name, Type) && !HasKey(api.namespaces, name, Template);
    ObjectAt(api.subNamespaces, SubName(parent, name));
    ObjectPut(api.subNamespaces, SubName(parent, name), SubNs(Spec(map[], map[]), false, [FINALIZER], false));
    ok := api.CreateSubNamespace(SubName(parent, name), Spec(map[], map[]));
  }
}
