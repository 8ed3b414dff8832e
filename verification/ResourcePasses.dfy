/** What repeated reconciliations of a namespace do to its resources. */
module ResourcePasses {
  import opened Meta
  import opened ServerSideApply
  import opened Resources
  import opened Cluster
  import opened PropagateController
  import opened Convergence
  import opened NamespaceController

  /** A copy in update mode, as opposed to an origin. */
  predicate IsCopy(n: Option<Resource>) {
    n.Some? && ModeOf(n.value) == "update" && FromOf(n.value) != ""
  }

  /** After one pass an update-mode source is covered, and every copy that is left has such a
      source and says so. */
  lemma OnePassSyncs(cl: Cloner, parent: Name, p: Option<Resource>, n: Option<Resource>)
    requires parent != "" && !cl.annotationExcluded(Propagate)
    ensures HasMode(p, PROPAGATE_UPDATE) ==>
              && PassAt(cl, parent, p, n).Some?
              && Covers(CloneOf(cl, p.value, parent), PassAt(cl, parent, p, n).value)
    ensures IsCopy(PassAt(cl, parent, p, n)) ==>
              HasMode(p, PROPAGATE_UPDATE) && FromOf(PassAt(cl, parent, p, n).value) == parent
  {
    if HasMode(p, PROPAGATE_UPDATE) {
      var m := CloneOf(cl, p.value, parent);
      SyncWrites(m, CreateMissing(cl, parent, p, n));
      CoveringCopy(cl, p.value, parent, Sync(m, CreateMissing(cl, parent, p, n)));
    }
  }

  /** A pass over a namespace without stale copies changes nothing but what is missing or not
      covered. */
  lemma PassOverSynced(cl: Cloner, parent: Name, p: Option<Resource>, n: Option<Resource>)
    requires parent != "" && !cl.annotationExcluded(Propagate)
    requires HasMode(p, PROPAGATE_UPDATE) ==> n.Some? && Covers(CloneOf(cl, p.value, parent), n.value)
    requires IsCopy(n) ==> HasMode(p, PROPAGATE_UPDATE) && FromOf(n.value) == parent
    ensures PassAt(cl, parent, p, n) == CreateMissing(cl, parent, p, n)
  {
    if HasMode(p, PROPAGATE_UPDATE) {
      SyncWrites(CloneOf(cl, p.value, parent), n);
    } else if HasMode(p, PROPAGATE_CREATE) && n.None? {
      WrittenIsCovered(CloneOf(cl, p.value, parent), p.value);
      CoveringCopy(cl, p.value, parent, Created(CloneOf(cl, p.value, parent)));
    }
  }

  lemma PassOverNothing(cl: Cloner, parent: Name, p: Option<Resource>)
    requires parent != "" && !cl.annotationExcluded(Propagate)
    requires HasMode(p, PROPAGATE_CREATE) || HasMode(p, PROPAGATE_UPDATE)
    ensures PassAt(cl, parent, p, None) == Some(Created(CloneOf(cl, p.value, parent)))
  {
    WrittenIsCovered(CloneOf(cl, p.value, parent), p.value);
    CoveringCopy(cl, p.value, parent, Created(CloneOf(cl, p.value, parent)));
  }

  lemma PassOverSomething(cl: Cloner, parent: Name, p: Resource, n: Resource)
    requires parent != "" && !cl.annotationExcluded(Propagate) && ModeOf(p) == PROPAGATE_UPDATE
    ensures var m := CloneOf(cl, p, parent);
            && PassAt(cl, parent, Some(p), Some(n)) == Some(Sync(m, Some(n)))
            && Covers(m, Sync(m, Some(n)))
            && ModeOf(Sync(m, Some(n))) == "update" && FromOf(Sync(m, Some(n))) == parent
  {
    var m := CloneOf(cl, p, parent);
    SyncWrites(m, Some(n));
    CoveringCopy(cl, p, parent, Sync(m, Some(n)));
  }

  /** Where there was nothing, a pass leaves a copy of a source in either mode: it has exactly the
      labels, annotations and contents of the source that are not excluded, and the marks of
      where it comes from. */
  lemma NewCopyHas(cl: Cloner, parent: Name, p: Option<Resource>, k: MetaKey, b: string)
    requires parent != "" && !cl.annotationExcluded(Propagate)
    requires HasMode(p, PROPAGATE_CREATE) || HasMode(p, PROPAGATE_UPDATE)
    ensures var r := PassAt(cl, parent, p, None);
            && r.Some?
            && ValueAt(r.value.labels, k) == (if k == CreatedBy then Some("accurate")
                                              else if cl.labelExcluded(k) then None else ValueAt(p.value.labels, k))
            && ValueAt(r.value.annotations, k) ==
               (if k == From then Some(parent)
                else if cl.annotationExcluded(k) then None else ValueAt(p.value.annotations, k))
            && ValueAt(r.value.body, b) ==
               (if cl.serviceAccount && b == "secrets" then None else ValueAt(p.value.body, b))
  {
    var m := CloneOf(cl, p.value, parent);
    PassOverNothing(cl, parent, p);
    CloneHas(cl, p.value, parent, k, b);
    CreatedHas(m, m, k, b);
  }

  /** Where there was something, a pass leaves it alone if it covers an update-mode source, and
      else applies a clone of the source to it: all that is not excluded arrives. */
  lemma OldCopyHas(cl: Cloner, parent: Name, p: Resource, n: Resource, k: MetaKey, b: string)
    requires parent != "" && !cl.annotationExcluded(Propagate) && ModeOf(p) == PROPAGATE_UPDATE
    ensures var r := PassAt(cl, parent, Some(p), Some(n));
            && r.Some? && ModeOf(r.value) == "update" && FromOf(r.value) == parent
            && ValueAt(r.value.labels, CreatedBy) == Some("accurate")
            && (k in p.labels && !cl.labelExcluded(k) && k != CreatedBy ==> Arrived(p.labels[k], r.value.labels, k))
            && (k in p.annotations && !cl.annotationExcluded(k) && k != From ==>
                  Arrived(p.annotations[k], r.value.annotations, k))
            && (b in p.body && !(cl.serviceAccount && b == "secrets") ==> Arrived(p.body[b], r.value.body, b))
  {
    var m := CloneOf(cl, p, parent);
    PassOverSomething(cl, parent, p, n);
    CloneHas(cl, p, parent, k, b);
    assert m.labels[CreatedBy] == CREATED_BY;
  }

  /** What somebody else has set is still there. */
  predicate Spared<K>(before: Fields<K>, after: Fields<K>, k: K) {
    k in before && Other in before[k].owners ==> ValueAt(after, k) == ValueAt(before, k)
  }

  /** And what others have added that the clone does not have stays, as does the status. */
  lemma OthersAreSpared(cl: Cloner, parent: Name, p: Resource, n: Resource, k: MetaKey, b: string)
    requires parent != "" && !cl.annotationExcluded(Propagate) && ModeOf(p) == PROPAGATE_UPDATE
    ensures var r := PassAt(cl, parent, Some(p), Some(n));
            && r.Some? && r.value.status == n.status
            && (k != CreatedBy && (k !in p.labels || cl.labelExcluded(k)) ==> Spared(n.labels, r.value.labels, k))
            && (k != From && (k !in p.annotations || cl.annotationExcluded(k)) ==>
                  Spared(n.annotations, r.value.annotations, k))
            && (b !in p.body || (cl.serviceAccount && b == "secrets") ==> Spared(n.body, r.value.body, b))
  {
    var m := CloneOf(cl, p, parent);
    PassOverSomething(cl, parent, p, n);
    CloneHas(cl, p, parent, k, b);
    AppliedHas(n, m, k, b);
    assert {Other} != {Accurate};
  }

  /** Nothing else changes: where there is no source in either mode, or one in create mode with
      something of its name below it, all stays but copies. */
  lemma OthersStay(cl: Cloner, parent: Name, p: Option<Resource>, n: Option<Resource>)
    requires !HasMode(p, PROPAGATE_UPDATE) && (HasMode(p, PROPAGATE_CREATE) ==> n.Some?)
    ensures PassAt(cl, parent, p, n) == if IsCopy(n) then None else n
  {
  }

  /** The reconciliation of a namespace is a pass over its resources with its source as parent;
      without a source, copies go; and if the source is missing nothing is done. */
  lemma ReconciliationIsPass(cl: Cloner, cfg: Config, subs: SubNamespaces, namespaces: Namespaces, all: Stored,
                             kind: string, n: Name, x: Name)
    requires n in namespaces && "" !in namespaces && NoEmptyReferences(LabelsOf(namespaces))
    ensures var s := SourceOf(LabelsOf(namespaces)[n]);
            var before, after := At(all, kind, n, x), ResourceReconciled(cl, namespaces, all, kind, n, x);
            && (s in namespaces ==> after == PassAt(cl, s, At(all, kind, s, x), before))
            && (s == "" ==> after == if IsCopy(before) then None else before)
            && (s != "" && s !in namespaces ==>
                  after == before && MetaReconciled(cfg, subs, namespaces, n) == namespaces)
  {
    assert LabelsOf(namespaces)[n] == Values(namespaces[n].labels);
  }

  /** A second pass changes something exactly where a stale copy was in the way of a
      create-mode source; after it every create-mode source has its copy, and a third pass
      changes nothing. */
  lemma TwoPassesSettle(cl: Cloner, parent: Name, p: Option<Resource>, n: Option<Resource>)
    requires parent != "" && !cl.annotationExcluded(Propagate)
    ensures var once := PassAt(cl, parent, p, n);
            var twice := PassAt(cl, parent, p, once);
            && (twice == once <==> !(HasMode(p, PROPAGATE_CREATE) && IsCopy(n)))
            && (HasMode(p, PROPAGATE_CREATE) ==> twice.Some?)
            && PassAt(cl, parent, p, twice) == twice
  {
    var once := PassAt(cl, parent, p, n);
    OnePassSyncs(cl, parent, p, n);
    PassOverSynced(cl, parent, p, once);
    var twice := PassAt(cl, parent, p, once);
    OnePassSyncs(cl, parent, p, once);
    PassOverSynced(cl, parent, p, twice);
    if HasMode(p, PROPAGATE_CREATE) && n.None? {
      WrittenIsCovered(CloneOf(cl, p.value, parent), p.value);
      CoveringCopy(cl, p.value, parent, Created(CloneOf(cl, p.value, parent)));
    }
  }

  /** A reconciliation deletes a resource only if it is an update-mode copy that came from
      somewhere, and always then if the namespace has neither parent nor template; whatever
      else is there stays, and stays as it is unless an update-mode source overwrites it. */
  lemma OnlyCopiesAreDeleted(cl: Cloner, namespaces: Namespaces, all: Stored, kind: string, n: Name, x: Name)
    requires n in namespaces && At(all, kind, n, x).Some? && !cl.annotationExcluded(Propagate)
    requires ReconcileSource(Values(namespaces[n].labels)) != Some("")
    ensures var before := At(all, kind, n, x);
            var after := ResourceReconciled(cl, namespaces, all, kind, n, x);
            var isCopy := HasMode(before, PROPAGATE_UPDATE) && FromOf(before.value) != "";
            && (after.None? ==> isCopy)
            && (ReconcileSource(Values(namespaces[n].labels)).None? ==> (after.None? <==> isCopy))
            && (after.Some? && after != before ==>
                  var p := ReconcileSource(Values(namespaces[n].labels));
                  p.Some? && HasMode(At(all, kind, p.value, x), PROPAGATE_UPDATE))
  {
    var p := ReconcileSource(Values(namespaces[n].labels));
    if p.Some? && p.value in namespaces {
      OnePassSyncs(cl, p.value, At(all, kind, p.value, x), At(all, kind, n, x));
    }
  }
}
