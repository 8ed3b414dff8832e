/** Exactly which requests the namespace webhook admits in a forest, and what its denials say. */
module Admission {
  import opened Meta
  import opened Chains
  import opened NamespaceWebhook
  import opened NamespaceForest

  ghost predicate HasSubs(store: Store, n: Name) {
    exists c :: c in store && Parent in store[c] && store[c][Parent] == n
  }

  ghost predicate HasInstances(store: Store, n: Name) {
    exists c :: c in store && Template in store[c] && store[c][Template] == n
  }

  /** A parent label may name another namespace that is a root or a sub-namespace; it does not
      go together with a type or a template label. */
  ghost predicate GoodParent(store: Store, n: Name, labels: Labels) {
    Parent in labels && labels[Parent] != "" ==>
      var p := labels[Parent];
      && p != n && p in store && (IsRoot(store[p]) || IsSub(store[p]))
      && Type !in labels && Template !in labels
  }

  /** A template label may name another namespace that is a template or a sub-namespace. */
  ghost predicate GoodTemplate(store: Store, n: Name, labels: Labels) {
    Template in labels && labels[Template] != "" ==>
      var t := labels[Template];
      t != n && t in store && (TypeOf(store[t]) == NS_TYPE_TEMPLATE || IsSub(store[t]))
  }

  lemma SubsListed(store: Store, n: Name)
    requires n != ""
    ensures SubsOf(store, n) != {} <==> HasSubs(store, n)
    ensures InstancesOf(store, n) != {} <==> HasInstances(store, n)
  {
    if c :| c in store && Parent in store[c] && store[c][Parent] == n { assert c in SubsOf(store, n); }
    if c :| c in store && Template in store[c] && store[c][Template] == n { assert c in InstancesOf(store, n); }
    if SubsOf(store, n) != {} { var c :| c in SubsOf(store, n); assert Parent in store[c]; }
    if InstancesOf(store, n) != {} { var c :| c in InstancesOf(store, n); assert Template in store[c]; }
  }

  /** A namespace with sub-namespaces may have them, one with instances is a template. */
  lemma OnlyHostsHaveChildren(store: Store, n: Name)
    requires Forest(store) && n in store
    ensures HasSubs(store, n) ==> IsRoot(store[n]) || IsSub(store[n])
    ensures HasInstances(store, n) ==> TypeOf(store[n]) == NS_TYPE_TEMPLATE
    ensures IsSub(store[n]) ==> TypeOf(store[n]) == ""
  {
    if c :| c in store && Parent in store[c] && store[c][Parent] == n { assert HasParent(store, c); }
    if c :| c in store && Template in store[c] && store[c][Template] == n { assert HasTemplate(store, c); }
    assert BareSub(store[n]);
  }

  lemma CreateAdmittedIff(store: Store, n: Name, labels: Labels, cascading: bool)
    ensures Accepted(store, Create(n, labels), cascading) <==>
            n != "" && n !in store && GoodParent(store, n, labels) && GoodTemplate(store, n, labels)
  {
  }

  /** An update is admitted in a forest exactly if the chain of sources that starts at the
      namespace comes to an end, its parent and its template are good ones, instances keep
      their template, and sub-namespaces keep a root, or a namespace that had a parent and
      still has a source, above them. */
  lemma UpdateAdmittedIff(store: Store, n: Name, labels: Labels, cascading: bool)
    requires Forest(store) && n in store
    ensures Accepted(store, Update(n, labels), cascading) <==>
            && Ends(SourceLinks(store[n := labels]), n)
            && GoodParent(store, n, labels) && GoodTemplate(store, n, labels)
            && (HasInstances(store, n) ==> TypeOf(labels) == NS_TYPE_TEMPLATE)
            && (HasSubs(store, n) ==> IsRoot(labels) || (IsSub(store[n]) && SourceOf(labels) != ""))
  {
    var links := SourceLinks(store[n := labels]);
    SubsListed(store, n);
    OnlyHostsHaveChildren(store, n);
    WalkDeniesExactly(store, n, labels, store[n]);
    OutcomesExclusive(links, n);
    OutcomesExhaustive(links, n);
    ChecksAgree(store, n, labels);
    CreateChecksAgree(store, n, labels);
  }

  lemma CreateChecksAgree(store: Store, n: Name, labels: Labels)
    ensures HandleCreate(store, n, labels) == Allowed <==>
            GoodParent(store, n, labels) && GoodTemplate(store, n, labels)
  {
  }

  lemma ChecksAgree(store: Store, n: Name, labels: Labels)
    requires Forest(store) && n in store
    ensures CheckChildren(store, n, labels, store[n]) == Allowed <==>
            && (HasInstances(store, n) ==> TypeOf(labels) == NS_TYPE_TEMPLATE)
            && (HasSubs(store, n) ==> IsRoot(labels) || (IsSub(store[n]) && SourceOf(labels) != ""))
  {
    SubsListed(store, n);
    OnlyHostsHaveChildren(store, n);
  }

  /** A deletion is admitted in a forest exactly if the namespace has no instances, and no
      sub-namespaces unless deletions cascade. */
  lemma DeleteAdmittedIff(store: Store, n: Name, cascading: bool)
    requires Forest(store)
    ensures Accepted(store, Delete(n), cascading) <==>
            n in store && !HasInstances(store, n) && (cascading || !HasSubs(store, n))
  {
    if n in store {
      SubsListed(store, n);
      OnlyHostsHaveChildren(store, n);
    }
  }

  /** What a denial claims. */
  ghost predicate Claims(store: Store, n: Name, labels: Labels, reason: Reason) {
    match reason
    case CircularReference =>
      SourceOf(labels) == n || TemplateOf(labels) == n || Repeats(SourceLinks(store[n := labels]), n)
    case ParentDoesNotExist => Leaves(SourceLinks(store[n := labels]), n)
    case SubHasTemplate => IsSub(labels) && Template in labels
    case SubHasType => IsSub(labels) && Type in labels
    case NamespaceDoesNotExist => ParentOf(labels) !in store || TemplateOf(labels) !in store
    case InvalidReference =>
      exists p :: p in store && p != "" && !IsSub(store[p]) &&
        ((p == ParentOf(labels) && !IsRoot(store[p])) ||
         (p == TemplateOf(labels) && TypeOf(store[p]) != NS_TYPE_TEMPLATE))
    case SubNamespacesExist => HasSubs(store, n)
    case InstancesExist => HasInstances(store, n)
    case ChildrenExist => HasSubs(store, n) || HasInstances(store, n)
  }

  lemma CreateDenialsAreTrue(store: Store, n: Name, labels: Labels)
    requires "" !in store
    ensures HandleCreate(store, n, labels).Denied? ==> Claims(store, n, labels, HandleCreate(store, n, labels).reason)
  {
  }

  /** The reason given for a denial is true. */
  lemma DenialsAreTrue(store: Store, n: Name, labels: Labels, before: Labels, cascading: bool)
    requires "" !in store && n != ""
    ensures HandleCreate(store, n, labels).Denied? ==> Claims(store, n, labels, HandleCreate(store, n, labels).reason)
    ensures UpdateDecision(store, n, labels, before).Denied? ==>
              Claims(store, n, labels, UpdateDecision(store, n, labels, before).reason)
    ensures HandleDelete(store, n, before, cascading).Denied? ==>
              Claims(store, n, before, HandleDelete(store, n, before, cascading).reason)
  {
    SubsListed(store, n);
    CreateDenialsAreTrue(store, n, labels);
  }
}
