/** The webhooks for SubNamespace objects (hooks/subnamespace.go), the commands that move
    a namespace to another tree, and what they have to do with the namespace webhook. */
module SubNamespaceWebhook {
  import opened Meta
  import opened Chains
  import N = NamespaceWebhook
  import opened NamespaceForest
  import opened Cluster
  import Admission

  datatype Verdict = Allowed | Denied | Errored

  /** What the naming policies say about a name below a root. */
  datatype PolicyResult = Matches | Mismatches | BadPolicy

  /** Looking upwards for a root; None is the error for a namespace that is not found.
      The original recurses without a bound, so the parent chain has to stop within k steps. */
  function GetRootNamespace(store: Store, name: Name, ghost k: nat): Option<Name>
    requires name in store && Up(ParentLinks(store), name, k) !in store
    decreases k
  {
    if IsRoot(store[name]) then Some(name)
    else if ParentOf(store[name]) !in store then None
    else GetRootNamespace(store, ParentOf(store[name]), k - 1)
  }

  function HandleCreate(store: Store, sn: SubName, metaValid: bool, policy: (Name, Name) -> PolicyResult,
                        ghost k: nat): Verdict
    requires sn.namespace in store ==> Up(ParentLinks(store), sn.namespace, k) !in store
  {
    if sn.namespace !in store then Errored
    else if !CanHaveSubs(store[sn.namespace]) then Denied
    else if !metaValid then Denied
    else match GetRootNamespace(store, sn.namespace, k)
      case None => Denied
      case Some(root) =>
        match policy(sn.name, root)
        case BadPolicy => Errored
        case Mismatches => Denied
        case Matches => Allowed
  }

  function HandleDelete(store: Store, sn: SubName, cascading: bool): Verdict {
    if cascading then Allowed
    else if sn.name !in store then Allowed
    else if ParentOf(store[sn.name]) != sn.namespace then Allowed
    else if SubsOf(store, sn.name) != {} then Denied
    else Allowed
  }

  /** In a forest every walk along parents stops within as many steps as there are namespaces. */
  lemma ParentWalkStops(store: Store, n: Name)
    requires ParentForest(store) && n in store
    ensures Up(ParentLinks(store), n, |store|) == ""
  {
    EndsSoon(ParentLinks(store), n);
    assert ParentLinks(store).Keys == store.Keys;
    assert |ParentLinks(store)| == |ParentLinks(store).Keys| == |store|;
  }

  lemma ParentWalksStop(store: Store)
    requires ParentForest(store)
    ensures forall n | n in store :: Up(ParentLinks(store), n, |store|) !in store
  {
    forall n | n in store ensures Up(ParentLinks(store), n, |store|) !in store { ParentWalkStops(store, n); }
  }

  /** a is m or one of the first k ancestors of m. */
  ghost predicate Above(links: Links, a: Name, m: Name, k: nat)
    decreases k
  {
    m == a || (k > 0 && m in links && Above(links, a, links[m], k - 1))
  }

  /** The root lookup succeeds exactly for roots and sub-namespaces, and what it finds is
      the only root among the namespace and its ancestors. */
  lemma {:induction false} RootIsUnique(store: Store, n: Name, k: nat)
    requires ParentForest(store) && n in store && Up(ParentLinks(store), n, k) == ""
    ensures GetRootNamespace(store, n, k).Some? <==> CanHaveSubs(store[n])
    ensures GetRootNamespace(store, n, k).Some? ==>
              var root := GetRootNamespace(store, n, k).value;
              && root in store && IsRoot(store[root]) && Above(ParentLinks(store), root, n, k)
              && forall a | a in store && IsRoot(store[a]) && Above(ParentLinks(store), a, n, k) :: a == root
    decreases k
  {
    var p := ParentOf(store[n]);
    if IsSub(store[n]) {
      assert HasParent(store, n);
      RootIsUnique(store, p, k - 1);
      forall a | a in store && IsRoot(store[a]) && Above(ParentLinks(store), a, n, k)
        ensures Above(ParentLinks(store), a, p, k - 1)
      {
      }
    } else {
      forall a | a in store && Above(ParentLinks(store), a, n, k) ensures a == n {
        assert Above(ParentLinks(store), a, n, k) ==> a == n || Above(ParentLinks(store), a, "", k - 1);
      }
    }
  }

  /** The root of the tree that n belongs to, if it belongs to one. */
  ghost function RootOf(store: Store, n: Name): Option<Name>
    requires ParentForest(store) && n in store
  {
    ParentWalkStops(store, n);
    GetRootNamespace(store, n, |store|)
  }

  /** The answer to a creation where every walk stops. */
  ghost function CreateAnswer(store: Store, sn: SubName, metaValid: bool, policy: (Name, Name) -> PolicyResult): Verdict
    requires ParentForest(store)
  {
    ParentWalksStop(store);
    HandleCreate(store, sn, metaValid, policy, |store|)
  }

  /** The labels with which a sub-namespace is created. */
  function SubLabels(parent: Name): Labels {
    map[CreatedBy := CREATED_BY, Parent := parent]
  }

  /** For a free name, the SubNamespace webhook admits an object exactly when the namespace
      webhook admits the namespace that will be created for it, the metadata is valid and the
      naming policy matches. */
  lemma CreationAgrees(store: Store, sn: SubName, metaValid: bool, policy: (Name, Name) -> PolicyResult,
                       cascading: bool)
    requires ParentForest(store) && sn.name != "" && sn.name !in store
    ensures CreateAnswer(store, sn, metaValid, policy) == Allowed <==>
            && N.Accepted(store, N.Create(sn.name, SubLabels(sn.namespace)), cascading)
            && sn.namespace in store
            && metaValid
            && RootOf(store, sn.namespace).Some?
            && policy(sn.name, RootOf(store, sn.namespace).value) == Matches
  {
    if sn.namespace in store {
      ParentWalkStops(store, sn.namespace);
      RootIsUnique(store, sn.namespace, |store|);
    }
  }

  /** The webhook fails if the parent is missing or, for a name that would else be judged by the
      policies, if a policy is broken. */
  lemma CreationFailsIff(store: Store, sn: SubName, metaValid: bool, policy: (Name, Name) -> PolicyResult)
    requires ParentForest(store)
    ensures CreateAnswer(store, sn, metaValid, policy) == Errored <==>
            sn.namespace in store ==>
              && (IsRoot(store[sn.namespace]) || IsSub(store[sn.namespace])) && metaValid
              && RootOf(store, sn.namespace).Some?
              && policy(sn.name, RootOf(store, sn.namespace).value) == BadPolicy
  {
  }

  /** A deletion is denied exactly if deletions do not cascade and the namespace is a child of
      the object's namespace and has sub-namespaces itself; it never fails. */
  lemma DeletionDeniedIff(store: Store, sn: SubName, cascading: bool)
    requires sn.name != ""
    ensures HandleDelete(store, sn, cascading) == Denied <==>
            && !cascading && sn.name in store && ParentOf(store[sn.name]) == sn.namespace
            && Admission.HasSubs(store, sn.name)
    ensures HandleDelete(store, sn, cascading) != Errored
  {
    Admission.SubsListed(store, sn.name);
  }

  /** Whenever finalization of the object would delete the namespace, the two webhooks
      answer the two deletions alike. */
  lemma DeletionAgrees(store: Store, sn: SubName, cascading: bool)
    requires WellFormed(store) && sn.namespace != ""
    requires sn.name in store && ParentOf(store[sn.name]) == sn.namespace
    ensures HandleDelete(store, sn, cascading) == Allowed <==>
            N.Accepted(store, N.Delete(sn.name), cascading)
  {
    assert BareSub(store[sn.name]);
  }

  /** The commands that rewrite the labels of a namespace. */
  datatype Command = Move(parent: Name) | Graft(parent: Name) | Cut

  function Relabel(labels: Labels, cmd: Command): Labels {
    match cmd
    case Move(p) => labels[Parent := p]
    case Graft(p) => (labels - {Type, Template})[Parent := p]
    case Cut => (labels - {Parent})[Type := NS_TYPE_ROOT]
  }

  /** A command leaves all labels alone but the few that it is about. */
  lemma RelabelIsLocal(labels: Labels, p: Name, k: MetaKey)
    ensures k != Parent ==> SameAt(labels, Relabel(labels, Move(p)), k)
    ensures k !in {Parent, Type} ==> SameAt(labels, Relabel(labels, Cut), k)
    ensures k !in {Parent, Type, Template} ==> SameAt(labels, Relabel(labels, Graft(p)), k)
    ensures ParentOf(Relabel(labels, Move(p))) == p && Parent in Relabel(labels, Move(p))
    ensures var cut := Relabel(labels, Cut); Parent !in cut && Type in cut && cut[Type] == "root"
    ensures var grafted := Relabel(labels, Graft(p));
            Parent in grafted && grafted[Parent] == p && Type !in grafted && Template !in grafted
  {
  }

  /** Whether the command accepts the labels it finds. */
  predicate Applies(labels: Labels, cmd: Command) {
    match cmd
    case Move(p) => Parent in labels && p != labels[Parent] && p != ""
    case Graft(p) => Parent !in labels && p != ""
    case Cut => Parent in labels
  }

  /** Whoever is not below the relabelled namespace keeps its root. */
  lemma {:induction false} RootUnchanged(store: Store, store': Store, n: Name, m: Name, k: nat, j: nat)
    requires "" !in store && n in store && n in store' && store' == store[n := store'[n]]
    requires m in store && Up(ParentLinks(store), m, k) !in store && Up(ParentLinks(store'), m, j) !in store'
    requires !Above(ParentLinks(store), n, m, k)
    ensures GetRootNamespace(store', m, j) == GetRootNamespace(store, m, k)
    decreases k
  {
    if !IsRoot(store[m]) && ParentOf(store[m]) in store {
      RootUnchanged(store, store', n, ParentOf(store[m]), k - 1, j - 1);
    }
  }

  /** Whoever is below it gets the root it now has. */
  lemma {:induction false} RootFollows(store': Store, n: Name, m: Name, k: nat, j: nat)
    requires ParentForest(store') && n in store' && m in store'
    requires Up(ParentLinks(store'), m, k) == "" && Up(ParentLinks(store'), n, j) == ""
    requires Above(ParentLinks(store'), n, m, k)
    ensures GetRootNamespace(store', m, k) == GetRootNamespace(store', n, j)
    decreases k
  {
    if m == n {
      RootFuel(store', n, k, j);
    } else {
      assert m in ParentLinks(store') && Above(ParentLinks(store'), n, ParentOf(store'[m]), k - 1);
      RootFollows(store', n, ParentOf(store'[m]), k - 1, j);
    }
  }

  lemma {:induction false} RootFuel(store: Store, n: Name, k: nat, j: nat)
    requires n in store && Up(ParentLinks(store), n, k) !in store && Up(ParentLinks(store), n, j) !in store
    ensures GetRootNamespace(store, n, k) == GetRootNamespace(store, n, j)
    decreases k
  {
    if !IsRoot(store[n]) && ParentOf(store[n]) in store {
      RootFuel(store, ParentOf(store[n]), k - 1, j - 1);
    }
  }

  /** Changing the link of n does not change what is below n. */
  lemma {:induction false} AboveRelinked(links: Links, links': Links, n: Name, m: Name, k: nat)
    requires links'.Keys == links.Keys && forall x | x in links && x != n :: links'[x] == links[x]
    ensures Above(links', n, m, k) == Above(links, n, m, k)
    decreases k
  {
    if m != n && k > 0 && m in links {
      AboveRelinked(links, links', n, links[m], k - 1);
    }
  }

  /** The name a finite walk goes to next is not below its start. */
  lemma NextNotBelow(links: Links, n: Name, k: nat)
    requires "" !in links && n in links && Ends(links, n)
    ensures !Above(links, n, links[n], k)
  {
    if Above(links, n, links[n], k) {
      var i := AboveAt(links, n, links[n], k);
      assert Up(links, n, i + 1) == n == Up(links, n, 0);
      assert Revisits(links, n, 0, i + 1);
      OutcomesExclusive(links, n);
    }
  }

  lemma {:induction false} AboveAt(links: Links, a: Name, m: Name, k: nat) returns (i: nat)
    requires Above(links, a, m, k)
    ensures i <= k && Up(links, m, i) == a
    decreases k
  {
    if m == a {
      i := 0;
    } else {
      i := AboveAt(links, a, links[m], k - 1);
      i := i + 1;
    }
  }

  /** An accepted move, graft or cut gives the namespace and everything below it the root of
      the new parent (or, for a cut, the namespace itself), and nobody else another root. */
  lemma CommandChangesRoots(store: Store, n: Name, cmd: Command, m: Name)
    requires ParentForest(store) && n in store && m in store && Applies(store[n], cmd)
    requires N.Accepted(store, N.Update(n, Relabel(store[n], cmd)), false)
    ensures ParentForest(store[n := Relabel(store[n], cmd)])
    ensures cmd != Cut ==> cmd.parent in store
    ensures RootOf(store[n := Relabel(store[n], cmd)], m) ==
            if !Above(ParentLinks(store), n, m, |store|) then RootOf(store, m)
            else if cmd == Cut then Some(n)
            else RootOf(store, cmd.parent)
  {
    var store' := store[n := Relabel(store[n], cmd)];
    var links' := ParentLinks(store');
    UpdateKeepsParentForest(store, n, Relabel(store[n], cmd));
    assert |store'| == |store| by { assert store'.Keys == store.Keys; }
    ParentWalkStops(store, m);
    ParentWalkStops(store', m);
    ParentWalkStops(store', n);
    AboveRelinked(ParentLinks(store), links', n, m, |store|);
    if !Above(ParentLinks(store), n, m, |store|) {
      RootUnchanged(store, store', n, m, |store|, |store|);
    } else {
      RootFollows(store', n, m, |store|, |store|);
      if cmd != Cut {
        assert Ends(links', n);
        NextNotBelow(links', n, |store|);
        AboveRelinked(ParentLinks(store), links', n, cmd.parent, |store|);
        ParentWalkStops(store, cmd.parent);
        RootUnchanged(store, store', n, cmd.parent, |store|, |store| - 1);
      }
    }
  }
}
