/** Labels and annotations of namespaces after the whole forest has been reconciled, parents
    before children. */
module Inheritance {
  import opened Meta
  import opened Chains
  import opened ServerSideApply
  import opened Cluster
  import opened NamespaceWebhook
  import opened NamespaceForest
  import opened Convergence
  import opened NamespaceController

  /** No configured pattern matches a label that the forest is made of. */
  predicate CleanConfig(cfg: Config) {
    forall k | k in {Type, Parent, Template} :: !cfg.labelKey(k) && !cfg.subLabelKey(k)
  }

  /** The same type, parent and template. */
  predicate SameCore(a: Labels, b: Labels) {
    SameAt(a, b, Type) && SameAt(a, b, Parent) && SameAt(a, b, Template)
  }

  /** Accurate never applies type and template labels, so it does not own them. */
  predicate CoreNotApplied(ns: Namespace) {
    (Type in ns.labels ==> Accurate !in ns.labels[Type].owners) &&
    (Template in ns.labels ==> Accurate !in ns.labels[Template].owners)
  }

  ghost predicate Ready(all: Namespaces) {
    && Forest(LabelsOf(all))
    && NoEmptyReferences(LabelsOf(all))
    && forall n | n in all :: CoreNotApplied(all[n])
  }

  function Source(all: Namespaces, n: Name): Name
    requires n in all
  {
    SourceOf(Values(all[n].labels))
  }

  lemma InheritKeepsCore(cfg: Config, subs: SubNamespaces, c: Name, ns: Namespace, parent: Name, from: Namespace)
    requires CleanConfig(cfg) && CoreNotApplied(ns)
    requires Parent in ns.labels ==> ns.labels[Parent].value == parent
    ensures var r := Inherit(cfg, subs, c, ns, parent, from);
            SameCore(Values(ns.labels), Values(r.labels)) && CoreNotApplied(r)
  {
    var want := WantedLabels(cfg, Parent in ns.labels, SpecOf(subs, parent, c), parent, Values(from.labels));
    assert Type !in want && Template !in want && (Parent in want <==> Parent in ns.labels);
    assert {Accurate} != {Other};
    forall k | k in {Type, Template} && k in ns.labels ensures ns.labels[k].owners != {Accurate} {
      assert Accurate !in ns.labels[k].owners;
    }
  }

  /** Stores that agree on the three labels everywhere. */
  ghost predicate SameCores(s: Store, s': Store) {
    s.Keys == s'.Keys && forall n | n in s :: SameCore(s[n], s'[n])
  }

  lemma SameCoreReads(a: Labels, b: Labels)
    requires SameCore(a, b)
    ensures TypeOf(a) == TypeOf(b) && ParentOf(a) == ParentOf(b) && TemplateOf(a) == TemplateOf(b)
    ensures BareSub(a) == BareSub(b) && ReconcileSource(a) == ReconcileSource(b)
  {
  }

  /** The forest is a matter of the three labels. */
  lemma SameCoresSameForest(s: Store, s': Store)
    requires Forest(s) && NoEmptyReferences(s) && SameCores(s, s')
    ensures Forest(s') && NoEmptyReferences(s')
  {
    forall n | n in s ensures
        TypeOf(s[n]) == TypeOf(s'[n]) && ParentOf(s[n]) == ParentOf(s'[n]) && TemplateOf(s[n]) == TemplateOf(s'[n]) &&
        BareSub(s[n]) == BareSub(s'[n])
    {
      SameCoreReads(s[n], s'[n]);
    }
    assert ParentLinks(s') == ParentLinks(s);
    assert TemplateLinks(s') == TemplateLinks(s);
    assert ParentsValid(s') by {
      forall n | n in s' && IsSub(s'[n])
        ensures HasParent(s', n)
      {
        assert HasParent(s, n);
      }
    }
    assert TemplatesValid(s') by {
      forall n | n in s' && TemplateOf(s'[n]) != ""
        ensures HasTemplate(s', n)
      {
        assert HasTemplate(s, n);
      }
    }
  }

  lemma SameCoresSameLists(s: Store, s': Store, p: Name)
    requires SameCores(s, s')
    ensures SubsOf(s', p) == SubsOf(s, p) && InstancesOf(s', p) == InstancesOf(s, p)
  {
    forall n | n in s ensures ParentOf(s[n]) == ParentOf(s'[n]) && TemplateOf(s[n]) == TemplateOf(s'[n]) {
      SameCoreReads(s[n], s'[n]);
    }
  }

  /** Namespace c after a reconciliation of n, in terms of the forest. */
  function StepAt(cfg: Config, subs: SubNamespaces, all: Namespaces, n: Name, c: Name): Namespace
    requires n in all && c in all && (Source(all, c) == "" || Source(all, c) in all)
  {
    var p := Source(all, c);
    if p != "" && (c == n || p == n) then Inherit(cfg, subs, c, all[c], p, all[p]) else all[c]
  }

  lemma SourceExists(all: Namespaces, n: Name)
    requires Ready(all) && n in all
    ensures Source(all, n) == "" || Source(all, n) in all
    ensures Source(all, n) != n || n == ""
    ensures ReconcileSource(Values(all[n].labels)) == if Source(all, n) == "" then None else Some(Source(all, n))
    ensures Parent in all[n].labels ==> all[n].labels[Parent].value == Source(all, n)
  {
    var store := LabelsOf(all);
    ForestIsAcyclic(store);
    SourceIsAnother(store, n);
    assert store[n] == Values(all[n].labels);
  }

  /** A namespace pushes to exactly the namespaces whose source it is. */
  lemma PushesToChildren(store: Store, n: Name, c: Name)
    requires Forest(store) && NoEmptyReferences(store) && n in store
    ensures c in PushTargets(store, n, store[n]) <==> c in store && SourceOf(store[c]) == n
  {
    ChildrenAreSourced(store, n, c);
    assert BareSub(store[n]);
    if c in store {
      assert BareSub(store[c]);
      assert HasParent(store, c) || !IsSub(store[c]);
      assert HasTemplate(store, c) || TemplateOf(store[c]) == "";
    }
  }

  lemma StepKeepsCore(cfg: Config, subs: SubNamespaces, all: Namespaces, n: Name, c: Name)
    requires Ready(all) && CleanConfig(cfg) && n in all && c in all
    requires Source(all, c) == "" || Source(all, c) in all
    ensures SameCore(Values(all[c].labels), Values(StepAt(cfg, subs, all, n, c).labels))
    ensures CoreNotApplied(StepAt(cfg, subs, all, n, c))
  {
    SourceExists(all, c);
    if Source(all, c) != "" {
      InheritKeepsCore(cfg, subs, c, all[c], Source(all, c), all[Source(all, c)]);
    }
  }

  lemma PullShape(cfg: Config, subs: SubNamespaces, all: Namespaces, n: Name)
    requires Ready(all) && CleanConfig(cfg) && n in all
    ensures Source(all, n) == "" || Source(all, n) in all
    ensures Pulled(cfg, subs, all, n) == all[n := StepAt(cfg, subs, all, n, n)]
    ensures SameCores(LabelsOf(all), LabelsOf(Pulled(cfg, subs, all, n)))
  {
    SourceExists(all, n);
    StepKeepsCore(cfg, subs, all, n, n);
    OneChanged(all, n, StepAt(cfg, subs, all, n, n));
  }

  lemma PushListsSame(cfg: Config, subs: SubNamespaces, all: Namespaces, n: Name)
    requires Ready(all) && CleanConfig(cfg) && n in all
    ensures var labels := Values(all[n].labels);
            PushTargets(LabelsOf(Pulled(cfg, subs, all, n)), n, labels) == PushTargets(LabelsOf(all), n, labels)
  {
    PullShape(cfg, subs, all, n);
    SameCoresSameLists(LabelsOf(all), LabelsOf(Pulled(cfg, subs, all, n)), n);
  }

  lemma OneChanged(all: Namespaces, n: Name, ns: Namespace)
    requires n in all && SameCore(Values(all[n].labels), Values(ns.labels))
    ensures SameCores(LabelsOf(all), LabelsOf(all[n := ns]))
  {
  }

  /** What n pushes to is what has n as its source. */
  lemma PushTargetsAre(cfg: Config, subs: SubNamespaces, all: Namespaces, n: Name, c: Name)
    requires Ready(all) && CleanConfig(cfg) && n in all && c in all
    ensures c in PushTargets(LabelsOf(Pulled(cfg, subs, all, n)), n, Values(all[n].labels)) <==> Source(all, c) == n
  {
    PushListsSame(cfg, subs, all, n);
    PushesToChildren(LabelsOf(all), n, c);
  }

  lemma ReconciledIsPushed(cfg: Config, subs: SubNamespaces, all: Namespaces, n: Name)
    requires Ready(all) && n in all
    ensures var pulled := Pulled(cfg, subs, all, n);
            var targets := PushTargets(LabelsOf(pulled), n, Values(all[n].labels));
            MetaReconciled(cfg, subs, all, n) == InheritAll(cfg, subs, pulled, targets, n, all[n])
  {
    SourceExists(all, n);
  }

  lemma InheritAllAt(cfg: Config, subs: SubNamespaces, all: Namespaces, cs: set<Name>, parent: Name, from: Namespace,
                     c: Name)
    requires c in all
    ensures var r := InheritAll(cfg, subs, all, cs, parent, from);
            && r.Keys == all.Keys
            && (c in cs ==> r[c] == Inherit(cfg, subs, c, all[c], parent, from))
            && (c !in cs ==> r[c] == all[c])
  {
  }

  lemma StepKeys(cfg: Config, subs: SubNamespaces, all: Namespaces, n: Name)
    requires Ready(all) && CleanConfig(cfg) && n in all
    ensures MetaReconciled(cfg, subs, all, n).Keys == all.Keys
    ensures forall c | c in all :: Source(all, c) == "" || Source(all, c) in all
  {
    PullShape(cfg, subs, all, n);
    ReconciledIsPushed(cfg, subs, all, n);
    forall c | c in all ensures Source(all, c) == "" || Source(all, c) in all { SourceExists(all, c); }
  }

  lemma StepElsewhere(cfg: Config, subs: SubNamespaces, all: Namespaces, n: Name, c: Name)
    requires Ready(all) && CleanConfig(cfg) && n in all && c in all && c != n
    requires MetaReconciled(cfg, subs, all, n).Keys == all.Keys
    ensures MetaReconciled(cfg, subs, all, n)[c] ==
            if Source(all, c) == n then Inherit(cfg, subs, c, all[c], n, all[n]) else all[c]
  {
    PullShape(cfg, subs, all, n);
    PushTargetsAre(cfg, subs, all, n, c);
    ReconciledIsPushed(cfg, subs, all, n);
    var pulled := Pulled(cfg, subs, all, n);
    assert pulled[c] == all[c];
    InheritAllAt(cfg, subs, pulled, PushTargets(LabelsOf(pulled), n, Values(all[n].labels)), n, all[n], c);
  }

  lemma StepAtItself(cfg: Config, subs: SubNamespaces, all: Namespaces, n: Name)
    requires Ready(all) && CleanConfig(cfg) && n in all
    requires MetaReconciled(cfg, subs, all, n).Keys == all.Keys
    requires Source(all, n) == "" || Source(all, n) in all
    ensures MetaReconciled(cfg, subs, all, n)[n] == StepAt(cfg, subs, all, n, n)
  {
    SourceExists(all, n);
    PullShape(cfg, subs, all, n);
    PushTargetsAre(cfg, subs, all, n, n);
    ReconciledIsPushed(cfg, subs, all, n);
    var pulled := Pulled(cfg, subs, all, n);
    InheritAllAt(cfg, subs, pulled, PushTargets(LabelsOf(pulled), n, Values(all[n].labels)), n, all[n], n);
  }

  /** A reconciliation touches the namespace and those below it, as StepAt says, although what
      it pushes was read before it pulled. */
  lemma StepShape(cfg: Config, subs: SubNamespaces, all: Namespaces, n: Name, c: Name)
    requires Ready(all) && CleanConfig(cfg) && n in all && c in all
    ensures MetaReconciled(cfg, subs, all, n).Keys == all.Keys
    ensures Source(all, c) == "" || Source(all, c) in all
    ensures MetaReconciled(cfg, subs, all, n)[c] == StepAt(cfg, subs, all, n, c)
  {
    StepKeys(cfg, subs, all, n);
    if c == n {
      StepAtItself(cfg, subs, all, n);
    } else {
      NoEmptyName(all);
      StepElsewhere(cfg, subs, all, n, c);
    }
  }

  lemma NoEmptyName(all: Namespaces)
    requires Ready(all)
    ensures "" !in all
  {
    assert "" !in LabelsOf(all);
  }

  lemma StepKeepsReady(cfg: Config, subs: SubNamespaces, all: Namespaces, n: Name)
    requires Ready(all) && CleanConfig(cfg) && n in all
    ensures var all' := MetaReconciled(cfg, subs, all, n);
            Ready(all') && SameCores(LabelsOf(all), LabelsOf(all'))
  {
    var all' := MetaReconciled(cfg, subs, all, n);
    StepShape(cfg, subs, all, n, n);
    forall c | c in all
      ensures SameCore(LabelsOf(all)[c], LabelsOf(all')[c]) && CoreNotApplied(all'[c])
    {
      StepShape(cfg, subs, all, n, c);
      StepKeepsCore(cfg, subs, all, n, c);
    }
    SameCoresSameForest(LabelsOf(all), LabelsOf(all'));
  }

  /** A run of reconciliations: states[i + 1] is states[i] after reconciling order[i]. */
  ghost predicate IsPass(cfg: Config, subs: SubNamespaces, states: seq<Namespaces>, order: seq<Name>) {
    && |states| == |order| + 1
    && Ready(states[0]) && CleanConfig(cfg)
    && forall i | 0 <= i < |order| :: IsStep(cfg, subs, states, order, i)
  }

  ghost predicate IsStep(cfg: Config, subs: SubNamespaces, states: seq<Namespaces>, order: seq<Name>, i: int)
    requires |states| == |order| + 1 && 0 <= i < |order|
  {
    order[i] in states[i] && states[i + 1] == MetaReconciled(cfg, subs, states[i], order[i])
  }

  /** What stays the same from one state to another. */
  ghost predicate SameShape(all: Namespaces, now: Namespaces) {
    Ready(now) && SameCores(LabelsOf(all), LabelsOf(now)) && now.Keys == all.Keys
  }

  lemma {:induction false} ShapeStays(cfg: Config, subs: SubNamespaces, states: seq<Namespaces>, order: seq<Name>,
                                      i: nat)
    requires IsPass(cfg, subs, states, order) && i < |states|
    ensures SameShape(states[0], states[i])
  {
    if i > 0 {
      ShapeStays(cfg, subs, states, order, i - 1);
      assert IsStep(cfg, subs, states, order, i - 1);
      StepKeepsShape(cfg, subs, states[0], states[i - 1], order[i - 1]);
    }
  }

  lemma StepKeepsShape(cfg: Config, subs: SubNamespaces, all: Namespaces, prev: Namespaces, n: Name)
    requires SameShape(all, prev) && CleanConfig(cfg) && n in prev
    ensures SameShape(all, MetaReconciled(cfg, subs, prev, n))
  {
    StepKeepsReady(cfg, subs, prev, n);
    StepShape(cfg, subs, prev, n, n);
    SameCoresChain(LabelsOf(all), LabelsOf(prev), LabelsOf(MetaReconciled(cfg, subs, prev, n)));
  }

  lemma SameCoresChain(a: Store, b: Store, c: Store)
    requires SameCores(a, b) && SameCores(b, c)
    ensures SameCores(a, c)
  {
    forall n | n in a ensures SameCore(a[n], c[n]) {
      assert SameCore(a[n], b[n]) && SameCore(b[n], c[n]);
    }
  }

  lemma SourceStays(all: Namespaces, now: Namespaces, c: Name)
    requires SameShape(all, now) && c in all
    ensures Source(now, c) == Source(all, c) && (Parent in now[c].labels <==> Parent in all[c].labels)
    ensures Source(all, c) == "" || Source(all, c) in all
  {
    SourceExists(now, c);
    assert SameCore(LabelsOf(all)[c], LabelsOf(now)[c]);
    SameCoreReads(LabelsOf(all)[c], LabelsOf(now)[c]);
    assert LabelsOf(now)[c] == Values(now[c].labels);
    assert LabelsOf(all)[c] == Values(all[c].labels);
  }

  /** The i-th reconciliation as seen from namespace c. */
  lemma PassStep(cfg: Config, subs: SubNamespaces, states: seq<Namespaces>, order: seq<Name>, i: nat, c: Name)
    requires IsPass(cfg, subs, states, order) && i < |order| && c in states[0]
    ensures c in states[i] && c in states[i + 1] && order[i] in states[i]
    ensures Source(states[i], c) == Source(states[0], c)
    ensures Source(states[i], c) == "" || Source(states[i], c) in states[i]
    ensures states[i + 1][c] == StepAt(cfg, subs, states[i], order[i], c)
  {
    ShapeStays(cfg, subs, states, order, i);
    SourceStays(states[0], states[i], c);
    assert IsStep(cfg, subs, states, order, i);
    StepShape(cfg, subs, states[i], order[i], c);
  }

  ghost predicate SameIn(a: Namespaces, b: Namespaces, c: Name) {
    c in a && c in b && a[c] == b[c]
  }

  lemma NotReconciled(cfg: Config, subs: SubNamespaces, states: seq<Namespaces>, order: seq<Name>, i: nat, c: Name)
    requires IsPass(cfg, subs, states, order) && i < |order| && c in states[0]
    requires order[i] != c && order[i] != Source(states[0], c)
    ensures SameIn(states[i], states[i + 1], c)
  {
    PassStep(cfg, subs, states, order, i, c);
  }

  /** A namespace is not touched while neither it nor its source is reconciled. */
  lemma {:induction false} Untouched(cfg: Config, subs: SubNamespaces, states: seq<Namespaces>, order: seq<Name>,
                                     c: Name, i: nat, j: nat)
    requires IsPass(cfg, subs, states, order) && i <= j <= |order| && c in states[0]
    requires forall t | i <= t < j :: order[t] != c && order[t] != Source(states[0], c)
    ensures SameIn(states[i], states[j], c)
    decreases j
  {
    if i < j {
      Untouched(cfg, subs, states, order, c, i, j - 1);
      NotReconciled(cfg, subs, states, order, j - 1, c);
    } else {
      ShapeStays(cfg, subs, states, order, i);
    }
  }

  /** Every namespace once, sources first. */
  ghost predicate SourcesFirst(all: Namespaces, order: seq<Name>) {
    && (forall n | n in all :: n in order)
    && (forall i, j | 0 <= i < j < |order| :: order[i] != order[j])
    && (forall i, j | 0 <= i < |order| && 0 <= j < |order| && order[j] in all && order[i] == Source(all, order[j]) ::
          i < j)
  }

  ghost function IndexOf(order: seq<Name>, n: Name): nat
    requires n in order
    ensures IndexOf(order, n) < |order| && order[IndexOf(order, n)] == n
  {
    var i :| 0 <= i < |order| && order[i] == n; i
  }

  /** When the turn of c has come its source is finished. */
  lemma SourceDone(cfg: Config, subs: SubNamespaces, states: seq<Namespaces>, order: seq<Name>, c: Name, j: nat)
    requires IsPass(cfg, subs, states, order) && SourcesFirst(states[0], order)
    requires j < |order| && order[j] == c && c in states[0] && Source(states[0], c) in states[0]
    ensures SameIn(states[j], states[|order|], Source(states[0], c))
  {
    var p := Source(states[0], c);
    var i := IndexOf(order, p);
    Untouched(cfg, subs, states, order, p, j, |order|);
  }

  /** A namespace without a source is never touched. */
  lemma {:induction false} TopStays(cfg: Config, subs: SubNamespaces, states: seq<Namespaces>, order: seq<Name>,
                                    c: Name, i: nat)
    requires IsPass(cfg, subs, states, order) && i <= |order|
    requires c in states[0] && Source(states[0], c) == ""
    ensures SameIn(states[0], states[i], c)
  {
    if i > 0 {
      TopStays(cfg, subs, states, order, c, i - 1);
      PassStep(cfg, subs, states, order, i - 1, c);
    }
  }

  lemma FirstInheritKeepsParentLabel(cfg: Config, subs: SubNamespaces, c: Name, all: Namespaces, from: Namespace)
    requires CleanConfig(cfg) && Ready(all) && c in all
    ensures Parent in Inherit(cfg, subs, c, all[c], Source(all, c), from).labels <==> Parent in all[c].labels
  {
    SourceExists(all, c);
    InheritKeepsCore(cfg, subs, c, all[c], Source(all, c), from);
    SameCoreKeys(Values(all[c].labels), Values(Inherit(cfg, subs, c, all[c], Source(all, c), from).labels));
  }

  lemma SameCoreKeys(a: Labels, b: Labels)
    requires SameCore(a, b)
    ensures Parent in a <==> Parent in b
  {
  }

  lemma InheritTwice(cfg: Config, subs: SubNamespaces, c: Name, ns: Namespace, parent: Name, from: Namespace)
    requires var r := Inherit(cfg, subs, c, ns, parent, from);
             Parent in r.labels <==> Parent in ns.labels
    ensures var r := Inherit(cfg, subs, c, ns, parent, from);
            Inherit(cfg, subs, c, r, parent, from) == r
  {
    var isSub := Parent in ns.labels;
    var spec := SpecOf(subs, parent, c);
    ApplyTwice(ns.labels, WantedLabels(cfg, isSub, spec, parent, Values(from.labels)));
    ApplyTwice(ns.annotations, WantedAnnotations(cfg, isSub, spec, Values(from.annotations)));
  }

  /** Going from source to source, at most k steps lead from c to a namespace without one. */
  ghost predicate TopWithin(all: Namespaces, c: Name, k: nat)
    decreases k
  {
    c in all && (Source(all, c) == "" || (k > 0 && TopWithin(all, Source(all, c), k - 1)))
  }

  lemma {:induction false} WalkLeadsToTop(all: Namespaces, c: Name, k: nat)
    requires Ready(all) && c in all && Up(SourceLinks(LabelsOf(all)), c, k) == ""
    ensures TopWithin(all, c, k)
    decreases k
  {
    NoEmptyName(all);
    SourceExists(all, c);
    assert SourceLinks(LabelsOf(all))[c] == Source(all, c);
    if Source(all, c) != "" { WalkLeadsToTop(all, Source(all, c), k - 1); }
  }

  lemma DistanceToTop(all: Namespaces, c: Name) returns (k: nat)
    requires Ready(all) && c in all
    ensures TopWithin(all, c, k)
  {
    ForestIsAcyclic(LabelsOf(all));
    assert Ends(SourceLinks(LabelsOf(all)), c);
    k :| Up(SourceLinks(LabelsOf(all)), c, k) == "";
    WalkLeadsToTop(all, c, k);
  }

  /** What a pass does to a namespace c with source p: when the turn of p comes, p pushes what
      it has then, and when the turn of c comes, c pulls from the finished p. */
  lemma Turns(cfg: Config, subs: SubNamespaces, states: seq<Namespaces>, order: seq<Name>, c: Name)
    requires IsPass(cfg, subs, states, order) && SourcesFirst(states[0], order)
    requires c in states[0] && Source(states[0], c) != ""
    ensures var p, final := Source(states[0], c), states[|order|];
            && p in states[0] && p in order && p in states[IndexOf(order, p)] && p in final
            && c in order && c in states[IndexOf(order, c)] && c in final
            && states[IndexOf(order, c)][c] == Inherit(cfg, subs, c, states[0][c], p, states[IndexOf(order, p)][p])
            && final[c] == Inherit(cfg, subs, c, states[IndexOf(order, c)][c], p, final[p])
  {
    var p := Source(states[0], c);
    SourceExists(states[0], c);
    var i, j := IndexOf(order, p), IndexOf(order, c);
    assert i < j;
    Untouched(cfg, subs, states, order, c, 0, i);
    PassStep(cfg, subs, states, order, i, c);
    Untouched(cfg, subs, states, order, c, i + 1, j);
    PassStep(cfg, subs, states, order, j, c);
    Untouched(cfg, subs, states, order, c, j + 1, |order|);
    SourceDone(cfg, subs, states, order, c, j);
  }

  lemma TurnChangesNothing(cfg: Config, subs: SubNamespaces, states: seq<Namespaces>, order: seq<Name>, c: Name)
    requires IsPass(cfg, subs, states, order) && SourcesFirst(states[0], order)
    requires c in states[0] && Source(states[0], c) != "" && Source(states[0], c) in order
    requires var p := Source(states[0], c); SameIn(states[IndexOf(order, p)], states[|order|], p)
    ensures c in order && SameIn(states[IndexOf(order, c)], states[|order|], c)
  {
    var p := Source(states[0], c);
    Turns(cfg, subs, states, order, c);
    FirstInheritKeepsParentLabel(cfg, subs, c, states[0], states[|order|][p]);
    InheritTwice(cfg, subs, c, states[0][c], p, states[|order|][p]);
  }

  /** When its turn comes, a namespace is what it will be in the end: it has got everything from
      its source already, so that what it pushes before it pulls is not out of date. */
  lemma {:induction false} TurnIsFinal(cfg: Config, subs: SubNamespaces, states: seq<Namespaces>, order: seq<Name>,
                                       c: Name, k: nat)
    requires IsPass(cfg, subs, states, order) && SourcesFirst(states[0], order)
    requires TopWithin(states[0], c, k)
    ensures c in order && SameIn(states[IndexOf(order, c)], states[|order|], c)
    decreases k
  {
    var p := Source(states[0], c);
    if p == "" {
      TopStays(cfg, subs, states, order, c, IndexOf(order, c));
      TopStays(cfg, subs, states, order, c, |order|);
    } else {
      TurnIsFinal(cfg, subs, states, order, p, k - 1);
      TurnChangesNothing(cfg, subs, states, order, c);
    }
  }

  /** A namespace has inherited once, from its source as that is in the end. */
  ghost predicate InheritedOnce(cfg: Config, subs: SubNamespaces, all: Namespaces, final: Namespaces, c: Name)
    requires c in all
  {
    var p := Source(all, c);
    && c in final && (p != "" ==> p in all && p in final)
    && final[c] == if p == "" then all[c] else Inherit(cfg, subs, c, all[c], p, final[p])
  }

  /** What a pass makes of a namespace: it inherits once, from its finished source. */
  lemma PassResult(cfg: Config, subs: SubNamespaces, states: seq<Namespaces>, order: seq<Name>, c: Name)
    requires IsPass(cfg, subs, states, order) && SourcesFirst(states[0], order) && c in states[0]
    ensures InheritedOnce(cfg, subs, states[0], states[|order|], c)
  {
    var p := Source(states[0], c);
    if p == "" {
      TopStays(cfg, subs, states, order, c, |order|);
    } else {
      Turns(cfg, subs, states, order, c);
      var k := DistanceToTop(states[0], c);
      TurnIsFinal(cfg, subs, states, order, c, k);
      var k' := DistanceToTop(states[0], p);
      TurnIsFinal(cfg, subs, states, order, p, k');
    }
  }

  ghost predicate AllInheritedOnce(cfg: Config, subs: SubNamespaces, all: Namespaces, final: Namespaces) {
    forall c {:trigger InheritedOnce(cfg, subs, all, final, c)} | c in all :: InheritedOnce(cfg, subs, all, final, c)
  }

  lemma SameFromSame(cfg: Config, subs: SubNamespaces, all: Namespaces, a: Namespaces, b: Namespaces, c: Name)
    requires c in all && InheritedOnce(cfg, subs, all, a, c) && InheritedOnce(cfg, subs, all, b, c)
    requires Source(all, c) != "" ==> SameIn(a, b, Source(all, c))
    ensures SameIn(a, b, c)
  {
  }

  lemma {:induction false} SameResult(cfg: Config, subs: SubNamespaces, all: Namespaces, a: Namespaces, b: Namespaces,
                                      c: Name, k: nat)
    requires TopWithin(all, c, k)
    requires AllInheritedOnce(cfg, subs, all, a) && AllInheritedOnce(cfg, subs, all, b)
    ensures SameIn(a, b, c)
    decreases k
  {
    assert InheritedOnce(cfg, subs, all, a, c) && InheritedOnce(cfg, subs, all, b, c);
    if Source(all, c) != "" { SameResult(cfg, subs, all, a, b, Source(all, c), k - 1); }
    SameFromSame(cfg, subs, all, a, b, c);
  }

  /** Two passes over the same namespaces give the same result, whatever their orders. */
  lemma OrderIsNoMatter(cfg: Config, subs: SubNamespaces, states: seq<Namespaces>, order: seq<Name>,
                        states': seq<Namespaces>, order': seq<Name>)
    requires IsPass(cfg, subs, states, order) && SourcesFirst(states[0], order)
    requires IsPass(cfg, subs, states', order') && SourcesFirst(states'[0], order')
    requires states'[0] == states[0]
    ensures states'[|order'|] == states[|order|]
  {
    var all, a, b := states[0], states[|order|], states'[|order'|];
    ShapeStays(cfg, subs, states, order, |order|);
    ShapeStays(cfg, subs, states', order', |order'|);
    forall x | x in all ensures InheritedOnce(cfg, subs, all, a, x) && InheritedOnce(cfg, subs, all, b, x) {
      PassResult(cfg, subs, states, order, x);
      PassResult(cfg, subs, states', order', x);
    }
    forall c | c in all ensures SameIn(a, b, c) {
      var k := DistanceToTop(all, c);
      SameResult(cfg, subs, all, a, b, c, k);
    }
    assert forall c | c in a :: SameIn(a, b, c);
  }

  /** The value that the SubNamespace of a sub-namespace asks for, if the key may be set there. */
  function AskedLabel(cfg: Config, subs: SubNamespaces, all: Namespaces, c: Name, k: MetaKey): Option<string>
    requires c in all
  {
    var key := SubName(Source(all, c), c);
    if Parent in all[c].labels && key in subs && k in subs[key].spec.labels && cfg.subLabelKey(k) then
      Some(subs[key].spec.labels[k])
    else None
  }

  function AskedAnnotation(cfg: Config, subs: SubNamespaces, all: Namespaces, c: Name, k: MetaKey): Option<string>
    requires c in all
  {
    var key := SubName(Source(all, c), c);
    if Parent in all[c].labels && key in subs && k in subs[key].spec.annotations && cfg.subAnnotationKey(k) then
      Some(subs[key].spec.annotations[k])
    else None
  }

  /** The value that is passed on, if the key is propagated. */
  function PassedOn(source: Fields<MetaKey>, key: MetaKey -> bool, k: MetaKey): Option<string> {
    if key(k) then ValueAt(source, k) else None
  }

  function OrElse(a: Option<string>, b: Option<string>): Option<string> {
    if a.Some? then a else b
  }

  /** What a label of c is to be, given what its source has: what its SubNamespace asks for, or
      else what the source passes on.  A sub-namespace keeps its parent and is marked as created. */
  function WishedGiven(cfg: Config, subs: SubNamespaces, all: Namespaces, c: Name, has: Option<string>,
                       k: MetaKey): Option<string>
    requires c in all
  {
    if Parent in all[c].labels && k == Parent then Some(Source(all, c))
    else if Parent in all[c].labels && k == CreatedBy then Some(CREATED_BY)
    else OrElse(AskedLabel(cfg, subs, all, c, k), if cfg.labelKey(k) then has else None)
  }

  function WishedLabel(cfg: Config, subs: SubNamespaces, all: Namespaces, c: Name, source: Namespace,
                       k: MetaKey): Option<string>
    requires c in all
  {
    WishedGiven(cfg, subs, all, c, ValueAt(source.labels, k), k)
  }

  function WishedAnnotation(cfg: Config, subs: SubNamespaces, all: Namespaces, c: Name, source: Namespace,
                            k: MetaKey): Option<string>
    requires c in all
  {
    OrElse(AskedAnnotation(cfg, subs, all, c, k), PassedOn(source.annotations, cfg.annotationKey, k))
  }

  lemma AppliedValue(have: Fields<MetaKey>, want: Labels, k: MetaKey)
    ensures ValueAt(Apply(have, want), k) == if k in want then Some(want[k]) else UserValue(have, k)
  {
  }

  function WantedFor(cfg: Config, subs: SubNamespaces, all: Namespaces, c: Name, source: Namespace): Labels
    requires c in all
  {
    WantedLabels(cfg, Parent in all[c].labels, SpecOf(subs, Source(all, c), c), Source(all, c), Values(source.labels))
  }

  lemma WantedLabelIsWished(cfg: Config, subs: SubNamespaces, all: Namespaces, c: Name, source: Namespace, k: MetaKey)
    requires c in all
    ensures var want := WantedFor(cfg, subs, all, c, source);
            WishedLabel(cfg, subs, all, c, source, k) == if k in want then Some(want[k]) else None
  {
    assert PassedOn(source.labels, cfg.labelKey, k) ==
           if k in Matching(Values(source.labels), cfg.labelKey) then Some(source.labels[k].value) else None;
  }

  lemma WantedAnnotationIsWished(cfg: Config, subs: SubNamespaces, all: Namespaces, c: Name, source: Namespace,
                                 k: MetaKey)
    requires c in all
    ensures var want := WantedAnnotations(cfg, Parent in all[c].labels, SpecOf(subs, Source(all, c), c),
                                          Values(source.annotations));
            WishedAnnotation(cfg, subs, all, c, source, k) == if k in want then Some(want[k]) else None
  {
  }

  lemma InheritFollowsWishes(cfg: Config, subs: SubNamespaces, all: Namespaces, c: Name, source: Namespace, k: MetaKey)
    requires c in all
    ensures var r := Inherit(cfg, subs, c, all[c], Source(all, c), source);
            && ValueAt(r.labels, k) ==
               OrElse(WishedLabel(cfg, subs, all, c, source, k), UserValue(all[c].labels, k))
            && ValueAt(r.annotations, k) ==
               OrElse(WishedAnnotation(cfg, subs, all, c, source, k), UserValue(all[c].annotations, k))
  {
    WantedLabelIsWished(cfg, subs, all, c, source, k);
    WantedAnnotationIsWished(cfg, subs, all, c, source, k);
    AppliedValue(all[c].labels, WantedFor(cfg, subs, all, c, source), k);
    AppliedValue(all[c].annotations, WantedAnnotations(cfg, Parent in all[c].labels, SpecOf(subs, Source(all, c), c),
                                                       Values(source.annotations)), k);
  }

  /** After a pass over the forest, each label has the value its SubNamespace asks for, or else
      the one its finished source passes on, or else the one that a user gave it.  So labels of
      users that nobody else wants stay, and what only Accurate owned and nobody wants is gone. */
  lemma LabelsAfterPass(cfg: Config, subs: SubNamespaces, states: seq<Namespaces>, order: seq<Name>, c: Name,
                        k: MetaKey)
    requires IsPass(cfg, subs, states, order) && SourcesFirst(states[0], order)
    requires c in states[0] && Source(states[0], c) != ""
    ensures var p, final := Source(states[0], c), states[|order|];
            && c in final && p in final
            && ValueAt(final[c].labels, k) ==
               OrElse(WishedLabel(cfg, subs, states[0], c, final[p], k), UserValue(states[0][c].labels, k))
  {
    PassResult(cfg, subs, states, order, c);
    InheritFollowsWishes(cfg, subs, states[0], c, states[|order|][Source(states[0], c)], k);
  }

  lemma AnnotationsAfterPass(cfg: Config, subs: SubNamespaces, states: seq<Namespaces>, order: seq<Name>, c: Name,
                             k: MetaKey)
    requires IsPass(cfg, subs, states, order) && SourcesFirst(states[0], order)
    requires c in states[0] && Source(states[0], c) != ""
    ensures var p, final := Source(states[0], c), states[|order|];
            && c in final && p in final
            && ValueAt(final[c].annotations, k) ==
               OrElse(WishedAnnotation(cfg, subs, states[0], c, final[p], k), UserValue(states[0][c].annotations, k))
  {
    PassResult(cfg, subs, states, order, c);
    InheritFollowsWishes(cfg, subs, states[0], c, states[|order|][Source(states[0], c)], k);
  }

  /** Out of order: reconciling p alone keeps the label that a user gave to a namespace below it
      if and only if neither its SubNamespace nor p, as p is before, has another value for it. */
  lemma PushKeepsUserLabel(cfg: Config, subs: SubNamespaces, all: Namespaces, p: Name, c: Name, k: MetaKey)
    requires Ready(all) && CleanConfig(cfg) && p in all && c in all && Source(all, c) == p
    requires k in all[c].labels && Other in all[c].labels[k].owners
    ensures var all', wished := MetaReconciled(cfg, subs, all, p), WishedLabel(cfg, subs, all, c, all[p], k);
            && c in all'
            && (ValueAt(all'[c].labels, k) == ValueAt(all[c].labels, k) <==>
                  wished.None? || wished == ValueAt(all[c].labels, k))
  {
    NoEmptyName(all);
    assert UserValue(all[c].labels, k) == ValueAt(all[c].labels, k);
    StepShape(cfg, subs, all, p, c);
    InheritFollowsWishes(cfg, subs, all, c, all[p], k);
  }

  /** One apply after another: what is asked for last is there; anything else is what others
      own, unless the first apply took it away from them. */
  lemma TwoApplies<K>(have: Fields<K>, first: map<K, string>, last: map<K, string>, k: K)
    ensures var r := Apply(Apply(have, first), last);
            && (k in last ==> k in r && r[k].value == last[k])
            && (k !in last && k in r ==> k in have && r[k].value == have[k].value && Accurate !in r[k].owners)
            && (k !in last && k in have && Other in have[k].owners ==>
                  (k in r <==> k in first ==> first[k] == have[k].value))
            && (k !in last && (k !in have || have[k].owners == {Accurate}) ==> k !in r)
  {
    var once := Apply(have, first);
    if k in have && Other in have[k].owners {
      assert have[k].owners != {Accurate};
      if k in once && !(k in first && first[k] != have[k].value) {
        assert Other in once[k].owners;
        assert once[k].owners != {Accurate};
      }
    }
    if k in have && have[k].owners == {Accurate} {
      assert {Accurate} + {Accurate} == {Accurate};
    }
  }

  lemma Pushed(cfg: Config, subs: SubNamespaces, all: Namespaces, p: Name, c: Name)
    requires Ready(all) && CleanConfig(cfg) && p in all && c in all && Source(all, c) == p
    ensures var all' := MetaReconciled(cfg, subs, all, p);
            && SameShape(all, all') && p in all' && c in all'
            && Source(all', c) == p && (Parent in all'[c].labels <==> Parent in all[c].labels)
            && all'[c] == Inherit(cfg, subs, c, all[c], p, all[p])
  {
    NoEmptyName(all);
    StepShape(cfg, subs, all, p, c);
    StepKeepsShape(cfg, subs, all, all, p);
    SourceStays(all, MetaReconciled(cfg, subs, all, p), c);
  }

  /** The labels of c, below p, after p and then c has been reconciled. */
  lemma PushedThenPulled(cfg: Config, subs: SubNamespaces, all: Namespaces, p: Name, c: Name)
    requires Ready(all) && CleanConfig(cfg) && p in all && c in all && Source(all, c) == p
    ensures var all' := MetaReconciled(cfg, subs, all, p);
            && p in all' && c in all'
            && var all'' := MetaReconciled(cfg, subs, all', c);
               && c in all''
               && all''[c].labels == Apply(Apply(all[c].labels, WantedFor(cfg, subs, all, c, all[p])),
                                           WantedFor(cfg, subs, all, c, all'[p]))
  {
    NoEmptyName(all);
    Pushed(cfg, subs, all, p, c);
    StepShape(cfg, subs, MetaReconciled(cfg, subs, all, p), c, c);
  }

  /** The label that p has once it has been reconciled. */
  function NextLabel(cfg: Config, subs: SubNamespaces, all: Namespaces, p: Name, k: MetaKey): Option<string>
    requires p in all && (Source(all, p) == "" || Source(all, p) in all)
  {
    if Source(all, p) == "" then ValueAt(all[p].labels, k)
    else OrElse(WishedLabel(cfg, subs, all, p, all[Source(all, p)], k), UserValue(all[p].labels, k))
  }

  lemma ReconciledHasNext(cfg: Config, subs: SubNamespaces, all: Namespaces, p: Name, k: MetaKey)
    requires Ready(all) && CleanConfig(cfg) && p in all
    ensures Source(all, p) == "" || Source(all, p) in all
    ensures var all' := MetaReconciled(cfg, subs, all, p);
            p in all' && ValueAt(all'[p].labels, k) == NextLabel(cfg, subs, all, p, k)
  {
    StepShape(cfg, subs, all, p, p);
    if Source(all, p) != "" { InheritFollowsWishes(cfg, subs, all, p, all[Source(all, p)], k); }
  }

  /** Out of order: when p and then c, below p, has been reconciled, a label of c that a user set
      has the value that is wished for given what p will have; if there is none, it is there
      unless p had another value to pass on before. */
  lemma StalePushDecides(cfg: Config, subs: SubNamespaces, all: Namespaces, p: Name, c: Name, k: MetaKey)
    requires Ready(all) && CleanConfig(cfg) && p in all && c in all && Source(all, c) == p
    requires k in all[c].labels && Other in all[c].labels[k].owners
    ensures Source(all, p) == "" || Source(all, p) in all
    ensures var all' := MetaReconciled(cfg, subs, all, p);
            && p in all' && c in all'
            && var all'' := MetaReconciled(cfg, subs, all', c);
               && c in all''
               && var before, pushed := ValueAt(all[c].labels, k), WishedLabel(cfg, subs, all, c, all[p], k);
                  ValueAt(all''[c].labels, k) ==
                    OrElse(WishedGiven(cfg, subs, all, c, NextLabel(cfg, subs, all, p, k), k),
                           if pushed.None? || pushed == before then before else None)
  {
    PushedThenPulled(cfg, subs, all, p, c);
    ReconciledHasNext(cfg, subs, all, p, k);
    var all' := MetaReconciled(cfg, subs, all, p);
    WantedLabelIsWished(cfg, subs, all, c, all[p], k);
    WantedLabelIsWished(cfg, subs, all, c, all'[p], k);
    TwoApplies(all[c].labels, WantedFor(cfg, subs, all, c, all[p]), WantedFor(cfg, subs, all, c, all'[p]), k);
  }

  /** After a pass, reconciling any namespace again changes no namespace. */
  lemma SecondPassIsIdle(cfg: Config, subs: SubNamespaces, states: seq<Namespaces>, order: seq<Name>, n: Name)
    requires IsPass(cfg, subs, states, order) && SourcesFirst(states[0], order) && n in states[|order|]
    ensures MetaReconciled(cfg, subs, states[|order|], n) == states[|order|]
  {
    var final := states[|order|];
    ShapeStays(cfg, subs, states, order, |order|);
    StepShape(cfg, subs, final, n, n);
    forall c | c in final ensures MetaReconciled(cfg, subs, final, n)[c] == final[c] {
      StepShape(cfg, subs, final, n, c);
      SourceStays(states[0], final, c);
      if Source(final, c) != "" { InheritsNothingNew(cfg, subs, states, order, c); }
    }
  }

  lemma InheritsNothingNew(cfg: Config, subs: SubNamespaces, states: seq<Namespaces>, order: seq<Name>, c: Name)
    requires IsPass(cfg, subs, states, order) && SourcesFirst(states[0], order)
    requires c in states[0] && Source(states[0], c) != ""
    ensures var final := states[|order|]; var p := Source(states[0], c);
            c in final && p in final && Inherit(cfg, subs, c, final[c], p, final[p]) == final[c]
  {
    var final, p := states[|order|], Source(states[0], c);
    PassResult(cfg, subs, states, order, c);
    FirstInheritKeepsParentLabel(cfg, subs, c, states[0], final[p]);
    InheritTwice(cfg, subs, c, states[0][c], p, final[p]);
  }
}
