/** What every run of admitted namespace requests keeps: the forest invariant. */
module NamespaceForest {
  import opened Meta
  import opened Chains
  import opened NamespaceWebhook

  function ParentLinks(store: Store): Links {
    map n | n in store :: ParentOf(store[n])
  }

  function TemplateLinks(store: Store): Links {
    map n | n in store :: TemplateOf(store[n])
  }

  /** A sub-namespace is neither a root nor a template, and has no template. */
  predicate BareSub(labels: Labels) {
    IsSub(labels) ==> Type !in labels && Template !in labels
  }

  predicate CanHaveSubs(labels: Labels) {
    IsRoot(labels) || IsSub(labels)
  }

  predicate HasParent(store: Store, n: Name)
    requires n in store
  {
    ParentOf(store[n]) in store && CanHaveSubs(store[ParentOf(store[n])])
  }

  predicate HasTemplate(store: Store, n: Name)
    requires n in store
  {
    TemplateOf(store[n]) in store && TypeOf(store[TemplateOf(store[n])]) == NS_TYPE_TEMPLATE
  }

  ghost predicate ParentsValid(store: Store) {
    forall n {:trigger HasParent(store, n)} | n in store && IsSub(store[n]) :: HasParent(store, n)
  }

  ghost predicate TemplatesValid(store: Store) {
    forall n {:trigger HasTemplate(store, n)} | n in store && TemplateOf(store[n]) != "" :: HasTemplate(store, n)
  }

  ghost predicate WellFormed(store: Store) {
    "" !in store && forall n | n in store :: BareSub(store[n])
  }

  /** The half of the invariant about parents. */
  ghost predicate ParentForest(store: Store) {
    && WellFormed(store)
    && ParentsValid(store)
    && AllWalksEnd(ParentLinks(store))
  }

  /** The half about templates. */
  ghost predicate TemplateForest(store: Store) {
    && WellFormed(store)
    && TemplatesValid(store)
    && AllWalksEnd(TemplateLinks(store))
  }

  ghost predicate Forest(store: Store) {
    ParentForest(store) && TemplateForest(store)
  }

  /** An update that takes the parent label away from a namespace with sub-namespaces and
      puts a template label in its place.  The child check looks at "parent or else template"
      of the new labels, so it does not see this. */
  predicate SwapsParentForTemplate(store: Store, req: Request) {
    && req.Update?
    && req.name in store && IsSub(store[req.name]) && SubsOf(store, req.name) != {}
    && ParentOf(req.labels) == "" && TemplateOf(req.labels) != "" && !IsRoot(req.labels)
  }

  /** A request whose template label, if any, names a namespace of type template. */
  predicate NamesTemplate(store: Store, req: Request) {
    req.Delete? || TemplateOf(req.labels) == "" ||
    (TemplateOf(req.labels) in store && TypeOf(store[TemplateOf(req.labels)]) == NS_TYPE_TEMPLATE)
  }

  lemma {:induction false} ParentLinksEnd(store: Store, n: Name)
    requires "" !in store && Ends(SourceLinks(store), n)
    ensures Ends(ParentLinks(store), n)
  {
    var k: nat :| Up(SourceLinks(store), n, k) == "";
    PrefixEnds(SourceLinks(store), ParentLinks(store), n, k);
  }

  lemma {:induction false} TemplateLinksEnd(store: Store, n: Name)
    requires WellFormed(store) && Ends(SourceLinks(store), n)
    ensures Ends(TemplateLinks(store), n)
  {
    var k: nat :| Up(SourceLinks(store), n, k) == "";
    PrefixEnds(SourceLinks(store), TemplateLinks(store), n, k);
  }

  /** Links that change at one name only, and end there, end everywhere. */
  lemma AllEnd(links: Links, links': Links, n: Name)
    requires "" !in links && links'.Keys == links.Keys + {n} && n != ""
    requires forall x | x in links && x != n :: links'[x] == links[x]
    requires AllWalksEnd(links)
    requires n in links ==> Ends(links', n)
    requires n !in links ==> links'[n] == "" || links'[n] in links
    ensures AllWalksEnd(links')
  {
    forall x | x in links ensures Ends(links', x) {
      assert Ends(links, x);
      var k: nat :| Up(links, x, k) == "";
      RelinkEnds(links, links', n, x, k);
    }
    EndsAtTop(links');
    EndsNext(links', n);
  }

  /** What the webhook lets through is well-formed by itself. */
  lemma AcceptedIsBare(store: Store, req: Request, cascading: bool)
    requires Accepted(store, req, cascading) && !req.Delete?
    ensures BareSub(req.labels)
  {
  }

  lemma NoSubs(store: Store, n: Name)
    requires n != "" && SubsOf(store, n) == {}
    ensures forall c | c in store :: ParentOf(store[c]) != n
  {
    forall c | c in store ensures ParentOf(store[c]) != n {
      assert c !in SubsOf(store, n);
    }
  }

  lemma NoInstances(store: Store, n: Name)
    requires n != "" && InstancesOf(store, n) == {}
    ensures forall c | c in store :: TemplateOf(store[c]) != n
  {
    forall c | c in store ensures TemplateOf(store[c]) != n {
      assert c !in InstancesOf(store, n);
    }
  }

  lemma UpdateKeepsParentLinks(store: Store, n: Name, labels: Labels)
    requires ParentForest(store) && Accepted(store, Update(n, labels), false)
    ensures AllWalksEnd(ParentLinks(store[n := labels]))
  {
    WalkDeniesExactly(store, n, labels, store[n]);
    ParentLinksEnd(store[n := labels], n);
    AllEnd(ParentLinks(store), ParentLinks(store[n := labels]), n);
  }

  /** After an accepted update that is no swap, whoever has sub-namespaces may have them. */
  lemma UpdateKeepsHost(store: Store, n: Name, labels: Labels)
    requires ParentForest(store) && Accepted(store, Update(n, labels), false)
    requires !SwapsParentForTemplate(store, Update(n, labels))
    ensures CanHaveSubs(labels) || SubsOf(store, n) == {}
  {
    if SubsOf(store, n) != {} {
      var c :| c in SubsOf(store, n);
      assert HasParent(store, c);
    }
  }

  lemma UpdateKeepsParentsValid(store: Store, n: Name, labels: Labels)
    requires ParentForest(store) && Accepted(store, Update(n, labels), false)
    requires CanHaveSubs(labels) || SubsOf(store, n) == {}
    ensures ParentsValid(store[n := labels])
  {
    if SubsOf(store, n) == {} { NoSubs(store, n); }
    var store' := store[n := labels];
    forall m | m in store' && IsSub(store'[m]) ensures HasParent(store', m) {
      assert m != n ==> HasParent(store, m);
    }
  }

  lemma SwapBreaksParentsValid(store: Store, n: Name, labels: Labels)
    requires ParentForest(store) && SwapsParentForTemplate(store, Update(n, labels))
    ensures !ParentsValid(store[n := labels])
  {
    var c :| c in SubsOf(store, n);
    NoSelfLink(ParentLinks(store), n);
    assert !HasParent(store[n := labels], c);
  }

  /** The parent half survives an accepted update if and only if it is not a swap. */
  lemma UpdateKeepsParentForest(store: Store, n: Name, labels: Labels)
    requires ParentForest(store) && Accepted(store, Update(n, labels), false)
    ensures ParentForest(store[n := labels]) <==> !SwapsParentForTemplate(store, Update(n, labels))
  {
    if SwapsParentForTemplate(store, Update(n, labels)) {
      SwapBreaksParentsValid(store, n, labels);
    } else {
      AcceptedIsBare(store, Update(n, labels), false);
      UpdateKeepsHost(store, n, labels);
      UpdateKeepsParentsValid(store, n, labels);
      UpdateKeepsParentLinks(store, n, labels);
    }
  }

  lemma CreateKeepsParentForest(store: Store, n: Name, labels: Labels, cascading: bool)
    requires ParentForest(store) && Accepted(store, Create(n, labels), cascading)
    ensures ParentForest(store[n := labels])
  {
    AcceptedIsBare(store, Create(n, labels), cascading);
    CreateKeepsParentsValid(store, n, labels, cascading);
    AllEnd(ParentLinks(store), ParentLinks(store[n := labels]), n);
  }

  lemma CreateKeepsParentsValid(store: Store, n: Name, labels: Labels, cascading: bool)
    requires ParentForest(store) && Accepted(store, Create(n, labels), cascading)
    ensures ParentsValid(store[n := labels])
  {
    var store' := store[n := labels];
    forall m | m in store' && IsSub(store'[m]) ensures HasParent(store', m) {
      assert m != n ==> HasParent(store, m);
    }
  }

  lemma DeleteKeepsParentForest(store: Store, n: Name)
    requires ParentForest(store) && Accepted(store, Delete(n), false)
    ensures ParentForest(store - {n})
  {
    if CanHaveSubs(store[n]) { NoSubs(store, n); }
    forall m | m in store && m != n && IsSub(store[m])
      ensures ParentOf(store[m]) != n && HasParent(store - {n}, m)
    {
      assert HasParent(store, m);
    }
    var links := ParentLinks(store);
    assert links - {n} == ParentLinks(store - {n});
    forall m | m in store - {n} ensures Ends(ParentLinks(store - {n}), m) {
      assert Ends(links, m);
      var k: nat :| Up(links, m, k) == "";
      UnlinkEnds(links, n, m, k);
    }
  }

  lemma WriteKeepsTemplateLinks(store: Store, req: Request, cascading: bool)
    requires TemplateForest(store) && Accepted(store, req, cascading) && !req.Delete?
    requires NamesTemplate(store, req)
    ensures AllWalksEnd(TemplateLinks(store[req.name := req.labels]))
  {
    var store' := store[req.name := req.labels];
    if req.Update? {
      WalkDeniesExactly(store, req.name, req.labels, store[req.name]);
      TemplateLinksEnd(store', req.name);
    }
    AllEnd(TemplateLinks(store), TemplateLinks(store'), req.name);
  }

  /** An accepted request does not name the namespace itself as its template. */
  lemma NotOwnTemplate(store: Store, req: Request, cascading: bool)
    requires TemplateForest(store) && Accepted(store, req, cascading) && !req.Delete?
    ensures TemplateOf(req.labels) != req.name
  {
  }

  lemma WriteKeepsTemplatesValid(store: Store, req: Request, cascading: bool)
    requires TemplateForest(store) && Accepted(store, req, cascading) && !req.Delete?
    ensures TemplatesValid(store[req.name := req.labels]) <==> NamesTemplate(store, req)
  {
    var store' := store[req.name := req.labels];
    NotOwnTemplate(store, req, cascading);
    assert store'[req.name] == req.labels;
    assert NamesTemplate(store, req) <==> TemplateOf(req.labels) == "" || HasTemplate(store', req.name);
    if InstancesOf(store, req.name) == {} {
      NoInstances(store, req.name);
    } else {
      var c :| c in InstancesOf(store, req.name);
      assert HasTemplate(store, c);
      assert TypeOf(req.labels) == NS_TYPE_TEMPLATE;
    }
    forall m | m in store && m != req.name && TemplateOf(store[m]) != "" ensures HasTemplate(store', m) {
      assert HasTemplate(store, m);
    }
  }

  /** The template half survives an accepted update, or creation, if and only if the
      template label names a template.  Cascading deletion may be on or off. */
  lemma WriteKeepsTemplateForest(store: Store, req: Request, cascading: bool)
    requires TemplateForest(store) && Accepted(store, req, cascading) && !req.Delete?
    ensures TemplateForest(store[req.name := req.labels]) <==> NamesTemplate(store, req)
  {
    AcceptedIsBare(store, req, cascading);
    WriteKeepsTemplatesValid(store, req, cascading);
    if NamesTemplate(store, req) {
      WriteKeepsTemplateLinks(store, req, cascading);
    }
  }

  lemma DeleteKeepsTemplateForest(store: Store, n: Name, cascading: bool)
    requires TemplateForest(store) && Accepted(store, Delete(n), cascading)
    ensures TemplateForest(store - {n})
  {
    if TypeOf(store[n]) == NS_TYPE_TEMPLATE { NoInstances(store, n); }
    forall m | m in store && m != n && TemplateOf(store[m]) != ""
      ensures TemplateOf(store[m]) != n && HasTemplate(store - {n}, m)
    {
      assert HasTemplate(store, m);
    }
    var links := TemplateLinks(store);
    assert links - {n} == TemplateLinks(store - {n});
    forall m | m in store - {n} ensures Ends(TemplateLinks(store - {n}), m) {
      assert Ends(links, m);
      var k: nat :| Up(links, m, k) == "";
      UnlinkEnds(links, n, m, k);
    }
  }

  /** No request of the run is a swap when its turn comes. */
  ghost predicate NoSwaps(store: Store, reqs: seq<Request>, cascading: bool)
    decreases |reqs|
  {
    reqs == [] ||
    (!SwapsParentForTemplate(store, reqs[0]) && NoSwaps(Serve(store, reqs[0], cascading), reqs[1..], cascading))
  }

  ghost predicate OnlyTemplatesNamed(store: Store, reqs: seq<Request>, cascading: bool)
    decreases |reqs|
  {
    reqs == [] ||
    (NamesTemplate(store, reqs[0]) && OnlyTemplatesNamed(Serve(store, reqs[0], cascading), reqs[1..], cascading))
  }

  /** With cascading deletion off, every run without swaps keeps the parent half. */
  lemma {:induction false} RunKeepsParentForest(store: Store, reqs: seq<Request>)
    requires ParentForest(store) && NoSwaps(store, reqs, false)
    ensures ParentForest(ServeAll(store, reqs, false))
    decreases |reqs|
  {
    if reqs != [] {
      if Accepted(store, reqs[0], false) {
        match reqs[0]
        case Create(n, labels) => CreateKeepsParentForest(store, n, labels, false);
        case Update(n, labels) => UpdateKeepsParentForest(store, n, labels);
        case Delete(n) => DeleteKeepsParentForest(store, n);
      }
      RunKeepsParentForest(Serve(store, reqs[0], false), reqs[1..]);
    }
  }

  /** With cascading deletion on or off, every run that names only templates as templates
      keeps the template half. */
  lemma {:induction false} RunKeepsTemplateForest(store: Store, reqs: seq<Request>, cascading: bool)
    requires TemplateForest(store) && OnlyTemplatesNamed(store, reqs, cascading)
    ensures TemplateForest(ServeAll(store, reqs, cascading))
    decreases |reqs|
  {
    if reqs != [] {
      if Accepted(store, reqs[0], cascading) {
        if reqs[0].Delete? {
          DeleteKeepsTemplateForest(store, reqs[0].name, cascading);
        } else {
          WriteKeepsTemplateForest(store, reqs[0], cascading);
        }
      }
      RunKeepsTemplateForest(Serve(store, reqs[0], cascading), reqs[1..], cascading);
    }
  }

  /** The two halves together exclude cycles of the combined relation. */
  lemma {:induction false} SourcesEnd(store: Store, n: Name, k: nat)
    requires Forest(store) && n in store && Up(ParentLinks(store), n, k) == ""
    ensures Ends(SourceLinks(store), n)
    decreases k
  {
    if IsSub(store[n]) {
      assert HasParent(store, n);
      SourcesEnd(store, ParentOf(store[n]), k - 1);
      EndsNext(SourceLinks(store), n);
    } else {
      assert Ends(TemplateLinks(store), n);
      var j: nat :| Up(TemplateLinks(store), n, j) == "";
      TemplateChainEnds(store, n, j);
    }
  }

  lemma {:induction false} TemplateChainEnds(store: Store, n: Name, k: nat)
    requires Forest(store) && n in store && !IsSub(store[n]) && Up(TemplateLinks(store), n, k) == ""
    ensures Ends(SourceLinks(store), n)
    decreases k
  {
    var t := TemplateOf(store[n]);
    if t == "" {
      EndsAtTop(SourceLinks(store));
    } else {
      assert HasTemplate(store, n) && !IsSub(store[t]);
      TemplateChainEnds(store, t, k - 1);
    }
    EndsNext(SourceLinks(store), n);
  }

  /** Every name a namespace refers to exists, and following references comes to an end. */
  lemma ForestIsAcyclic(store: Store)
    requires Forest(store)
    ensures forall n | n in store :: SourceOf(store[n]) == "" || SourceOf(store[n]) in store
    ensures AllWalksEnd(SourceLinks(store))
  {
    forall n | n in store ensures SourceOf(store[n]) == "" || SourceOf(store[n]) in store {
      assert HasParent(store, n) || !IsSub(store[n]);
      assert HasTemplate(store, n) || TemplateOf(store[n]) == "";
    }
    forall n | n in store ensures Ends(SourceLinks(store), n) {
      assert Ends(ParentLinks(store), n);
      var k: nat :| Up(ParentLinks(store), n, k) == "";
      SourcesEnd(store, n, k);
    }
  }

  /** Everything a run of admitted requests can reach is a forest, from any forest on. */
  lemma RunKeepsForest(store: Store, reqs: seq<Request>)
    requires Forest(store) && NoSwaps(store, reqs, false) && OnlyTemplatesNamed(store, reqs, false)
    ensures Forest(ServeAll(store, reqs, false))
  {
    RunKeepsParentForest(store, reqs);
    RunKeepsTemplateForest(store, reqs, false);
  }

  /** Every store that such a run reaches from an empty cluster is a forest. */
  lemma ReachableIsForest(reqs: seq<Request>)
    requires NoSwaps(map[], reqs, false) && OnlyTemplatesNamed(map[], reqs, false)
    ensures Forest(ServeAll(map[], reqs, false))
  {
    assert Forest(map[]);
    RunKeepsForest(map[], reqs);
  }

  /** From a sub-namespace, parent labels lead to a root. */
  lemma {:induction false} SubReachesRoot(store: Store, n: Name, k: nat) returns (root: Name, i: nat)
    requires "" !in store && ParentsValid(store) && n in store && CanHaveSubs(store[n])
    requires Up(ParentLinks(store), n, k) == ""
    ensures root in store && IsRoot(store[root]) && i < k && Up(ParentLinks(store), n, i) == root
    decreases k
  {
    if IsSub(store[n]) {
      var p := ParentOf(store[n]);
      assert HasParent(store, n);
      root, i := SubReachesRoot(store, p, k - 1);
      i := i + 1;
      assert Up(ParentLinks(store), n, i) == Up(ParentLinks(store), p, i - 1);
    } else {
      root, i := n, 0;
    }
  }

  /** In a forest the labels that a namespace has pass the checks of a creation. */
  lemma PresentLabelsPass(store: Store, n: Name)
    requires Forest(store) && n in store
    ensures HandleCreate(store, n, store[n]) == Allowed
  {
    NoSelfLink(ParentLinks(store), n);
    NoSelfLink(TemplateLinks(store), n);
    assert BareSub(store[n]);
    assert HasParent(store, n) || !IsSub(store[n]);
    assert HasTemplate(store, n) || TemplateOf(store[n]) == "";
  }

  lemma SameSourceLinks(store: Store, n: Name, labels: Labels)
    requires n in store && SourceOf(labels) == SourceOf(store[n])
    ensures SourceLinks(store[n := labels]) == SourceLinks(store)
  {
  }

  lemma SameWalk(store: Store, n: Name, labels: Labels)
    requires Forest(store) && n in store && SourceOf(labels) == SourceOf(store[n])
    ensures !Repeats(SourceLinks(store[n := labels]), n) && !Leaves(SourceLinks(store[n := labels]), n)
  {
    ForestIsAcyclic(store);
    SameSourceLinks(store, n, labels);
    var links := SourceLinks(store);
    assert n in links && AllWalksEnd(links);
    OutcomesExclusive(links, n);
  }

  /** An update that leaves type, parent and template alone is accepted in a forest: the
      webhook never stands in the way of the controllers that write other labels. */
  lemma OtherLabelsMayChange(store: Store, n: Name, labels: Labels, cascading: bool)
    requires Forest(store) && n in store
    requires forall k | k in {Type, Parent, Template} ::
      (k in labels <==> k in store[n]) && (k in labels ==> labels[k] == store[n][k])
    ensures Accepted(store, Update(n, labels), cascading)
  {
    assert forall k | k in {Type, Parent, Template} :: Value(labels, k) == Value(store[n], k);
    assert TypeOf(labels) == TypeOf(store[n]) && ParentOf(labels) == ParentOf(store[n]);
    assert TemplateOf(labels) == TemplateOf(store[n]);
    SameWalk(store, n, labels);
    PresentLabelsPass(store, n);
  }
}
