/** The validating webhook for namespaces (hooks/namespace.go). */
module NamespaceWebhook {
  import opened Meta
  import opened Chains

  datatype Reason =
    | CircularReference
    | ParentDoesNotExist
    | SubHasTemplate
    | SubHasType
    | NamespaceDoesNotExist
    | InvalidReference
    | SubNamespacesExist
    | InstancesExist
    | ChildrenExist

  datatype Response = Allowed | Denied(reason: Reason)

  /** The links that the ancestor walk follows. */
  function SourceLinks(store: Store): Links {
    map n | n in store :: SourceOf(store[n])
  }

  function CheckParent(store: Store, name: Name, typ: string): Response {
    if name !in store then Denied(NamespaceDoesNotExist)
    else if TypeOf(store[name]) == typ || ParentOf(store[name]) != "" then Allowed
    else Denied(InvalidReference)
  }

  function CheckParentLabel(store: Store, name: Name, labels: Labels): Response {
    var p := ParentOf(labels);
    if p == "" then Allowed
    else if name == p then Denied(CircularReference)
    else if Template in labels then Denied(SubHasTemplate)
    else if Type in labels then Denied(SubHasType)
    else CheckParent(store, p, NS_TYPE_ROOT)
  }

  function CheckTemplateLabel(store: Store, name: Name, labels: Labels): Response {
    var t := TemplateOf(labels);
    if t == "" then Allowed
    else if name == t then Denied(CircularReference)
    else CheckParent(store, t, NS_TYPE_TEMPLATE)
  }

  function HandleCreate(store: Store, name: Name, labels: Labels): Response {
    if CheckParentLabel(store, name, labels).Denied? then CheckParentLabel(store, name, labels)
    else CheckTemplateLabel(store, name, labels)
  }

  /** The checks of an update that follow the ancestor walk. */
  function CheckChildren(store: Store, name: Name, labels: Labels, before: Labels): Response {
    if TypeOf(before) != TypeOf(labels) && TypeOf(before) == NS_TYPE_ROOT && SubsOf(store, name) != {} then
      Denied(SubNamespacesExist)
    else if TypeOf(before) != TypeOf(labels) && TypeOf(before) == NS_TYPE_TEMPLATE
            && InstancesOf(store, name) != {} then
      Denied(InstancesExist)
    else if SourceOf(labels) == "" && ParentOf(before) != "" && TypeOf(labels) != NS_TYPE_ROOT
            && SubsOf(store, name) != {} then
      Denied(SubNamespacesExist)
    else
      Allowed
  }

  /** What the webhook answers to an update, with the ancestor walk replaced by what it
      finds out: whether the chain that starts at `name` in the updated store meets itself,
      leaves the store, or comes to an end. */
  ghost function UpdateDecision(store: Store, name: Name, labels: Labels, before: Labels): Response {
    var links := SourceLinks(store[name := labels]);
    if Repeats(links, name) then Denied(CircularReference)
    else if Leaves(links, name) then Denied(ParentDoesNotExist)
    else if CheckChildren(store, name, labels, before).Denied? then CheckChildren(store, name, labels, before)
    else HandleCreate(store, name, labels)
  }

  /** `gets` counts the reads of the ancestor walk, one that finds nothing included. */
  method HandleUpdate(store: Store, name: Name, labels: Labels, before: Labels) returns (r: Response, gets: nat)
    requires "" !in store && name in store
    ensures r == UpdateDecision(store, name, labels, before)
    ensures gets <= |store|
  {
    ghost var links := SourceLinks(store[name := labels]);
    assert "" !in links;
    OutcomesExclusive(links, name);
    var visited := {name};
    var p := SourceOf(labels);
    var pp := p;
    gets := 0;
    SubsetSize(visited, store.Keys);
    assert Visited(links, name, 1) == Visited(links, name, 0) + {Up(links, name, 0)} == {name};
    assert Up(links, name, 1) == Up(links, p, 0);
    while pp != ""
      invariant pp == Up(links, name, gets + 1)
      invariant visited == Visited(links, name, gets + 1)
      invariant name in visited && visited <= store.Keys
      invariant |visited| == gets + 1
      invariant gets < |store|
      decreases |store| - gets
    {
      if pp in visited {
        ghost var i := VisitedPosition(links, name, gets + 1, pp);
        assert Revisits(links, name, i, gets + 1);
        r := Denied(CircularReference);
        return;
      }
      gets := gets + 1;
      if pp !in store {
        assert pp !in links;
        r := Denied(ParentDoesNotExist);
        return;
      }
      UpStep(links, name, gets);
      visited := visited + {pp};
      SubsetSize(visited, store.Keys);
      pp := SourceOf(store[pp]);
    }
    r := CheckChildren(store, name, labels, before);
    if r == Allowed {
      r := HandleCreate(store, name, labels);
    }
  }

  function HandleDelete(store: Store, name: Name, labels: Labels, cascading: bool): Response {
    if IsRoot(labels) && !cascading then
      if SubsOf(store, name) != {} then Denied(ChildrenExist) else Allowed
    else if TypeOf(labels) == NS_TYPE_TEMPLATE then
      if InstancesOf(store, name) != {} then Denied(ChildrenExist) else Allowed
    else if IsSub(labels) && !cascading then
      if SubsOf(store, name) != {} then Denied(ChildrenExist) else Allowed
    else
      Allowed
  }

  /** A request to the API server that concerns one namespace. */
  datatype Request =
    | Create(name: Name, labels: Labels)
    | Update(name: Name, labels: Labels)
    | Delete(name: Name)

  /** The API server knows the name (or does not, for a creation) and the webhook agrees. */
  ghost predicate Accepted(store: Store, req: Request, cascading: bool) {
    match req
    case Create(n, labels) => n != "" && n !in store && HandleCreate(store, n, labels) == Allowed
    case Update(n, labels) => n in store && UpdateDecision(store, n, labels, store[n]) == Allowed
    case Delete(n) => n in store && HandleDelete(store, n, store[n], cascading) == Allowed
  }

  ghost function Serve(store: Store, req: Request, cascading: bool): Store {
    if !Accepted(store, req, cascading) then store
    else match req
      case Create(n, labels) => store[n := labels]
      case Update(n, labels) => store[n := labels]
      case Delete(n) => store - {n}
  }

  ghost function ServeAll(store: Store, reqs: seq<Request>, cascading: bool): Store
    decreases |reqs|
  {
    if reqs == [] then store
    else ServeAll(Serve(store, reqs[0], cascading), reqs[1..], cascading)
  }

  /** The three ways the walk can go, and that the first two are the only sources of the
      denials "circular reference" and "parent namespace does not exist". */
  lemma WalkDeniesExactly(store: Store, name: Name, labels: Labels, before: Labels)
    requires "" !in store && name != ""
    ensures var links := SourceLinks(store[name := labels]);
            var r := UpdateDecision(store, name, labels, before);
            && (r == Denied(CircularReference) <==> Repeats(links, name))
            && (r == Denied(ParentDoesNotExist) <==> Leaves(links, name))
            && (r.Allowed? ==> Ends(links, name))
  {
    var links := SourceLinks(store[name := labels]);
    OutcomesExclusive(links, name);
    OutcomesExhaustive(links, name);
    if links[name] == name {
      assert Up(links, name, 1) == Up(links, name, 0);
      assert Revisits(links, name, 0, 1);
    }
  }
}
