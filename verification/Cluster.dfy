/** The API server: namespaces and namespace-scoped resources, read and written one request
    at a time. */
module Cluster {
  import opened Meta
  import opened ServerSideApply
  import opened Resources
  import NamespaceWebhook

  datatype Namespace = Namespace(labels: Fields<MetaKey>, annotations: Fields<MetaKey>)

  type Namespaces = map<Name, Namespace>

  /** The plain labels of all namespaces. */
  function LabelsOf(namespaces: Namespaces): Store {
    map n | n in namespaces :: Values(namespaces[n].labels)
  }

  /** The metadata that a SubNamespace object asks for. */
  datatype Spec = Spec(labels: Labels, annotations: Labels)

  /** A SubNamespace object.  `stalled` is the condition that reports a conflict. */
  datatype SubNs = SubNs(spec: Spec, deleting: bool, finalizers: seq<string>, stalled: bool)

  const FINALIZER := "accurate.cybozu.com/finalizer"

  /** Name and namespace of a SubNamespace object. */
  datatype SubName = SubName(namespace: Name, name: Name)

  type SubNamespaces = map<SubName, SubNs>

  /** Labels as a client that replaces them all leaves them: what it changes is its own. */
  function Overwritten(have: Fields<MetaKey>, labels: Labels): Fields<MetaKey> {
    map k | k in labels :: if k in have && have[k].value == labels[k] then have[k] else Field(labels[k], {Other})
  }

  /** A deletion: the object goes at once if nothing pins it. */
  function MarkDeleted<K>(subs: map<K, SubNs>, key: K): map<K, SubNs> {
    if key !in subs then subs
    else if subs[key].finalizers == [] then subs - {key}
    else subs[key := subs[key].(deleting := true)]
  }

  /** A patch that replaces the list of finalizers. */
  function PatchFinalizers<K>(subs: map<K, SubNs>, key: K, finalizers: seq<string>): map<K, SubNs> {
    if key !in subs then subs
    else if subs[key].deleting && finalizers == [] then subs - {key}
    else subs[key := subs[key].(finalizers := finalizers)]
  }

  function SetStalled<K>(subs: map<K, SubNs>, key: K, stalled: bool): map<K, SubNs> {
    if key in subs then subs[key := subs[key].(stalled := stalled)] else subs
  }

  class ApiServer {
    var namespaces: Namespaces
    var subNamespaces: SubNamespaces
    var resources: Stored
    /** The number of writes to resources so far. */
    var writes: nat

    const allowCascadingDeletion: bool

    constructor (namespaces: Namespaces, subNamespaces: SubNamespaces, allowCascadingDeletion: bool)
      ensures this.namespaces == namespaces && this.subNamespaces == subNamespaces
      ensures this.allowCascadingDeletion == allowCascadingDeletion
      ensures resources == map[] && writes == 0
    {
      this.namespaces := namespaces;
      this.subNamespaces := subNamespaces;
      this.allowCascadingDeletion := allowCascadingDeletion;
      resources := map[];
      writes := 0;
    }

    /** Fails if the namespace is missing or the resource is there already. */
    method Create(ref: Ref, n: Name, m: Manifest) returns (ok: bool)
      modifies this`resources, this`writes
      ensures ok <==> n in namespaces && n !in CopiesOf(old(resources), ref)
      ensures resources ==
              if ok then old(resources)[ref := CopiesOf(old(resources), ref)[n := Created(m)]] else old(resources)
      ensures writes == if ok then old(writes) + 1 else old(writes)
    {
      ok := n in namespaces && n !in CopiesOf(resources, ref);
      if ok {
        resources := resources[ref := CopiesOf(resources, ref)[n := Created(m)]];
        writes := writes + 1;
      }
    }

    method Apply(ref: Ref, n: Name, m: Manifest)
      requires n in CopiesOf(resources, ref)
      modifies this`resources, this`writes
      ensures resources ==
              old(resources)[ref := CopiesOf(old(resources), ref)[n := Applied(CopiesOf(old(resources), ref)[n], m)]]
      ensures writes == old(writes) + 1
    {
      var copies := CopiesOf(resources, ref);
      resources := resources[ref := copies[n := Applied(copies[n], m)]];
      writes := writes + 1;
    }

    method Delete(ref: Ref, n: Name)
      requires n in CopiesOf(resources, ref)
      modifies this`resources, this`writes
      ensures resources == old(resources)[ref := CopiesOf(old(resources), ref) - {n}]
      ensures writes == old(writes) + 1
    {
      resources := resources[ref := CopiesOf(resources, ref) - {n}];
      writes := writes + 1;
    }

    /** A forced apply of labels and annotations to a namespace. */
    method ApplyNamespace(n: Name, labels: Labels, annotations: Labels)
      requires n in namespaces
      modifies this`namespaces
      ensures namespaces == old(namespaces)[n := AppliedTo(old(namespaces)[n], labels, annotations)]
    {
      namespaces := namespaces[n := AppliedTo(namespaces[n], labels, annotations)];
    }

    /** A client creates a namespace. */
    method CreateNamespace(n: Name, labels: Labels) returns (ok: bool)
      modifies this`namespaces
      ensures ok <==> NamespaceWebhook.Accepted(LabelsOf(old(namespaces)), NamespaceWebhook.Create(n, labels),
                                                allowCascadingDeletion)
      ensures namespaces == if ok then old(namespaces)[n := Namespace(Own(labels), map[])] else old(namespaces)
    {
      ok := n != "" && n !in namespaces &&
            NamespaceWebhook.HandleCreate(LabelsOf(namespaces), n, labels) == NamespaceWebhook.Allowed;
      if ok {
        namespaces := namespaces[n := Namespace(Own(labels), map[])];
      }
    }

    /** A client replaces the labels of a namespace. */
    method UpdateNamespace(n: Name, labels: Labels) returns (ok: bool)
      requires n in namespaces && "" !in namespaces
      modifies this`namespaces
      ensures ok <==> NamespaceWebhook.Accepted(LabelsOf(old(namespaces)), NamespaceWebhook.Update(n, labels),
                                                allowCascadingDeletion)
      ensures namespaces ==
              if ok then
                old(namespaces)[n := old(namespaces)[n].(labels := Overwritten(old(namespaces)[n].labels, labels))]
              else old(namespaces)
    {
      var store := LabelsOf(namespaces);
      var r, _ := NamespaceWebhook.HandleUpdate(store, n, labels, store[n]);
      ok := r == NamespaceWebhook.Allowed;
      if ok {
        namespaces := namespaces[n := namespaces[n].(labels := Overwritten(namespaces[n].labels, labels))];
      }
    }

    /** A client deletes a namespace, which is then gone at once. */
    method DeleteNamespace(n: Name) returns (ok: bool)
      requires n in namespaces
      modifies this`namespaces
      ensures ok <==> NamespaceWebhook.Accepted(LabelsOf(old(namespaces)), NamespaceWebhook.Delete(n),
                                                allowCascadingDeletion)
      ensures namespaces == if ok then old(namespaces) - {n} else old(namespaces)
    {
      var store := LabelsOf(namespaces);
      ok := NamespaceWebhook.HandleDelete(store, n, store[n], allowCascadingDeletion) == NamespaceWebhook.Allowed;
      if ok {
        namespaces := namespaces - {n};
      }
    }

    /** The mutating webhook pins every new object. */
    method CreateSubNamespace(key: SubName, spec: Spec) returns (ok: bool)
      modifies this`subNamespaces
      ensures ok <==> key !in old(subNamespaces)
      ensures subNamespaces ==
              if ok then old(subNamespaces)[key := SubNs(spec, false, [FINALIZER], false)] else old(subNamespaces)
    {
      ok := key !in subNamespaces;
      if ok {
        subNamespaces := subNamespaces[key := SubNs(spec, false, [FINALIZER], false)];
      }
    }

    method DeleteSubNamespace(key: SubName)
      modifies this`subNamespaces
      ensures subNamespaces == MarkDeleted(old(subNamespaces), key)
    {
      subNamespaces := MarkDeleted(subNamespaces, key);
    }

    method PatchSubNamespace(key: SubName, finalizers: seq<string>)
      modifies this`subNamespaces
      ensures subNamespaces == PatchFinalizers(old(subNamespaces), key, finalizers)
    {
      subNamespaces := PatchFinalizers(subNamespaces, key, finalizers);
    }

    method ApplyStatus(key: SubName, stalled: bool)
      modifies this`subNamespaces
      ensures subNamespaces == SetStalled(old(subNamespaces), key, stalled)
    {
      subNamespaces := SetStalled(subNamespaces, key, stalled);
    }
  }

  function AppliedTo(ns: Namespace, labels: Labels, annotations: Labels): Namespace {
    Namespace(Apply(ns.labels, labels), Apply(ns.annotations, annotations))
  }
}
