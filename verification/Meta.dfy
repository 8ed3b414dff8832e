/** Names, metadata keys and well-known values shared by the whole model. */
module Meta {

  type Name = string

  /** Keys of labels and annotations.  The keys the controller gives a meaning to
      are constructors of their own; every other key is Custom. */
  datatype MetaKey =
    | Type                // accurate.cybozu.com/type
    | Parent              // accurate.cybozu.com/parent
    | Template            // accurate.cybozu.com/template
    | CreatedBy           // app.kubernetes.io/created-by
    | From                // accurate.cybozu.com/from
    | Propagate           // accurate.cybozu.com/propagate
    | ObservedGeneration  // internal.accurate.cybozu.com/observed-generation
    | Conditions          // internal.accurate.cybozu.com/conditions
    | Custom(name: string)

  const NS_TYPE_ROOT := "root"
  const NS_TYPE_TEMPLATE := "template"
  const CREATED_BY := "accurate"
  const PROPAGATE_CREATE := "create"
  const PROPAGATE_UPDATE := "update"

  datatype Option<+T> = None | Some(value: T)

  type Labels = map<MetaKey, string>

  /** All namespaces of the cluster with their labels. */
  type Store = map<Name, Labels>

  /** Reading a key of a Go map: an absent key reads as the empty string. */
  function Value(labels: Labels, key: MetaKey): string {
    if key in labels then labels[key] else ""
  }

  predicate SameAt(a: Labels, b: Labels, key: MetaKey) {
    (key in a <==> key in b) && (key in a ==> a[key] == b[key])
  }

  function TypeOf(labels: Labels): string { Value(labels, Type) }

  function ParentOf(labels: Labels): Name { Value(labels, Parent) }

  function TemplateOf(labels: Labels): Name { Value(labels, Template) }

  /** The namespace that a namespace refers to: its parent, or else its template. */
  function SourceOf(labels: Labels): Name {
    if ParentOf(labels) != "" then ParentOf(labels) else TemplateOf(labels)
  }

  predicate IsRoot(labels: Labels) { TypeOf(labels) == NS_TYPE_ROOT }

  predicate IsSub(labels: Labels) { ParentOf(labels) != "" }

  /** The three indexers over namespaces: what List returns for a parent, a template,
      and the namespaces a given one is the source of. */
  function SubsOf(store: Store, name: Name): set<Name> {
    set n | n in store && ParentOf(store[n]) == name && name != ""
  }

  function InstancesOf(store: Store, name: Name): set<Name> {
    set n | n in store && TemplateOf(store[n]) == name && name != ""
  }
}
