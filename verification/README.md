# Accurate: a verified model

Accurate keeps Kubernetes namespaces in trees. A namespace refers to a parent (sub-namespace) or
to a template by a label; webhooks decide which label changes are admitted, controllers copy
labels, annotations and resources down the trees, and SubNamespace objects create, delete and
describe sub-namespaces. This project models these parts in Dafny and proves what they keep and
what they achieve over whole runs.

| file | models |
|---|---|
| `Meta.dfy`, `Chains.dfy` | names, label keys, label indexes; walks along finite maps of links |
| `NamespaceWebhook.dfy`, `NamespaceForest.dfy`, `Admission.dfy` | the namespace webhook, the invariant of all runs of admitted requests, and exactly what is admitted |
| `SubNamespaceWebhook.dfy` | the SubNamespace webhook, roots of trees, agreement of the two webhooks |
| `ServerSideApply.dfy`, `Resources.dfy`, `Cluster.dfy` | field ownership, resources and their clones, the API server |
| `PropagateController.dfy`, `Convergence.dfy`, `Cascade.dfy` | the propagation controller, its termination and fixed points, cascading deletion |
| `NamespaceController.dfy`, `ResourcePasses.dfy`, `Inheritance.dfy` | the namespace controller, repeated passes over resources, label inheritance |
| `Lifecycle.dfy`, `SubNamespaceController.dfy` | SubNamespace finalization, move, cut and graft: interleaved, and running alone |
| `Decimal.dfy`, `Conversion.dfy` | conversion between API versions |
| `Listing.dfy` | the tree listing |
| `Counterexamples.dfy` | concrete cases where the code does less than one would wish |

Conventions. A store maps names to labels. Methods are written in the form of the Go code, with
the API server as an object whose fields they change, and are proved against functions of the
old state; lemmas then say what these functions achieve. `List` returns items in an order that
is not fixed, so the loops over children pick them in any order. Key patterns (`matchKey`) and
naming policies are arbitrary predicates.

Assumptions on a run are named predicates:

* `NoSwaps`: no update takes the parent label from a namespace that has sub-namespaces and puts
  a template label in its place. The check at `hooks/namespace.go:166` does not see this case;
  `UpdateKeepsParentForest` shows that it is the only one that breaks the parent half.
* `OnlyTemplatesNamed`: template labels name namespaces of type template. `checkParent` also
  accepts sub-namespaces; `WriteKeepsTemplateForest` shows that this is exactly what is missing.
* `Configured`, `CleanConfig`: parent and template labels are absent or non-empty, the
  propagate annotation is not excluded from cloning, and no pattern matches the type, parent or
  template label.
* `FromTree`: a copy claims to come from nowhere or from the source of its namespace; the
  controller keeps this. What holds of a quiet cluster does not need it.
* `Rounds`: a round is a stretch of requests that has one for every copy that exists when it
  begins, and one for every deletion of before that is still to be handled. Copies may be
  requested any number of times.

Where the documentation and the code disagree the code is followed. The help of `sub move` says
that the SubNamespace in the original parent is deleted if it exists; the code fails if it does
not exist, after it has changed the parent (`MoveNeedsTheObject`).

Two wishes turn out false, each with its exact condition: the forest is kept by every admitted
update (it is if and only if the update is not a swap, or names a template); one pass over the
resources is enough (it is if and only if no stale copy is in the way of a create-mode source).

Inheritance depends on the order. A pass that reconciles every source before what is below it
keeps the labels of users that nobody else wants, although each namespace pushes what it had
before it pulled: when its turn comes, it already is what it will be in the end (`TurnIsFinal`).
Out of that order such a label is lost if and only if the source had another value for it
(`PushKeepsUserLabel`, `StalePushDecides`, `UserLabelIsLost`).

## Model

| member | source | states |
|---|---|---|
| NamespaceWebhook.HandleUpdate | hooks/namespace.go:124-177 | The update decision in terms of the ancestor chain in the updated store (repeats, leaves, or ends), reached with at most as many reads as there are namespaces, a failing one included, in any store |
| NamespaceWebhook.WalkDeniesExactly | hooks/namespace.go:125-140 | An update is denied as circular iff the chain repeats a name, and for a missing parent iff it leaves the store |
| NamespaceForest.UpdateKeepsParentForest | hooks/namespace.go:124-177 | An admitted update keeps the parent half of the invariant iff it does not swap a parent for a template under sub-namespaces |
| NamespaceForest.CreateKeepsParentForest | hooks/namespace.go:91-115 | An admitted creation keeps the parent half |
| NamespaceForest.DeleteKeepsParentForest | hooks/namespace.go:179-199 | An admitted deletion keeps the parent half when cascading deletion is off |
| NamespaceForest.WriteKeepsTemplateForest | hooks/namespace.go:91-177 | An admitted creation or update keeps the template half iff its template label names a template, with cascading deletion on or off |
| NamespaceForest.DeleteKeepsTemplateForest | hooks/namespace.go:179-199 | An admitted deletion keeps the template half, with cascading deletion on or off |
| NamespaceForest.RunKeepsParentForest | hooks/namespace.go:31-66 | In every store a run without swaps reaches, parents exist and may have sub-namespaces, sub-namespaces have no type and no template, and parent chains end |
| NamespaceForest.RunKeepsTemplateForest | hooks/namespace.go:31-66 | In every store a run that names only templates reaches, templates exist and template chains end, cascading or not |
| NamespaceForest.RunKeepsForest | hooks/namespace.go:26-34 | Both halves hold along every such run |
| NamespaceForest.ReachableIsForest | hooks/namespace.go:26-34 | Every store such a run reaches from an empty cluster is a forest |
| NamespaceForest.ForestIsAcyclic | hooks/namespace.go:26-34 | The two halves exclude dangling references and cycles of the combined parent-or-template relation |
| NamespaceForest.SubReachesRoot | hooks/namespace.go:26-34 | Following parents from any sub-namespace reaches a root in finitely many steps |
| NamespaceForest.OtherLabelsMayChange | hooks/namespace.go:124-177 | In a forest an update that leaves type, parent and template alone is admitted |
| Admission.CreateAdmittedIff | hooks/namespace.go:91-115 | Exactly which creations are admitted, in any store |
| Admission.UpdateAdmittedIff | hooks/namespace.go:124-177 | Exactly which updates are admitted in a forest: the chain of sources ends, parent and template are good ones, instances keep a template and sub-namespaces a host |
| Admission.DeleteAdmittedIff | hooks/namespace.go:179-199 | Exactly which deletions are admitted in a forest: there are no instances, and no sub-namespaces unless deletion cascades |
| Admission.DenialsAreTrue | hooks/namespace.go:69-199 | The reason given for a denial is true, in any store |
| Counterexamples.SwapIsAccepted | hooks/namespace.go:166-174 | A concrete admitted swap that leaves a sub-namespace under a namespace that is neither root nor sub-namespace |
| Counterexamples.TemplateReferenceIsLeftDangling | hooks/namespace.go:83-85 | A sub-namespace is accepted as a template and may then be deleted |
| SubNamespaceWebhook.RootIsUnique | hooks/subnamespace.go:145-158 | The root lookup succeeds exactly for roots and sub-namespaces and finds the only root among the namespace and its ancestors |
| SubNamespaceWebhook.CreationAgrees | hooks/subnamespace.go:86-115 | A SubNamespace is admitted iff the creation of its namespace is, its metadata is valid and the naming policy matches the root of the parent |
| SubNamespaceWebhook.CreationFailsIff | hooks/subnamespace.go:86-115 | The webhook fails, rather than denies, iff the parent is missing or a policy that would decide is broken |
| SubNamespaceWebhook.DeletionDeniedIff | hooks/subnamespace.go:117-143 | A deletion is denied iff deletion does not cascade and the namespace is a child of the object's namespace with sub-namespaces of its own |
| SubNamespaceWebhook.DeletionAgrees | hooks/subnamespace.go:117-143 | Where finalization would delete the namespace, both webhooks answer the deletion alike, cascading or not |
| SubNamespaceWebhook.CommandChangesRoots | cmd/kubectl-accurate/sub/sub_move.go:76-84 | An admitted move, graft or cut gives exactly the subtree of the namespace the root of the new parent (or the namespace itself) and changes no other root |
| SubNamespaceWebhook.RelabelIsLocal | cmd/kubectl-accurate/sub/sub_graft.go:74-76 | Move, cut and graft change no labels but parent, type and template, and give these the values they should have |
| ServerSideApply.DriftIsNoticed | controllers/propagate.go:296-334 | Which changes of a covering copy make the controller write: a key is missing or differs where the clone's value is not empty |
| ServerSideApply.DroppedKey | controllers/namespace_controller.go:89-135 | What becomes of a key that is no longer applied: it goes unless others own it |
| Resources.CloneResource | controllers/propagate.go:33-64 | The loops that build a clone compute the filtered labels, annotations and contents |
| Resources.CloneHas | controllers/propagate.go:33-64 | A clone key by key: what is not excluded, with its value, created-by and from, and all contents but the secrets of a service account |
| Resources.CreatedHas | controllers/propagate.go:248-277 | A created copy has exactly what the clone has; later applies that leave a key out do not remove it |
| Resources.AppliedHas | controllers/propagate.go:279-294 | An applied copy has what the clone has, and else what others own; the status is left alone |
| Resources.CloneOfClone | controllers/propagate.go:33-64 | A clone of a clone is a clone of the origin but for the from annotation, whatever is excluded |
| Resources.CloneAlongIsCloneOnce | controllers/propagate.go:33-64 | Cloning along a path of any length is cloning once, from the next-to-last namespace |
| PropagateController.Controller.Reconcile | controllers/propagate.go:87-156 | One reconciliation: the new copies as a function of the old ones, one API write per changed copy, nothing else touched |
| PropagateController.Controller.HandleDelete | controllers/propagate.go:175-246 | A delete event re-creates the copy or deletes the update-mode copies of the children |
| PropagateController.NothingIsRecreated | controllers/propagate.go:175-216 | Without the parent or template namespace, or without a resource in it, nothing is re-created; an empty parent label hides the template |
| PropagateController.Controller.PropagateCreate | controllers/propagate.go:248-277 | Copies are created in exactly the children that have none |
| PropagateController.Controller.PropagateUpdate | controllers/propagate.go:296-336 | Exactly the children whose copy is missing or not covering are written |
| PropagateController.Controller.PropagateUpdateFrom | controllers/propagate.go:279-294 | A copy that does not cover its source is re-synced before anything else |
| Convergence.ChildrenAreSourced | controllers/propagate.go:158-192 | In a forest the downward lookup of children and the upward lookup of the source are inverse |
| Convergence.WritesAreGood | controllers/propagate.go:87-336 | Every write puts right a copy that disagreed with its source |
| Convergence.WritesAreClones | controllers/propagate.go:87-336 | Every write creates or applies a clone from the source, in the modes that allow it, or deletes an update-mode copy without source |
| Convergence.NewCopiesHave | controllers/propagate.go:87-336 | A created copy has exactly the labels, annotations and contents of its source that are not excluded, and says where it comes from |
| Convergence.WritesPay | controllers/propagate.go:87-336 | Every write strictly lowers the sum of the subtree sizes of the disagreeing namespaces, by one at least for each copy written |
| Convergence.FinitelyManyWrites | controllers/propagate.go:87-336 | In any order of events the controller writes at most n*n times to n namespaces |
| Convergence.QuietIffServed | controllers/propagate.go:87-156 | Reconciling the existing copies writes nothing iff every copy has what it asks for in the namespaces below it and is what the copy it claims to come from asks for, wherever there are origins |
| Convergence.QuiescentIffConsistent | controllers/propagate.go:87-246 | With delete events counted too, a request for any namespace, nothing is written iff every copy agrees with its source, a missing one included, and with the copy it claims to come from; the former is enough where these claims are true |
| Convergence.RoundsConverge | controllers/propagate.go:87-336 | Reconciling the existing copies and handling deletions over and over, in any order, comes to rest after n*n+1 rounds, and every copy then has what it asks for below it |
| Convergence.NothingToPushMeansCovered | controllers/propagate.go:107-143 | If reconciling an update-mode resource writes nothing, all children cover it, in any store |
| Convergence.ReachesDescendants | controllers/propagate.go:107-143 | When reconciling the existing copies writes nothing, an update-mode resource is in every descendant at any depth, with each label, annotation and piece of contents that is not excluded |
| Cascade.CascadeDeletesExactly | controllers/propagate.go:175-246 | Handling the delete events in any order ends after at most one event per copy and deletes exactly the copies joined to the deleted one by update-mode copies |
| NamespaceController.Reconciler.PropagateResource | controllers/namespace_controller.go:153-208 | One pass over the resources of a kind, per name, and nothing else touched |
| NamespaceController.Reconciler.DeleteResource | controllers/namespace_controller.go:265-292 | Update-mode copies go, origins and everything else stay |
| NamespaceController.Reconciler.PropagateMeta | controllers/namespace_controller.go:89-135 | One forced apply of the inherited and the requested labels and annotations |
| NamespaceController.Reconciler.PushMeta | controllers/namespace_controller.go:312-321 | The loops over children apply to each of them, from the metadata read before |
| NamespaceController.Reconciler.Reconcile | controllers/namespace_controller.go:60-87 | One reconciliation of a namespace: all namespaces and all resources afterwards |
| ResourcePasses.OnePassSyncs | controllers/namespace_controller.go:153-263 | After one pass update-mode sources are covered and every copy that is left has such a source and says so |
| ResourcePasses.NewCopyHas | controllers/namespace_controller.go:210-231 | Where there was nothing, a pass leaves a copy of a create-mode or update-mode source with exactly what is not excluded |
| ResourcePasses.OldCopyHas | controllers/namespace_controller.go:233-263 | Where there was something, all of an update-mode source that is not excluded arrives |
| ResourcePasses.OthersAreSpared | controllers/namespace_controller.go:233-263 | What others have added to a copy, and its status, stays |
| ResourcePasses.OthersStay | controllers/namespace_controller.go:153-208 | Without a source to copy, a pass deletes copies and leaves all else as it is |
| ResourcePasses.ReconciliationIsPass | controllers/namespace_controller.go:60-87 | A reconciliation is a pass with the source as parent; without a source copies go, and with a missing one nothing is done |
| ResourcePasses.TwoPassesSettle | controllers/namespace_controller.go:153-263 | A second pass changes something iff a stale copy hid a create-mode source; then every such source has a copy and a third pass is idle |
| ResourcePasses.OnlyCopiesAreDeleted | controllers/namespace_controller.go:265-301 | A reconciliation deletes only update-mode copies, all of them without parent and template, and changes the rest only by syncing |
| Counterexamples.OnePassIsNotEnough | controllers/namespace_controller.go:162-206 | A concrete stale copy that keeps a create-mode source from being copied |
| Inheritance.ShapeStays | controllers/namespace_controller.go:89-135 | Reconciliations never change type, parent and template labels, and keep the forest |
| Inheritance.StepShape | controllers/namespace_controller.go:303-379 | A reconciliation touches exactly the namespace and those whose source it is |
| Inheritance.TurnIsFinal | controllers/namespace_controller.go:303-330 | In a parents-first pass a namespace is, when its own turn comes, what it will be in the end, so what it pushes before it pulls is up to date |
| Inheritance.PassResult | controllers/namespace_controller.go:303-330 | A parents-first pass makes a namespace inherit exactly once, from its finished source |
| Inheritance.OrderIsNoMatter | controllers/namespace_controller.go:60-87 | Any two parents-first orders give the same result |
| Inheritance.LabelsAfterPass | controllers/namespace_controller.go:89-135 | After a parents-first pass every label has the value its SubNamespace asks for, else that of the finished source, else the one a user gave it, else it is gone |
| Inheritance.AnnotationsAfterPass | controllers/namespace_controller.go:89-135 | The same for annotations |
| Inheritance.PushKeepsUserLabel | controllers/namespace_controller.go:312-321 | Reconciling one namespace keeps a user's label below it iff neither the SubNamespace nor that namespace, as it was before, has another value for it |
| Inheritance.StalePushDecides | controllers/namespace_controller.go:303-330 | When a namespace and then one below it are reconciled, a user's label there has the value wished for in the end, or else is there unless another value was pushed on the way; all in terms of the namespaces before |
| Inheritance.SecondPassIsIdle | controllers/namespace_controller.go:60-87 | A second pass changes no namespace |
| Counterexamples.UserLabelIsLost | controllers/namespace_controller.go:312-321 | Three concrete namespaces where a stale push, out of order, removes the label of a user |
| Lifecycle.MovedNamespaceSurvives | cmd/kubectl-accurate/sub/sub_move.go:65-117 | The namespace survives every interleaving with the reconciler, wherever its reconciliations have got, iff its deletion is refused or at the start nobody is about to delete it and in neither parent a finalization is under way or due; the same for cut and graft |
| Lifecycle.MoveSettles | cmd/kubectl-accurate/sub/sub_move.go:65-117 | When a successful move settles, the new object has the old spec, and the old object reports a conflict if it was left, or else is gone iff nobody else's finalizers pin it |
| Lifecycle.CutSettles | cmd/kubectl-accurate/sub/sub_cut.go:54-84 | When a successful cut settles, the namespace has no parent and the object is gone iff nobody else's finalizers pin it |
| Lifecycle.GraftSettles | cmd/kubectl-accurate/sub/sub_graft.go:61-90 | When a successful graft settles, the namespace has the new parent and an object there that asks for nothing and reports no conflict |
| Lifecycle.NewObjectIsPinned | hooks/subnamespace.go:36-53 | An object that a command creates is in the new parent and has the finalizer |
| Lifecycle.OthersStayPinned | controllers/subnamespace_controller.go:96-116 | Of the finalizers only the controller's own is removed; the others stay, in their order |
| Lifecycle.MoveNeedsTheObject | cmd/kubectl-accurate/sub/sub_move.go:88-91 | Without the original object a move fails, after it has changed the parent |
| SubNamespaceController.Reconciler.Finalize | controllers/subnamespace_controller.go:65-94 | The namespace is deleted iff it is a child of the object's namespace, and the object unpinned |
| SubNamespaceController.Reconciler.ReconcileNS | controllers/subnamespace_controller.go:118-160 | The namespace is created if missing and a conflict is reported iff it has another parent |
| SubNamespaceController.Reconciler.Reconcile | controllers/subnamespace_controller.go:41-63 | A reconciliation does what the interleaved calls do, and touches one name only |
| SubNamespaceController.DeletionReachesNamespace | controllers/subnamespace_controller.go:65-116 | Deleting an object and reconciling deletes its namespace, and then the object unless others pin it |
| SubNamespaceController.CreationReachesNamespace | controllers/subnamespace_controller.go:118-160 | Creating an object and reconciling creates its namespace if there is none, and reports a conflict iff that has another parent |
| SubNamespaceController.Move | cmd/kubectl-accurate/sub/sub_move.go:65-117 | The command does what its interleaved calls do when it runs alone; no label but the parent, no other namespace and no object of another name changes |
| SubNamespaceController.Cut | cmd/kubectl-accurate/sub/sub_cut.go:54-84 | The same for cut, which removes the parent and makes the namespace a root |
| SubNamespaceController.Graft | cmd/kubectl-accurate/sub/sub_graft.go:61-90 | The same for graft, which sets the parent and removes type and template |
| Decimal.ParseFormatInt | api/accurate/v1/conversion.go:23-31 | Every 64-bit generation is read back from its decimal text |
| Decimal.ReadableInts | api/accurate/v1/conversion.go:23-31 | Which texts of digits, with a sign or without, are read, and as what: digits count by position, up to 64 bits |
| Decimal.FormatIntIsShort | api/accurate/v1/conversion.go:62-64 | The text has a minus sign iff the number is negative, digits, and no superfluous zeros |
| Conversion.FirstConditionDecides | api/accurate/v1/conversion.go:49-51 | Stalled is true iff the first Stalled condition is |
| Conversion.StatusMeans | api/accurate/v1/conversion.go:49-60 | The v1 status is conflict iff the first Stalled condition is true, ok iff there are no conditions and the present generation was observed, and else empty |
| Conversion.ToV1Keeps | api/accurate/v1/conversion.go:44-79 | Metadata, spec and other annotations are the same in v1, and two annotations hold the rest |
| Conversion.ToV2Keeps | api/accurate/v1/conversion.go:16-41 | What v2 has, and that conversion fails iff one of the two annotations cannot be read |
| Conversion.ConvertV2ToV1 | api/accurate/v1/conversion.go:44-79 | The v1 object, and what the shared annotation map of the source becomes |
| Conversion.ConvertV1ToV2 | api/accurate/v1/conversion.go:16-41 | The v2 object, or failure iff a stashed annotation cannot be read |
| Conversion.V2RoundTrip | api/accurate/v1/conversion.go:16-79 | v2 to v1 to v2 loses nothing |
| Conversion.V1RoundTrip | api/accurate/v1/conversion.go:16-79 | v1 to v2 to v1 loses nothing iff the status is empty |
| Conversion.ConvertedV1RoundTrip | api/accurate/v1/conversion.go:16-79 | A v1 object that came from v2 survives v1 to v2 to v1 with its status |
| Conversion.ThereAndBack | api/accurate/v1/conversion.go:16-79 | The round trip on objects that share an annotation map: same result, and the source as before |
| Listing.FillChildMap | cmd/kubectl-accurate/sub/list.go:68-77 | The child map holds the children of every namespace in name order |
| Listing.CollectRoots | cmd/kubectl-accurate/sub/list.go:87-91 | The roots in name order |
| Listing.PrintedOnce | cmd/kubectl-accurate/sub/list.go:98-125 | Every root and every sub-namespace is printed exactly once, nothing else is |
| Listing.OutputIsTidy | cmd/kubectl-accurate/sub/list.go:105-125 | Every line is below the line of its parent, which is the closest line above with less indentation, and siblings are in name order |
| Listing.LastsAreMarked | cmd/kubectl-accurate/sub/list.go:98-125 | A line is marked as the last of its siblings iff it is |
| Listing.FirstDifferenceDecides | cmd/kubectl-accurate/sub/list.go:64-66 | Names are ordered by their first difference, a prefix first |
| Listing.Run | cmd/kubectl-accurate/sub/list.go:58-103 | The command on the sorted list of namespaces prints such lines |

## Left out

- Stale caches, concurrent admission of two requests and terminating namespaces: reads are current, requests are serialized, and an admitted deletion removes a namespace at once. What is in a deleted namespace is not removed with it.
- API errors other than "not found", "already exists" and a refusal by a webhook. In `Lifecycle` any call may fail.
- The deprecated propagation of generated resources (`checkController`), which is off by default.
- Resources.CloneResource: contents are a flat map from paths to values, so a list is a single value; `DeepDerivative` also accepts a copy whose list continues that of the source.
- PropagateController.Controller.Reconcile: resources with a deletion timestamp, on which the original does nothing, do not occur, because a deletion removes a resource at once.
- Naming policies, glob patterns and the validation of label syntax, which are library code; they are arbitrary predicates here.
- The merge patch that removes a finalizer: only that it replaces the list of finalizers.
- Lifecycle.MovedNamespaceSurvives: whether the webhook admits the deletion of the namespace does not change during a run.
- Lifecycle.MoveSettles: a reconciliation that is about to remove the finalizer at the start has read the finalizers that the old object then has.
- SubNamespaceController.Reconciler.ReconcileNS: observed generation, reason, message and transition time of the status are not modelled, only whether a conflict is reported.
- SubNamespaceController.Move: a creation of the new SubNamespace that the naming policy refuses is not modelled here; in `Lifecycle` the command may give up at any call.
- Conversion.V2RoundTrip: the JSON codec of conditions is assumed to be invertible.
- Listing.Run: sorting is library code, so the sorted list is an argument; a given ROOT argument is not modelled.
- v2alpha1 conversions, the mutating webhook beyond the finalizer it sets, deep copies, manager wiring, feature gates, RBAC, logging, retries and other commands.
