/** Concrete cases in which the code does not do what one would wish; the exact conditions are
    in the modules that are imported here. */
module Counterexamples {
  import opened Meta
  import opened Chains
  import opened ServerSideApply
  import opened Resources
  import opened Cluster
  import opened NamespaceWebhook
  import opened NamespaceForest
  import opened PropagateController
  import opened NamespaceController
  import opened Convergence
  import opened Inheritance

  const ROOT: Labels := map[Type := NS_TYPE_ROOT]
  const TEMPLATE: Labels := map[Type := NS_TYPE_TEMPLATE]

  function SubOf(parent: Name): Labels { map[Parent := parent] }

  function InstanceOf(template: Name): Labels { map[Template := template] }

  /** Root r, sub-namespace p of r, sub-namespace c of p, and a template t. */
  function FourNamespaces(): Store {
    map["r" := ROOT, "p" := SubOf("r"), "c" := SubOf("p"), "t" := TEMPLATE]
  }

  lemma FourNamespacesEnd(links: Links)
    requires links == map["r" := "", "p" := "r", "c" := "p", "t" := ""]
    ensures AllWalksEnd(links)
  {
    EndsAtTop(links);
    EndsNext(links, "r");
    EndsNext(links, "p");
    EndsNext(links, "c");
    EndsNext(links, "t");
  }

  lemma FourNamespacesAreValid()
    ensures WellFormed(FourNamespaces()) && ParentsValid(FourNamespaces())
  {
  }

  lemma FourNamespacesLinks()
    ensures ParentLinks(FourNamespaces()) == map["r" := "", "p" := "r", "c" := "p", "t" := ""]
  {
  }

  lemma FourNamespacesAreForest()
    ensures ParentForest(FourNamespaces())
  {
    FourNamespacesAreValid();
    FourNamespacesLinks();
    FourNamespacesEnd(ParentLinks(FourNamespaces()));
  }

  /** The webhook lets a sub-namespace with sub-namespaces become an instance of a template,
      and its sub-namespaces are left with a parent that is neither root nor sub-namespace. */
  lemma SwapIsAccepted()
    ensures ParentForest(FourNamespaces())
    ensures Accepted(FourNamespaces(), Update("p", InstanceOf("t")), false)
    ensures !ParentForest(Serve(FourNamespaces(), Update("p", InstanceOf("t")), false))
  {
    var s := FourNamespaces();
    FourNamespacesAreForest();
    var links := SourceLinks(s["p" := InstanceOf("t")]);
    EndsAtTop(links);
    EndsNext(links, "t");
    EndsNext(links, "p");
    OutcomesExclusive(links, "p");
    assert "c" in SubsOf(s, "p");
    UpdateKeepsParentForest(s, "p", InstanceOf("t"));
  }

  /** The webhook lets a namespace name a sub-namespace as its template, and then lets the
      sub-namespace be deleted. */
  lemma TemplateReferenceIsLeftDangling()
    ensures var s := map["r" := ROOT, "s" := SubOf("r")];
            var reqs := [Create("x", InstanceOf("s")), Delete("s")];
            var end := ServeAll(s, reqs, false);
            "x" in end && TemplateOf(end["x"]) == "s" && "s" !in end
  {
    var s := map["r" := ROOT, "s" := SubOf("r")];
    var reqs := [Create("x", InstanceOf("s")), Delete("s")];
    assert Accepted(s, reqs[0], false);
    var s1 := Serve(s, reqs[0], false);
    assert s1 == s["x" := InstanceOf("s")];
    assert SubsOf(s1, "s") == {};
    assert Accepted(s1, reqs[1], false);
    assert reqs[1..] == [reqs[1]];
    assert ServeAll(s1, reqs[1..], false) == ServeAll(Serve(s1, reqs[1], false), [], false);
  }

  function Plain(annotations: Labels): Resource {
    Created(Manifest(map[], annotations, map[]))
  }

  /** A stale copy keeps a create-mode source from being copied in the same pass. */
  lemma OnePassIsNotEnough(cl: Cloner)
    ensures var source := Some(Plain(map[Propagate := PROPAGATE_CREATE]));
            var stale := Some(Plain(map[Propagate := PROPAGATE_UPDATE, From := "elsewhere"]));
            var once := PassAt(cl, "parent", source, stale);
            once.None? && PassAt(cl, "parent", source, once).Some?
  {
  }

  const TEAM := Custom("team")

  function TeamOnly(): Config {
    Config(k => k == TEAM, k => false, k => false, k => false)
  }

  /** Root r has no label "team" any more, its sub-namespace p still has the one that Accurate
      gave it, and a user gave p's sub-namespace c another. */
  function ThreeNamespaces(): Namespaces {
    map["r" := Namespace(map[Type := Field(NS_TYPE_ROOT, {Other})], map[]),
        "p" := Namespace(map[Parent := Field("r", {Other}), TEAM := Field("v", {Accurate})], map[]),
        "c" := Namespace(map[Parent := Field("p", {Other}), TEAM := Field("u", {Other})], map[])]
  }

  lemma ThreeNamespacesLabels()
    ensures LabelsOf(ThreeNamespaces()) ==
            map["r" := ROOT, "p" := SubOf("r")[TEAM := "v"], "c" := SubOf("p")[TEAM := "u"]]
  {
    var s := LabelsOf(ThreeNamespaces());
    assert s["r"] == ROOT;
    assert s["p"] == SubOf("r")[TEAM := "v"];
    assert s["c"] == SubOf("p")[TEAM := "u"];
  }

  lemma ThreeNamespacesLinks(s: Store)
    requires s == map["r" := ROOT, "p" := SubOf("r")[TEAM := "v"], "c" := SubOf("p")[TEAM := "u"]]
    ensures ParentLinks(s) == map["r" := "", "p" := "r", "c" := "p"]
    ensures TemplateLinks(s) == map["r" := "", "p" := "", "c" := ""]
  {
    assert ParentOf(s["r"]) == "" && TemplateOf(s["r"]) == "";
    assert ParentOf(s["p"]) == "r" && TemplateOf(s["p"]) == "";
    assert ParentOf(s["c"]) == "p" && TemplateOf(s["c"]) == "";
  }

  lemma ThreeNamespacesEnd(links: Links)
    requires links == map["r" := "", "p" := "r", "c" := "p"] || links == map["r" := "", "p" := "", "c" := ""]
    ensures AllWalksEnd(links)
  {
    EndsAtTop(links);
    EndsNext(links, "r");
    EndsNext(links, "p");
    EndsNext(links, "c");
  }

  lemma ThreeNamespacesAreValid(s: Store)
    requires s == map["r" := ROOT, "p" := SubOf("r")[TEAM := "v"], "c" := SubOf("p")[TEAM := "u"]]
    ensures WellFormed(s) && ParentsValid(s) && TemplatesValid(s) && NoEmptyReferences(s)
  {
  }

  lemma ThreeNamespacesAreForest()
    ensures Forest(LabelsOf(ThreeNamespaces())) && NoEmptyReferences(LabelsOf(ThreeNamespaces()))
  {
    var s := LabelsOf(ThreeNamespaces());
    ThreeNamespacesLabels();
    ThreeNamespacesLinks(s);
    ThreeNamespacesAreValid(s);
    ThreeNamespacesEnd(ParentLinks(s));
    ThreeNamespacesEnd(TemplateLinks(s));
  }

  lemma ThreeNamespacesAreReady()
    ensures Ready(ThreeNamespaces())
  {
    ThreeNamespacesAreForest();
  }

  lemma ThreeNamespacesWishes()
    ensures var all, cfg := ThreeNamespaces(), TeamOnly();
            && Source(all, "p") == "r" && Source(all, "c") == "p"
            && NextLabel(cfg, map[], all, "p", TEAM) == None
            && WishedGiven(cfg, map[], all, "c", None, TEAM) == None
            && WishedLabel(cfg, map[], all, "c", all["p"], TEAM) == Some("v")
            && ValueAt(all["c"].labels, TEAM) == Some("u") && Other in all["c"].labels[TEAM].owners
  {
  }

  /** Out of order a label of a user may be lost: reconciled before r, p pushes the label that
      it is about to lose, and when c is reconciled the label of the user is gone. */
  lemma UserLabelIsLost()
    ensures var cfg := TeamOnly();
            && "p" in ThreeNamespaces()
            && var all := MetaReconciled(cfg, map[], ThreeNamespaces(), "p");
               && "c" in all && "p" in all && TEAM !in all["p"].labels
               && var all' := MetaReconciled(cfg, map[], all, "c");
                  "c" in all' && TEAM !in all'["c"].labels
  {
    ThreeNamespacesAreReady();
    ThreeNamespacesWishes();
    ReconciledHasNext(TeamOnly(), map[], ThreeNamespaces(), "p", TEAM);
    StalePushDecides(TeamOnly(), map[], ThreeNamespaces(), "p", "c", TEAM);
  }
}
