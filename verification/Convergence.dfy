/** What the propagation controller achieves over whole runs, for the copies of one resource
    in a forest of namespaces. */
module Convergence {
  import opened Meta
  import opened Chains
  import opened ServerSideApply
  import opened Resources
  import opened NamespaceWebhook
  import opened NamespaceForest
  import opened PropagateController

  /** The downward and the upward view of the forest are inverse: the namespaces that a
      namespace propagates to are those whose source it is. */
  lemma ChildrenAreSourced(store: Store, p: Name, c: Name)
    requires Forest(store)
    ensures c in Children(store, p) <==> c in store && p in store && SourceOf(store[c]) == p
  {
    if c in store {
      assert BareSub(store[c]);
      assert HasParent(store, c) || !IsSub(store[c]);
      assert HasTemplate(store, c) || TemplateOf(store[c]) == "";
    }
    if p in store && IsSub(store[p]) { assert BareSub(store[p]); }
  }

  /** Parent and template labels are absent or non-empty. */
  ghost predicate NoEmptyReferences(store: Store) {
    forall n | n in store ::
      (Parent in store[n] ==> store[n][Parent] != "") && (Template in store[n] ==> store[n][Template] != "")
  }

  /** The assumptions on the cluster and the configuration. */
  ghost predicate Configured(store: Store, cl: Cloner) {
    Forest(store) && NoEmptyReferences(store) && !cl.annotationExcluded(Propagate)
  }

  /** Copies live in existing namespaces, and each claims to come from nowhere or from the
      source of its namespace. */
  ghost predicate FromTree(store: Store, R: Copies) {
    forall c | c in R :: c in store && (FromOf(R[c]) == "" || FromOf(R[c]) == SourceOf(store[c]))
  }

  /** The copy in c is what the copy in the source of c asks for. */
  predicate Agrees(store: Store, cl: Cloner, R: Copies, c: Name)
    requires c in store
  {
    var p := SourceOf(store[c]);
    p != "" ==>
      if p !in R then !IsUpdateCopy(R, c)
      else if ModeOf(R[p]) == PROPAGATE_UPDATE then c in R && Covers(CloneOf(cl, R[p], p), R[c])
      else ModeOf(R[p]) == PROPAGATE_CREATE ==> c in R
  }

  function Disagreeing(store: Store, cl: Cloner, R: Copies): set<Name> {
    set c | c in store && !Agrees(store, cl, R, c)
  }

  /** Copies that cover a clone say where they come from, and inherit its mode. */
  lemma CoveringCopy(cl: Cloner, res: Resource, home: Name, copy: Resource)
    requires Covers(CloneOf(cl, res, home), copy)
    ensures home != "" ==> FromOf(copy) == home
    ensures !cl.annotationExcluded(Propagate) && ModeOf(res) != "" ==> ModeOf(copy) == ModeOf(res)
  {
    var m := CloneOf(cl, res, home);
    assert m.annotations[From] == home;
    if !cl.annotationExcluded(Propagate) && ModeOf(res) != "" {
      assert m.annotations[Propagate] == ModeOf(res);
    }
  }

  /** What one reconciliation does to the copy in c, if it does anything. */
  ghost predicate GoodWrite(store: Store, cl: Cloner, R: Copies, R': Copies, c: Name)
    requires c in store
  {
    !Agrees(store, cl, R, c) && Agrees(store, cl, R', c) && IsCloneWrite(cl, R, R', c, SourceOf(store[c])) &&
    (c in R' ==> FromOf(R'[c]) == SourceOf(store[c]))
  }

  /** The copy in c becomes a clone from p: a new copy of a source in either mode, or the copy
      that is there with a clone of an update-mode source applied to it.  Or an update-mode
      copy is deleted for want of a source. */
  ghost predicate IsCloneWrite(cl: Cloner, R: Copies, R': Copies, c: Name, p: Name) {
    p != "" &&
    if c !in R' then IsUpdateCopy(R, c) && p !in R
    else if c in R then IsUpdateCopy(R, p) && R'[c] == Applied(R[c], CloneOf(cl, R[p], p))
    else IsPropagating(R, p) && R'[c] == Created(CloneOf(cl, R[p], p))
  }

  lemma SyncIsGood(store: Store, cl: Cloner, R: Copies, n: Name, R': Copies, c: Name)
    requires Configured(store, cl) && n in R && ModeOf(R[n]) == PROPAGATE_UPDATE
    requires R' == SyncedTo(cl, R, n, Children(store, n)) && c in Changed(R, R')
    ensures c in store && SourceOf(store[c]) == n && GoodWrite(store, cl, R, R', c)
  {
    ChildrenAreSourced(store, n, c);
    ChildrenAreSourced(store, n, n);
    SourceIsAnother(store, n);
    SyncWrites(CloneOf(cl, R[n], n), Lookup(R, c));
    assert c in Children(store, n);
    assert R'[c] == Synced(cl, R, n, c);
    assert R'[n] == R[n];
    CoveringCopy(cl, R[n], n, R'[c]);
  }

  lemma SourceIsAnother(store: Store, n: Name)
    requires Forest(store) && n in store
    ensures SourceOf(store[n]) != n
  {
    ForestIsAcyclic(store);
    NoSelfLink(SourceLinks(store), n);
  }

  lemma CreateIsGood(store: Store, cl: Cloner, R: Copies, n: Name, R': Copies, c: Name)
    requires Configured(store, cl) && n in R && ModeOf(R[n]) == PROPAGATE_CREATE
    requires R' == CreatedIn(cl, R, n, Children(store, n)) && c in Changed(R, R')
    ensures c in store && SourceOf(store[c]) == n && GoodWrite(store, cl, R, R', c)
  {
    ChildrenAreSourced(store, n, c);
    WrittenIsCovered(CloneOf(cl, R[n], n), R[n]);
    CoveringCopy(cl, R[n], n, Created(CloneOf(cl, R[n], n)));
  }

  lemma PullIsGood(store: Store, cl: Cloner, R: Copies, n: Name, R': Copies)
    requires Configured(store, cl) && n in store
    requires var p := SourceOf(store[n]);
             && p != "" && IsPropagating(R, p)
             && (n in R ==> ModeOf(R[p]) == PROPAGATE_UPDATE && !Covers(CloneOf(cl, R[p], p), R[n]))
             && R' == R[n := Sync(CloneOf(cl, R[p], p), Lookup(R, n))]
    ensures GoodWrite(store, cl, R, R', n)
  {
    var p := SourceOf(store[n]);
    SourceIsAnother(store, n);
    SyncWrites(CloneOf(cl, R[p], p), Lookup(R, n));
    CoveringCopy(cl, R[p], p, R'[n]);
  }

  lemma DeleteIsGood(store: Store, cl: Cloner, R: Copies, R': Copies, c: Name)
    requires Configured(store, cl) && c in store && SourceOf(store[c]) != "" && SourceOf(store[c]) !in R
    requires IsUpdateCopy(R, c) && c !in R' && R'.Keys <= R.Keys
    ensures GoodWrite(store, cl, R, R', c)
  {
  }

  lemma DeleteEventIsGood(store: Store, cl: Cloner, R: Copies, n: Name, c: Name)
    requires Configured(store, cl) && n !in R
    requires c in Changed(R, AfterDelete(store, cl, R, n))
    ensures c in store && GoodWrite(store, cl, R, AfterDelete(store, cl, R, n), c)
  {
    var R' := AfterDelete(store, cl, R, n);
    assert RecreateSource(store[n]) == SourceOf(store[n]);
    if IsPropagating(R, SourceOf(store[n])) && SourceOf(store[n]) != "" {
      PullIsGood(store, cl, R, n, R');
    } else {
      ChildrenAreSourced(store, n, c);
      DeleteIsGood(store, cl, R, R', c);
    }
  }

  lemma PulledOrPushedIsGood(store: Store, cl: Cloner, R: Copies, n: Name, c: Name)
    requires Configured(store, cl) && FromTree(store, R) && n in R
    requires FromOf(R[n]) != "" && IsUpdateCopy(R, FromOf(R[n]))
    requires c in Changed(R, Reconciled(store, cl, R, n))
    ensures c in store && GoodWrite(store, cl, R, Reconciled(store, cl, R, n), c)
  {
    var R' := Reconciled(store, cl, R, n);
    var from := FromOf(R[n]);
    if Covers(CloneOf(cl, R[from], from), R[n]) {
      CoveringCopy(cl, R[from], from, R[n]);
      SyncIsGood(store, cl, R, n, R', c);
    } else {
      assert c == n;
      PullIsGood(store, cl, R, n, R');
    }
  }

  /** Every write of a reconciliation puts right a copy that disagreed with its source. */
  lemma WritesAreGood(store: Store, cl: Cloner, R: Copies, n: Name, c: Name)
    requires Configured(store, cl) && FromTree(store, R)
    requires c in Changed(R, Reconciled(store, cl, R, n))
    ensures c in store && GoodWrite(store, cl, R, Reconciled(store, cl, R, n), c)
  {
    var R' := Reconciled(store, cl, R, n);
    if n !in R {
      DeleteEventIsGood(store, cl, R, n, c);
    } else if FromOf(R[n]) != "" && FromOf(R[n]) !in R && IsUpdateCopy(R, n) {
      DeleteIsGood(store, cl, R, R', c);
    } else if FromOf(R[n]) != "" && IsUpdateCopy(R, FromOf(R[n])) {
      PulledOrPushedIsGood(store, cl, R, n, c);
    } else if ModeOf(R[n]) == PROPAGATE_CREATE {
      CreateIsGood(store, cl, R, n, R', c);
    } else if ModeOf(R[n]) == PROPAGATE_UPDATE {
      SyncIsGood(store, cl, R, n, R', c);
    }
  }

  /** Every write makes a clone from the source, or deletes a copy for want of one. */
  lemma WritesAreClones(store: Store, cl: Cloner, R: Copies, n: Name, c: Name)
    requires Configured(store, cl) && FromTree(store, R)
    requires c in Changed(R, Reconciled(store, cl, R, n))
    ensures c in store && IsCloneWrite(cl, R, Reconciled(store, cl, R, n), c, SourceOf(store[c]))
  {
    WritesAreGood(store, cl, R, n, c);
  }

  /** A copy that a reconciliation creates has exactly the labels, annotations and contents of
      its source that are not excluded, and the marks of where it comes from. */
  lemma NewCopiesHave(store: Store, cl: Cloner, R: Copies, n: Name, c: Name, k: MetaKey, b: string)
    requires Configured(store, cl) && FromTree(store, R)
    requires c !in R && c in Reconciled(store, cl, R, n)
    ensures c in store && SourceOf(store[c]) in R
    ensures var r, p := Reconciled(store, cl, R, n)[c], SourceOf(store[c]);
            && ValueAt(r.labels, k) == (if k == CreatedBy then Some("accurate")
                                        else if cl.labelExcluded(k) then None else ValueAt(R[p].labels, k))
            && ValueAt(r.annotations, k) == (if k == From then Some(p)
                                             else if cl.annotationExcluded(k) then None
                                             else ValueAt(R[p].annotations, k))
            && ValueAt(r.body, b) == (if cl.serviceAccount && b == "secrets" then None else ValueAt(R[p].body, b))
  {
    WritesAreClones(store, cl, R, n, c);
    var p := SourceOf(store[c]);
    CloneHas(cl, R[p], p, k, b);
    CreatedHas(CloneOf(cl, R[p], p), CloneOf(cl, R[p], p), k, b);
  }

  /** The assumption about from annotations is kept. */
  lemma ReconcileKeepsFromTree(store: Store, cl: Cloner, R: Copies, n: Name)
    requires Configured(store, cl) && FromTree(store, R)
    ensures FromTree(store, Reconciled(store, cl, R, n))
  {
    var R' := Reconciled(store, cl, R, n);
    forall c | c in R' ensures c in store && (FromOf(R'[c]) == "" || FromOf(R'[c]) == SourceOf(store[c])) {
      if c in Changed(R, R') { WritesAreGood(store, cl, R, n, c); }
    }
  }

  /** How many of the first k names of a walk are bad. */
  ghost function BadOnWay(links: Links, bad: set<Name>, m: Name, k: nat): nat
    decreases k
  {
    if k == 0 || m !in links then 0
    else (if m in bad then 1 else 0) + BadOnWay(links, bad, links[m], k - 1)
  }

  /** Putting right the names in `fixed` can spoil only the names directly below them, and
      still no walk meets more bad names than before; from a fixed name it meets fewer. */
  lemma {:induction false} FixingPays(links: Links, bad: set<Name>, bad': set<Name>, fixed: set<Name>, m: Name, k: nat)
    requires "" !in links && fixed <= links.Keys && fixed <= bad && fixed !! bad'
    requires forall c | c in links && c in bad' && c !in bad :: links[c] in fixed
    requires Up(links, m, k) == ""
    ensures BadOnWay(links, bad', m, k) + (if m in fixed then 1 else 0) <= BadOnWay(links, bad, m, k)
    decreases k
  {
    if m in links {
      FixingPays(links, bad, bad', fixed, links[m], k - 1);
    }
  }

  ghost function Pick(s: set<Name>): Name
    requires s != {}
  {
    var x :| x in s; x
  }

  /** The same for all walks that start in s. */
  ghost function BadOnWays(links: Links, bad: set<Name>, s: set<Name>, k: nat): nat {
    if s == {} then 0
    else BadOnWay(links, bad, Pick(s), k) + BadOnWays(links, bad, s - {Pick(s)}, k)
  }

  lemma {:induction false} FixingPaysOverall(links: Links, bad: set<Name>, bad': set<Name>, fixed: set<Name>,
                                             s: set<Name>, k: nat)
    requires "" !in links && fixed <= links.Keys && fixed <= bad && fixed !! bad'
    requires forall c | c in links && c in bad' && c !in bad :: links[c] in fixed
    requires forall m | m in s :: Up(links, m, k) == ""
    ensures BadOnWays(links, bad', s, k) + |fixed * s| <= BadOnWays(links, bad, s, k)
  {
    if s != {} {
      var x := Pick(s);
      FixingPays(links, bad, bad', fixed, x, k);
      FixingPaysOverall(links, bad, bad', fixed, s - {x}, k);
      assert fixed * s == fixed * (s - {x}) + if x in fixed then {x} else {};
    }
  }

  lemma {:induction false} BadOnWayBound(links: Links, bad: set<Name>, m: Name, k: nat)
    ensures BadOnWay(links, bad, m, k) <= k
    decreases k
  {
    if k > 0 && m in links { BadOnWayBound(links, bad, links[m], k - 1); }
  }

  lemma OneMoreTime(n: nat, k: nat)
    requires n > 0
    ensures k + (n - 1) * k == n * k
  {
  }

  lemma {:induction false} BadOnWaysBound(links: Links, bad: set<Name>, s: set<Name>, k: nat)
    ensures BadOnWays(links, bad, s, k) <= |s| * k
  {
    if s == {} {
      assert |s| * k == 0;
    } else {
      var x := Pick(s);
      assert |s - {x}| == |s| - 1;
      BadOnWayBound(links, bad, x, k);
      BadOnWaysBound(links, bad, s - {x}, k);
      OneMoreTime(|s|, k);
    }
  }

  /** b is among the first k names of the walk from m. */
  ghost predicate OnWay(links: Links, m: Name, b: Name, k: nat)
    decreases k
  {
    k > 0 && m in links && (m == b || OnWay(links, links[m], b, k - 1))
  }

  /** The names in s whose walk passes through b. */
  ghost function Passing(links: Links, s: set<Name>, b: Name, k: nat): set<Name> {
    set m | m in s && OnWay(links, m, b, k)
  }

  /** A namespace and all whose chain of sources passes through it. */
  ghost function Subtree(store: Store, b: Name): set<Name> {
    Passing(SourceLinks(store), store.Keys, b, |store|)
  }

  ghost function SubtreeSizes(store: Store, bad: set<Name>): nat {
    if bad == {} then 0 else |Subtree(store, Pick(bad))| + SubtreeSizes(store, bad - {Pick(bad)})
  }

  /** The work left: the sum of the subtree sizes over all disagreeing namespaces. */
  ghost function WorkLeft(store: Store, cl: Cloner, R: Copies): nat {
    SubtreeSizes(store, Disagreeing(store, cl, R))
  }

  lemma {:induction false} OnWayPosition(links: Links, m: Name, b: Name, k: nat) returns (i: nat)
    requires OnWay(links, m, b, k)
    ensures i < k && Up(links, m, i) == b
    decreases k
  {
    if m == b {
      i := 0;
    } else {
      i := OnWayPosition(links, links[m], b, k - 1);
      i := i + 1;
    }
  }

  lemma NotAboveItself(links: Links, b: Name, k: nat)
    requires "" !in links && b in links && Ends(links, b)
    ensures !OnWay(links, links[b], b, k)
  {
    if OnWay(links, links[b], b, k) {
      var i := OnWayPosition(links, links[b], b, k);
      assert Up(links, b, i + 1) == Up(links, b, 0);
      assert Revisits(links, b, 0, i + 1);
      OutcomesExclusive(links, b);
    }
  }

  lemma {:induction false} OneBadOnWay(links: Links, bad: set<Name>, b: Name, m: Name, k: nat)
    requires "" !in links && b in links && Ends(links, b) && b in bad
    ensures BadOnWay(links, bad, m, k) == BadOnWay(links, bad - {b}, m, k) + if OnWay(links, m, b, k) then 1 else 0
    decreases k
  {
    if k > 0 && m in links {
      OneBadOnWay(links, bad, b, links[m], k - 1);
      if m == b { NotAboveItself(links, b, k - 1); }
    }
  }

  lemma OnePassing(links: Links, s: set<Name>, x: Name, b: Name, k: nat)
    requires x in s
    ensures |Passing(links, s, b, k)| == |Passing(links, s - {x}, b, k)| + if OnWay(links, x, b, k) then 1 else 0
  {
    var rest := Passing(links, s - {x}, b, k);
    assert Passing(links, s, b, k) == if OnWay(links, x, b, k) then rest + {x} else rest;
  }

  /** One bad name more adds the number of walks through it. */
  lemma {:induction false} OneBadOnWays(links: Links, bad: set<Name>, b: Name, s: set<Name>, k: nat)
    requires "" !in links && b in links && Ends(links, b) && b in bad
    ensures BadOnWays(links, bad, s, k) == BadOnWays(links, bad - {b}, s, k) + |Passing(links, s, b, k)|
  {
    if s != {} {
      var x := Pick(s);
      OneBadOnWay(links, bad, b, x, k);
      OneBadOnWays(links, bad, b, s - {x}, k);
      OnePassing(links, s, x, b, k);
    }
  }

  lemma {:induction false} NoneBadOnWay(links: Links, m: Name, k: nat)
    ensures BadOnWay(links, {}, m, k) == 0
    decreases k
  {
    if k > 0 && m in links { NoneBadOnWay(links, links[m], k - 1); }
  }

  lemma {:induction false} NoneBadOnWays(links: Links, s: set<Name>, k: nat)
    ensures BadOnWays(links, {}, s, k) == 0
  {
    if s != {} {
      NoneBadOnWay(links, Pick(s), k);
      NoneBadOnWays(links, s - {Pick(s)}, k);
    }
  }

  /** Counted from above or from below: the subtree sizes of the bad namespaces add up to the
      bad namespaces met on all walks. */
  lemma {:induction false} WorkCountedTwice(store: Store, bad: set<Name>)
    requires Forest(store) && bad <= store.Keys
    ensures SubtreeSizes(store, bad) == BadOnWays(SourceLinks(store), bad, store.Keys, |store|)
  {
    var links := SourceLinks(store);
    if bad == {} {
      NoneBadOnWays(links, store.Keys, |store|);
    } else {
      var b := Pick(bad);
      ForestIsAcyclic(store);
      assert Ends(links, b);
      OneBadOnWays(links, bad, b, store.Keys, |store|);
      WorkCountedTwice(store, bad - {b});
    }
  }

  lemma SourceWalksEndSoon(store: Store)
    requires Forest(store)
    ensures forall m | m in store :: Up(SourceLinks(store), m, |store|) == ""
  {
    var links := SourceLinks(store);
    assert links.Keys == store.Keys && |links| == |links.Keys|;
    ForestIsAcyclic(store);
    forall m | m in store ensures Up(links, m, |store|) == "" {
      assert Ends(links, m);
      EndsSoon(links, m);
    }
  }

  lemma FixingPaysEverywhere(links: Links, bad: set<Name>, bad': set<Name>, fixed: set<Name>, k: nat)
    requires "" !in links && fixed <= links.Keys && fixed <= bad && fixed !! bad'
    requires forall c | c in links && c in bad' && c !in bad :: links[c] in fixed
    requires forall m | m in links :: Up(links, m, k) == ""
    ensures BadOnWays(links, bad', links.Keys, k) + |fixed| <= BadOnWays(links, bad, links.Keys, k)
  {
    FixingPaysOverall(links, bad, bad', fixed, links.Keys, k);
    assert fixed * links.Keys == fixed;
  }

  /** Every write of a reconciliation takes something off the work left. */
  lemma WritesPay(store: Store, cl: Cloner, R: Copies, n: Name)
    requires Configured(store, cl) && FromTree(store, R)
    ensures var R' := Reconciled(store, cl, R, n);
            WorkLeft(store, cl, R') + |Changed(R, R')| <= WorkLeft(store, cl, R)
  {
    var R' := Reconciled(store, cl, R, n);
    var links := SourceLinks(store);
    var bad, bad', fixed := Disagreeing(store, cl, R), Disagreeing(store, cl, R'), Changed(R, R');
    forall c | c in fixed ensures c in links && c in bad && c !in bad' {
      WritesAreGood(store, cl, R, n, c);
    }
    forall c | c in links && c in bad' && c !in bad ensures links[c] in fixed {
      AgreementIsLocal(store, cl, R, R', c);
    }
    SourceWalksEndSoon(store);
    FixingPaysEverywhere(links, bad, bad', fixed, |store|);
    WorkCountedTwice(store, bad);
    WorkCountedTwice(store, bad');
    assert links.Keys == store.Keys;
  }

  /** Agreement in c depends on the copies in c and in its source only. */
  lemma AgreementIsLocal(store: Store, cl: Cloner, R: Copies, R': Copies, c: Name)
    requires c in store && Agrees(store, cl, R, c) && !Agrees(store, cl, R', c)
    ensures c in Changed(R, R') || SourceOf(store[c]) in Changed(R, R')
  {
    var p := SourceOf(store[c]);
    assert c !in Changed(R, R') ==> Lookup(R, c) == Lookup(R', c);
    assert p !in Changed(R, R') ==> Lookup(R, p) == Lookup(R', p);
  }

  ghost predicate ReconciledAt(store: Store, cl: Cloner, events: seq<Name>, history: seq<Copies>, i: nat)
    requires i < |events| && i + 1 < |history|
  {
    history[i + 1] == Reconciled(store, cl, history[i], events[i])
  }

  /** The copies before and after each reconciliation of a run over the given namespaces. */
  ghost predicate IsHistory(store: Store, cl: Cloner, events: seq<Name>, history: seq<Copies>) {
    && |history| == |events| + 1
    && forall i: nat {:trigger ReconciledAt(store, cl, events, history, i)} | i < |events| ::
         ReconciledAt(store, cl, events, history, i)
  }

  /** The number of writes in the first k reconciliations. */
  ghost function WritesIn(history: seq<Copies>, k: nat): nat
    requires k < |history|
  {
    if k == 0 then 0 else WritesIn(history, k - 1) + |Changed(history[k - 1], history[k])|
  }

  lemma {:induction false} RunPays(store: Store, cl: Cloner, events: seq<Name>, history: seq<Copies>, k: nat)
    requires Configured(store, cl) && IsHistory(store, cl, events, history) && k <= |events|
    requires FromTree(store, history[0])
    ensures WorkLeft(store, cl, history[k]) + WritesIn(history, k) <= WorkLeft(store, cl, history[0])
    ensures FromTree(store, history[k])
  {
    if k > 0 {
      RunPays(store, cl, events, history, k - 1);
      assert ReconciledAt(store, cl, events, history, k - 1);
      WritesPay(store, cl, history[k - 1], events[k - 1]);
      ReconcileKeepsFromTree(store, cl, history[k - 1], events[k - 1]);
    }
  }

  ghost function Square(n: nat): nat { n * n }

  /** While nobody else writes, the controller writes only finitely often, whatever is
      reconciled in whatever order: at most n*n times for n namespaces. */
  lemma FinitelyManyWrites(store: Store, cl: Cloner, events: seq<Name>, history: seq<Copies>)
    requires Configured(store, cl) && IsHistory(store, cl, events, history) && FromTree(store, history[0])
    ensures WritesIn(history, |events|) <= Square(|store|)
  {
    RunPays(store, cl, events, history, |events|);
    WorkCountedTwice(store, Disagreeing(store, cl, history[0]));
    BadOnWaysBound(SourceLinks(store), Disagreeing(store, cl, history[0]), store.Keys, |store|);
  }

  predicate Idle(store: Store, cl: Cloner, R: Copies, n: Name) {
    Reconciled(store, cl, R, n) == R
  }

  /** Reconciling any of the copies writes nothing. */
  ghost predicate Quiet(store: Store, cl: Cloner, R: Copies) {
    forall n {:trigger Idle(store, cl, R, n)} | n in R :: Idle(store, cl, R, n)
  }

  /** What the copy in the source of c asks for, if there is one, is there. */
  predicate Served(store: Store, cl: Cloner, R: Copies, c: Name)
    requires c in store
  {
    var p := SourceOf(store[c]);
    p != "" && p in R ==>
      if ModeOf(R[p]) == PROPAGATE_UPDATE then c in R && Covers(CloneOf(cl, R[p], p), R[c])
      else ModeOf(R[p]) == PROPAGATE_CREATE ==> c in R
  }

  ghost predicate AllServed(store: Store, cl: Cloner, R: Copies) {
    forall c {:trigger Served(store, cl, R, c)} | c in store :: Served(store, cl, R, c)
  }

  /** The copy in c is what the copy that it claims to come from asks for. */
  predicate Follows(cl: Cloner, R: Copies, c: Name)
    requires c in R
  {
    var from := FromOf(R[c]);
    from != "" ==>
      if from !in R then !IsUpdateCopy(R, c)
      else IsUpdateCopy(R, from) ==> Covers(CloneOf(cl, R[from], from), R[c])
  }

  ghost predicate AllFollow(cl: Cloner, R: Copies) {
    forall c {:trigger Follows(cl, R, c)} | c in R :: Follows(cl, R, c)
  }

  /** Reconciling the copies writes nothing exactly when every copy has what it asks for in the
      namespaces below it, and is what the copy that it claims to come from asks for.  Origins
      may be anywhere. */
  lemma QuietIffServed(store: Store, cl: Cloner, R: Copies)
    requires Configured(store, cl)
    ensures Quiet(store, cl, R) <==> AllServed(store, cl, R) && AllFollow(cl, R)
  {
    if Quiet(store, cl, R) {
      forall c | c in store ensures Served(store, cl, R, c) {
        assert SourceOf(store[c]) in R ==> Idle(store, cl, R, SourceOf(store[c]));
        if SourceOf(store[c]) != "" && SourceOf(store[c]) in R { IdleServes(store, cl, R, c); }
      }
      forall c | c in R ensures Follows(cl, R, c) {
        assert Idle(store, cl, R, c);
        IdleFollows(store, cl, R, c);
      }
    }
    if AllServed(store, cl, R) && AllFollow(cl, R) {
      forall n | n in R ensures Idle(store, cl, R, n) {
        assert Follows(cl, R, n);
        ServingIsIdle(store, cl, R, n);
      }
    }
  }

  lemma IdleServes(store: Store, cl: Cloner, R: Copies, c: Name)
    requires Configured(store, cl) && c in store
    requires var p := SourceOf(store[c]); p != "" && p in R && Idle(store, cl, R, p)
    ensures Served(store, cl, R, c)
  {
    var p := SourceOf(store[c]);
    ForestIsAcyclic(store);
    ChildrenAreSourced(store, p, c);
    if ModeOf(R[p]) == PROPAGATE_UPDATE {
      NothingToPushMeansCovered(store, cl, R, p, c);
    } else if ModeOf(R[p]) == PROPAGATE_CREATE {
      NothingToCreateMeansThere(store, cl, R, p, c);
    }
  }

  lemma IdleFollows(store: Store, cl: Cloner, R: Copies, n: Name)
    requires n in R && Idle(store, cl, R, n)
    ensures Follows(cl, R, n)
  {
    var from := FromOf(R[n]);
    if from != "" && from in R { WrittenIsCovered(CloneOf(cl, R[from], from), R[n]); }
  }

  lemma ServingIsIdle(store: Store, cl: Cloner, R: Copies, n: Name)
    requires Configured(store, cl) && AllServed(store, cl, R) && n in R && Follows(cl, R, n)
    ensures Idle(store, cl, R, n)
  {
    forall c | c in Children(store, n) ensures c in store && SourceOf(store[c]) == n && Served(store, cl, R, c) {
      ChildrenAreSourced(store, n, c);
    }
    var from := FromOf(R[n]);
    if from != "" && IsUpdateCopy(R, from) { CoveringCopy(cl, R[from], from, R[n]); }
    AlreadyPushed(cl, R, n, Children(store, n));
  }

  lemma AlreadyPushed(cl: Cloner, R: Copies, n: Name, cs: set<Name>)
    requires n in R
    ensures (forall c | c in cs :: c in R && Covers(CloneOf(cl, R[n], n), R[c])) ==> SyncedTo(cl, R, n, cs) == R
    ensures cs <= R.Keys ==> CreatedIn(cl, R, n, cs) == R
  {
  }

  /** Without any assumption on the cluster: if reconciling an update-mode resource changes
      nothing, its clone is covered in every child namespace. */
  lemma NothingToPushMeansCovered(store: Store, cl: Cloner, R: Copies, n: Name, c: Name)
    requires IsUpdateCopy(R, n) && Reconciled(store, cl, R, n) == R && c in Children(store, n)
    ensures c in R && Covers(CloneOf(cl, R[n], n), R[c])
  {
    var from := FromOf(R[n]);
    if from != "" && from in R && !Covers(CloneOf(cl, R[from], from), R[n]) {
      WrittenIsCovered(CloneOf(cl, R[from], from), R[n]);
    }
    var R' := SyncedTo(cl, R, n, Children(store, n));
    assert R' == R;
    assert R'[c] == Synced(cl, R, n, c);
    SyncWrites(CloneOf(cl, R[n], n), Lookup(R, c));
  }

  lemma NothingToCreateMeansThere(store: Store, cl: Cloner, R: Copies, n: Name, c: Name)
    requires Configured(store, cl) && n in R && ModeOf(R[n]) == PROPAGATE_CREATE
    requires Idle(store, cl, R, n) && c in Children(store, n)
    ensures c in R
  {
    var from := FromOf(R[n]);
    if from != "" && IsUpdateCopy(R, from) {
      WrittenIsCovered(CloneOf(cl, R[from], from), R[n]);
      CoveringCopy(cl, R[from], from, R[n]);
    }
    assert c in CreatedIn(cl, R, n, Children(store, n));
  }

  /** Neither would a request for a namespace without a copy write anything. */
  ghost predicate Quiescent(store: Store, cl: Cloner, R: Copies) {
    && Quiet(store, cl, R)
    && forall n {:trigger Idle(store, cl, R, n)} | n in store && n !in R :: Idle(store, cl, R, n)
  }

  /** Every copy agrees with its source. */
  ghost predicate Consistent(store: Store, cl: Cloner, R: Copies) {
    forall c {:trigger Agrees(store, cl, R, c)} | c in store :: Agrees(store, cl, R, c)
  }

  /** Delete events included, nothing would be written exactly when every copy agrees with its
      source, and with the copy that it claims to come from; where claims are true, the former
      is enough. */
  lemma QuiescentIffConsistent(store: Store, cl: Cloner, R: Copies)
    requires Configured(store, cl)
    ensures Quiescent(store, cl, R) <==> Consistent(store, cl, R) && AllFollow(cl, R)
    ensures FromTree(store, R) && Consistent(store, cl, R) ==> AllFollow(cl, R)
  {
    QuietIffServed(store, cl, R);
    if Quiescent(store, cl, R) {
      forall c | c in store ensures Agrees(store, cl, R, c) {
        assert Served(store, cl, R, c);
        if !Agrees(store, cl, R, c) { OrphanShows(store, cl, R, c); }
      }
    }
    if Consistent(store, cl, R) && AllFollow(cl, R) {
      forall c | c in store ensures Served(store, cl, R, c) { assert Agrees(store, cl, R, c); }
      forall n | n in store && n !in R ensures Idle(store, cl, R, n) { AbsentIsIdle(store, cl, R, n); }
    }
    if FromTree(store, R) && Consistent(store, cl, R) {
      forall c | c in R ensures Follows(cl, R, c) { assert Agrees(store, cl, R, c); }
    }
  }

  /** The delete event of a source deletes what is below it. */
  lemma OrphanShows(store: Store, cl: Cloner, R: Copies, c: Name)
    requires Configured(store, cl) && c in store && IsUpdateCopy(R, c)
    requires SourceOf(store[c]) != "" && SourceOf(store[c]) !in R
    ensures SourceOf(store[c]) in store && !Idle(store, cl, R, SourceOf(store[c]))
  {
    var p := SourceOf(store[c]);
    ForestIsAcyclic(store);
    ChildrenAreSourced(store, p, c);
    assert RecreateSource(store[p]) == SourceOf(store[p]);
    var R' := Reconciled(store, cl, R, p);
    assert !(c in R' && p !in R');
  }

  lemma AbsentIsIdle(store: Store, cl: Cloner, R: Copies, n: Name)
    requires Configured(store, cl) && Consistent(store, cl, R) && n in store && n !in R
    ensures Idle(store, cl, R, n)
  {
    assert RecreateSource(store[n]) == SourceOf(store[n]);
    assert Agrees(store, cl, R, n);
    forall c | c in Children(store, n) ensures !IsUpdateCopy(R, c) {
      ChildrenAreSourced(store, n, c);
      assert Agrees(store, cl, R, c);
    }
  }

  /** Request t of a run is for a copy that has existed since i, or has been made before, in
      i, ..., j-1. */
  ghost predicate Expected(events: seq<Name>, history: seq<Copies>, i: nat, j: nat, t: nat)
    requires i <= j <= t < |events| < |history|
  {
    events[t] in events[i..j] || exists s: nat :: i <= s <= t && events[t] in history[s]
  }

  /** The requests i, ..., j-1 of a run are a round: they are for all copies that exist when it
      begins, and for all missing copies of before that are asked for from then on. */
  ghost predicate IsRound(events: seq<Name>, history: seq<Copies>, i: nat, j: nat)
    requires |events| < |history|
  {
    && i <= j <= |events|
    && (forall n | n in history[i] :: n in events[i..j])
    && forall t: nat {:trigger Expected(events, history, i, j, t)} | j <= t < |events| ::
         Expected(events, history, i, j, t)
  }

  ghost predicate RoundAt(events: seq<Name>, history: seq<Copies>, marks: seq<nat>, k: nat)
    requires |events| < |history| && k + 1 < |marks|
  {
    IsRound(events, history, marks[k], marks[k + 1])
  }

  /** |marks| - 1 rounds of a run, one after the other; round k begins with request marks[k]. */
  ghost predicate Rounds(events: seq<Name>, history: seq<Copies>, marks: seq<nat>)
    requires |events| < |history|
  {
    && |marks| > 0 && marks[0] <= |events|
    && forall k: nat {:trigger RoundAt(events, history, marks, k)} | k + 1 < |marks| ::
         RoundAt(events, history, marks, k)
  }

  lemma {:induction false} WritesGrow(history: seq<Copies>, i: nat, j: nat)
    requires i <= j < |history|
    ensures WritesIn(history, i) <= WritesIn(history, j)
    ensures WritesIn(history, i) == WritesIn(history, j) ==> history[i] == history[j]
    decreases j
  {
    if i < j {
      WritesGrow(history, i, j - 1);
      NoChange(history[j - 1], history[j]);
    }
  }

  lemma NoChange(R: Copies, R': Copies)
    ensures |Changed(R, R')| == 0 ==> R == R'
  {
    if Changed(R, R') == {} {
      forall c ensures c in R <==> c in R' { assert c !in Changed(R, R'); }
      forall c | c in R ensures R[c] == R'[c] { assert c !in Changed(R, R'); }
    }
  }

  lemma Frozen(history: seq<Copies>, i: nat, t: nat, j: nat)
    requires i <= t <= j < |history| && WritesIn(history, i) == WritesIn(history, j)
    ensures history[t] == history[i]
  {
    WritesGrow(history, i, t);
    WritesGrow(history, t, j);
  }

  lemma QuietStep(store: Store, cl: Cloner, events: seq<Name>, history: seq<Copies>, s: nat)
    requires IsHistory(store, cl, events, history) && s < |events|
    ensures Idle(store, cl, history[s], events[s]) <==> history[s + 1] == history[s]
  {
    assert ReconciledAt(store, cl, events, history, s);
  }

  /** In a round without a write, all that is requested is idle. */
  lemma QuietRound(store: Store, cl: Cloner, events: seq<Name>, history: seq<Copies>, i: nat, j: nat)
    requires IsHistory(store, cl, events, history) && IsRound(events, history, i, j)
    requires WritesIn(history, i) == WritesIn(history, j)
    ensures forall n | n in events[i..j] :: Idle(store, cl, history[i], n)
    ensures Quiet(store, cl, history[i])
  {
    forall n | n in events[i..j] ensures Idle(store, cl, history[i], n) {
      var t :| 0 <= t < j - i && events[i..j][t] == n;
      assert events[i + t] == n;
      Frozen(history, i, i + t, j);
      Frozen(history, i, i + t + 1, j);
      QuietStep(store, cl, events, history, i + t);
    }
  }

  lemma QuietRequest(store: Store, cl: Cloner, events: seq<Name>, history: seq<Copies>, i: nat, j: nat, t: nat)
    requires IsHistory(store, cl, events, history) && IsRound(events, history, i, j)
    requires WritesIn(history, i) == WritesIn(history, j) && j <= t < |events|
    requires forall s: nat | i <= s <= t :: history[s] == history[i]
    ensures history[t + 1] == history[i]
  {
    QuietRound(store, cl, events, history, i, j);
    assert Expected(events, history, i, j, t);
    assert Idle(store, cl, history[i], events[t]);
    QuietStep(store, cl, events, history, t);
  }

  /** After such a round nothing happens any more. */
  lemma {:induction false} StaysQuiet(store: Store, cl: Cloner, events: seq<Name>, history: seq<Copies>,
                                      i: nat, j: nat, t: nat)
    requires IsHistory(store, cl, events, history) && IsRound(events, history, i, j)
    requires WritesIn(history, i) == WritesIn(history, j) && i <= t <= |events|
    ensures forall s: nat | i <= s <= t :: history[s] == history[i]
    decreases t
  {
    if t <= j {
      forall s: nat | i <= s <= t ensures history[s] == history[i] { Frozen(history, i, s, j); }
    } else {
      StaysQuiet(store, cl, events, history, i, j, t - 1);
      QuietRequest(store, cl, events, history, i, j, t - 1);
    }
  }

  /** A round writes something, unless the run ends quiet. */
  lemma RoundWrites(store: Store, cl: Cloner, events: seq<Name>, history: seq<Copies>, i: nat, j: nat)
    requires IsHistory(store, cl, events, history) && IsRound(events, history, i, j)
    ensures Quiet(store, cl, history[|events|]) || WritesIn(history, i) < WritesIn(history, j)
  {
    WritesGrow(history, i, j);
    if WritesIn(history, i) == WritesIn(history, j) {
      StaysQuiet(store, cl, events, history, i, j, |events|);
      QuietRound(store, cl, events, history, i, j);
    }
  }

  ghost predicate Grows(history: seq<Copies>, marks: seq<nat>, k: nat)
    requires k + 1 < |marks|
  {
    marks[k] <= marks[k + 1] < |history| && WritesIn(history, marks[k]) < WritesIn(history, marks[k + 1])
  }

  lemma {:induction false} GrowingCounts(history: seq<Copies>, marks: seq<nat>, k: nat)
    requires k < |marks| && marks[0] < |history|
    requires forall i: nat {:trigger Grows(history, marks, i)} | i + 1 < |marks| :: Grows(history, marks, i)
    ensures marks[k] < |history| && WritesIn(history, marks[k]) >= k
  {
    if k > 0 {
      GrowingCounts(history, marks, k - 1);
      assert Grows(history, marks, k - 1);
    }
  }

  lemma SomeRoundIsQuiet(history: seq<Copies>, marks: seq<nat>) returns (k: nat)
    requires |history| > 0 && |marks| - 1 > WritesIn(history, |history| - 1) && marks[0] < |history|
    ensures k + 1 < |marks| && !Grows(history, marks, k)
  {
    if forall i: nat {:trigger Grows(history, marks, i)} | i + 1 < |marks| :: Grows(history, marks, i) {
      GrowingCounts(history, marks, |marks| - 1);
      WritesGrow(history, marks[|marks| - 1], |history| - 1);
      assert false;
    }
    k :| k + 1 < |marks| && !Grows(history, marks, k);
  }

  lemma EnoughRounds(store: Store, cl: Cloner, events: seq<Name>, history: seq<Copies>, marks: seq<nat>)
    requires IsHistory(store, cl, events, history) && Rounds(events, history, marks)
    requires |marks| - 1 > WritesIn(history, |events|)
    ensures Quiet(store, cl, history[|events|])
  {
    var k := SomeRoundIsQuiet(history, marks);
    assert RoundAt(events, history, marks, k);
    RoundWrites(store, cl, events, history, marks[k], marks[k + 1]);
  }

  /** While nobody else writes, reconciling all copies over and over, and what is deleted on the
      way, comes to rest, in any order: n*n rounds and one more are enough for n namespaces.
      All copies then have what they ask for below them. */
  lemma RoundsConverge(store: Store, cl: Cloner, events: seq<Name>, history: seq<Copies>, marks: seq<nat>)
    requires Configured(store, cl) && IsHistory(store, cl, events, history) && FromTree(store, history[0])
    requires Rounds(events, history, marks) && |marks| - 1 > Square(|store|)
    ensures Quiet(store, cl, history[|events|])
    ensures AllServed(store, cl, history[|events|]) && AllFollow(cl, history[|events|])
  {
    FinitelyManyWrites(store, cl, events, history);
    EnoughRounds(store, cl, events, history, marks);
    QuietIffServed(store, cl, history[|events|]);
  }

  /** What of a resource is to reach copies at any depth: all that is cloned but the from
      annotation, which differs from level to level. */
  function Lasting(cl: Cloner, res: Resource): Manifest {
    Manifest(Kept(res.labels, cl.labelExcluded)[CreatedBy := CREATED_BY],
             Kept(res.annotations, cl.annotationExcluded) - {From},
             KeptBody(cl, res.body))
  }

  lemma LastingIsPassedOn(cl: Cloner, res: Resource, copy: Resource, home: Name, below: Resource)
    requires Covers(Lasting(cl, res), copy) && Covers(CloneOf(cl, copy, home), below)
    ensures Covers(Lasting(cl, res), below)
  {
    var m, m' := Lasting(cl, res), CloneOf(cl, copy, home);
    forall k | k in m.labels ensures k in below.labels && (m.labels[k] == "" || below.labels[k].value == m.labels[k]) {
      assert k in m'.labels;
    }
    forall k | k in m.annotations
      ensures k in below.annotations && (m.annotations[k] == "" || below.annotations[k].value == m.annotations[k])
    {
      assert k in m'.annotations;
    }
    forall k | k in m.body ensures k in below.body && (m.body[k] == "" || below.body[k].value == m.body[k]) {
      assert k in m'.body;
    }
  }

  lemma {:induction false} LastingReachesAll(store: Store, cl: Cloner, R: Copies, origin: Name, d: Name, depth: nat)
    requires Configured(store, cl) && Quiet(store, cl, R)
    requires origin in store && IsUpdateCopy(R, origin)
    requires d in store && depth > 0 && Up(SourceLinks(store), d, depth) == origin
    ensures IsUpdateCopy(R, d) && Covers(Lasting(cl, R[origin]), R[d]) && FromOf(R[d]) == SourceOf(store[d])
    decreases depth
  {
    var s := SourceOf(store[d]);
    QuietIffServed(store, cl, R);
    assert Served(store, cl, R, d);
    assert Up(SourceLinks(store), s, depth - 1) == origin;
    if depth > 1 {
      assert s in SourceLinks(store) by { assert origin in SourceLinks(store); }
      LastingReachesAll(store, cl, R, origin, s, depth - 1);
      LastingIsPassedOn(cl, R[origin], R[s], s, R[d]);
    }
    CoveringCopy(cl, R[s], s, R[d]);
  }

  lemma LastingHas(cl: Cloner, res: Resource, copy: Resource, k: MetaKey, b: string)
    requires Covers(Lasting(cl, res), copy)
    ensures ValueAt(copy.labels, CreatedBy) == Some("accurate")
    ensures k in res.labels && !cl.labelExcluded(k) && k != CreatedBy ==> Arrived(res.labels[k], copy.labels, k)
    ensures k in res.annotations && !cl.annotationExcluded(k) && k != From ==>
              Arrived(res.annotations[k], copy.annotations, k)
    ensures b in res.body && !(cl.serviceAccount && b == "secrets") ==> Arrived(res.body[b], copy.body, b)
  {
    var m := Lasting(cl, res);
    assert m.labels[CreatedBy] == CREATED_BY;
    if k in res.labels && !cl.labelExcluded(k) && k != CreatedBy { assert k in m.labels; }
    if k in res.annotations && !cl.annotationExcluded(k) && k != From { assert k in m.annotations; }
    if b in res.body && !(cl.serviceAccount && b == "secrets") { assert b in m.body; }
  }

  /** The key is there, with the value that was sent unless that is empty. */
  predicate Arrived<K>(sent: Field, fields: Fields<K>, k: K) {
    k in fields && (sent.value != "" ==> fields[k].value == sent.value)
  }

  /** When reconciling the copies writes nothing, an update-mode resource is in every namespace
      below it, at any depth, with each of its labels, annotations and contents that is not
      excluded; and each copy says where it comes from. */
  lemma ReachesDescendants(store: Store, cl: Cloner, R: Copies, origin: Name, d: Name, depth: nat, k: MetaKey,
                           b: string)
    requires Configured(store, cl) && Quiet(store, cl, R)
    requires origin in store && IsUpdateCopy(R, origin)
    requires d in store && depth > 0 && Up(SourceLinks(store), d, depth) == origin
    ensures IsUpdateCopy(R, d) && FromOf(R[d]) == SourceOf(store[d])
    ensures ValueAt(R[d].labels, CreatedBy) == Some("accurate")
    ensures k in R[origin].labels && !cl.labelExcluded(k) && k != CreatedBy ==>
              Arrived(R[origin].labels[k], R[d].labels, k)
    ensures k in R[origin].annotations && !cl.annotationExcluded(k) && k != From ==>
              Arrived(R[origin].annotations[k], R[d].annotations, k)
    ensures b in R[origin].body && !(cl.serviceAccount && b == "secrets") ==>
              Arrived(R[origin].body[b], R[d].body, b)
  {
    LastingReachesAll(store, cl, R, origin, d, depth);
    LastingHas(cl, R[origin], R[d], k, b);
  }
}
