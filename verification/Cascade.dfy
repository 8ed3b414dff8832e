/** Cascading deletion: what is gone after all delete events have been handled. */
module Cascade {
  import opened Meta
  import opened Chains
  import opened Resources
  import opened NamespaceWebhook
  import opened NamespaceForest
  import opened PropagateController
  import opened Convergence

  /** The copies, and the namespaces whose copy was deleted without that having been handled. */
  datatype State = State(copies: Copies, pending: set<Name>)

  /** A deletion by somebody else. */
  function DeletedBy(R: Copies, victim: Name): State {
    State(R - {victim}, {victim})
  }

  /** Handling one delete event; the deletions it does are events themselves. */
  function Handle(store: Store, cl: Cloner, s: State, m: Name): State {
    var R' := AfterDelete(store, cl, s.copies, m);
    State(R', s.pending - {m} + (s.copies.Keys - R'.Keys))
  }

  ghost predicate StepAt(store: Store, cl: Cloner, trace: seq<Name>, states: seq<State>, i: nat)
    requires i < |trace| && i + 1 < |states|
  {
    trace[i] in states[i].pending && states[i + 1] == Handle(store, cl, states[i], trace[i])
  }

  /** The states that handling pending events, in the order of the trace, leads through. */
  ghost predicate IsRun(store: Store, cl: Cloner, start: State, trace: seq<Name>, states: seq<State>) {
    && |states| == |trace| + 1 && states[0] == start
    && forall i: nat {:trigger StepAt(store, cl, trace, states, i)} | i < |trace| :: StepAt(store, cl, trace, states, i)
  }

  /** d is the victim, or a path of i update-mode copies leads from d up to it. */
  ghost predicate Joined(store: Store, R: Copies, victim: Name, d: Name, i: nat)
    decreases i
  {
    if i == 0 then d == victim
    else d in store && IsUpdateCopy(R, d) && Joined(store, R, victim, SourceOf(store[d]), i - 1)
  }

  ghost predicate Doomed(store: Store, R: Copies, victim: Name, d: Name) {
    exists i: nat :: Joined(store, R, victim, d, i)
  }

  /** The source of the victim has nothing to re-create it from. */
  predicate NotRecreated(store: Store, R: Copies, victim: Name) {
    victim in store && victim in R && !IsPropagating(R, SourceOf(store[victim]))
  }

  ghost predicate Removed(R: Copies, s: State, d: Name) {
    d in R && d !in s.copies
  }

  ghost predicate SourceRemoved(store: Store, R: Copies, s: State, d: Name) {
    d in store && Removed(R, s, SourceOf(store[d]))
  }

  /** Only doomed copies are removed, each after its source; once an event is handled, the
      update-mode copies right below it are removed. */
  ghost predicate Inv(store: Store, R: Copies, victim: Name, s: State) {
    && s.copies.Keys <= R.Keys && (forall d | d in s.copies :: s.copies[d] == R[d])
    && (forall d | d in s.pending :: Removed(R, s, d))
    && Removed(R, s, victim)
    && (forall d | Removed(R, s, d) :: d in store && Doomed(store, R, victim, d))
    && (forall d {:trigger SourceRemoved(store, R, s, d)} | Removed(R, s, d) && d != victim ::
          SourceRemoved(store, R, s, d))
    && (forall c {:trigger SourceRemoved(store, R, s, c)} | IsUpdateCopy(R, c) && SourceRemoved(store, R, s, c)
                   && SourceOf(store[c]) !in s.pending :: Removed(R, s, c))
  }

  lemma InvAtStart(store: Store, R: Copies, victim: Name)
    requires NotRecreated(store, R, victim)
    ensures Inv(store, R, victim, DeletedBy(R, victim))
  {
    assert Joined(store, R, victim, victim, 0);
  }

  /** Handling a pending event deletes the update-mode copies below it, and does nothing else. */
  lemma HandleCascades(store: Store, cl: Cloner, R: Copies, victim: Name, s: State, m: Name)
    requires Configured(store, cl) && NotRecreated(store, R, victim) && Inv(store, R, victim, s) && m in s.pending
    ensures Handle(store, cl, s, m).copies == CascadeDeleted(s.copies, Children(store, m))
  {
    assert Removed(R, s, m);
    var p := SourceOf(store[m]);
    assert RecreateSource(store[m]) == p;
    ForestIsAcyclic(store);
    assert !IsPropagating(s.copies, p) by {
      if m != victim { assert SourceRemoved(store, R, s, m); }
    }
  }

  lemma DoomedBelow(store: Store, R: Copies, victim: Name, c: Name)
    requires c in store && IsUpdateCopy(R, c) && Doomed(store, R, victim, SourceOf(store[c]))
    ensures Doomed(store, R, victim, c)
  {
    var i: nat :| Joined(store, R, victim, SourceOf(store[c]), i);
    assert Joined(store, R, victim, c, i + 1);
  }

  /** What handling the event of m removes. */
  lemma HandleRemoves(store: Store, cl: Cloner, R: Copies, victim: Name, s: State, m: Name, d: Name)
    requires Configured(store, cl) && NotRecreated(store, R, victim) && Inv(store, R, victim, s) && m in s.pending
    ensures var s' := Handle(store, cl, s, m);
            && (Removed(R, s', d) <==>
                  Removed(R, s, d) || (d in store && SourceOf(store[d]) == m && IsUpdateCopy(R, d)))
            && (d in s'.pending <==> (d in s.pending && d != m) || (Removed(R, s', d) && !Removed(R, s, d)))
            && (d in s'.copies ==> d in s.copies && s'.copies[d] == s.copies[d])
  {
    HandleCascades(store, cl, R, victim, s, m);
    ChildrenAreSourced(store, m, d);
    assert Removed(R, s, m);
  }

  lemma HandleKeepsInv(store: Store, cl: Cloner, R: Copies, victim: Name, s: State, m: Name)
    requires Configured(store, cl) && NotRecreated(store, R, victim) && Inv(store, R, victim, s) && m in s.pending
    ensures Inv(store, R, victim, Handle(store, cl, s, m))
  {
    var s' := Handle(store, cl, s, m);
    assert Removed(R, s, m);
    forall d ensures
        && (Removed(R, s', d) <==>
              Removed(R, s, d) || (d in store && SourceOf(store[d]) == m && IsUpdateCopy(R, d)))
        && (d in s'.pending <==> (d in s.pending && d != m) || (Removed(R, s', d) && !Removed(R, s, d)))
        && (d in s'.copies ==> d in s.copies && s'.copies[d] == s.copies[d])
    {
      HandleRemoves(store, cl, R, victim, s, m, d);
    }
    forall d | Removed(R, s', d) ensures Doomed(store, R, victim, d) {
      if !Removed(R, s, d) { DoomedBelow(store, R, victim, d); }
    }
    forall d | Removed(R, s', d) && d != victim ensures SourceRemoved(store, R, s', d) {
      assert Removed(R, s, d) ==> SourceRemoved(store, R, s, d);
    }
    forall c | IsUpdateCopy(R, c) && SourceRemoved(store, R, s', c) && SourceOf(store[c]) !in s'.pending
      ensures Removed(R, s', c)
    {
      assert Removed(R, s, SourceOf(store[c])) ==> SourceRemoved(store, R, s, c);
    }
  }

  lemma MovedCounts(before: set<Name>, after: set<Name>, pending: set<Name>, m: Name)
    requires after <= before && m in pending && (before - after) !! pending
    ensures |pending - {m} + (before - after)| + |after| + 1 == |pending| + |before|
  {
    assert before == after + (before - after);
    assert |pending - {m}| == |pending| - 1;
  }

  /** An event handled is an event less, plus one for each copy that went away. */
  lemma HandleCounts(store: Store, cl: Cloner, R: Copies, victim: Name, s: State, m: Name)
    requires Configured(store, cl) && NotRecreated(store, R, victim) && Inv(store, R, victim, s) && m in s.pending
    ensures var s' := Handle(store, cl, s, m);
            |s'.pending| + |s'.copies| + 1 == |s.pending| + |s.copies|
  {
    HandleCascades(store, cl, R, victim, s, m);
    var s' := Handle(store, cl, s, m);
    forall d | d in s.pending ensures d !in s.copies { assert Removed(R, s, d); }
    MovedCounts(s.copies.Keys, s'.copies.Keys, s.pending, m);
    assert |s.copies| == |s.copies.Keys| && |s'.copies| == |s'.copies.Keys|;
  }

  lemma HandleIsFine(store: Store, cl: Cloner, R: Copies, victim: Name, s: State, m: Name, s': State)
    requires Configured(store, cl) && NotRecreated(store, R, victim) && Inv(store, R, victim, s) && m in s.pending
    requires s' == Handle(store, cl, s, m)
    ensures Inv(store, R, victim, s')
    ensures |s'.pending| + |s'.copies| + 1 == |s.pending| + |s.copies|
  {
    HandleKeepsInv(store, cl, R, victim, s, m);
    HandleCounts(store, cl, R, victim, s, m);
  }

  /** Along a run: as many events have been handled as copies are gone that are not pending. */
  lemma {:induction false} RunKeepsInv(store: Store, cl: Cloner, R: Copies, victim: Name, trace: seq<Name>,
                                       states: seq<State>, k: nat)
    requires Configured(store, cl) && NotRecreated(store, R, victim)
    requires IsRun(store, cl, DeletedBy(R, victim), trace, states) && k <= |trace|
    ensures Inv(store, R, victim, states[k])
    ensures k + |states[k].pending| + |states[k].copies| == |R|
  {
    if k == 0 {
      InvAtStart(store, R, victim);
      OneLess(R, victim);
    } else {
      RunKeepsInv(store, cl, R, victim, trace, states, k - 1);
      assert StepAt(store, cl, trace, states, k - 1);
      HandleIsFine(store, cl, R, victim, states[k - 1], trace[k - 1], states[k]);
    }
  }

  lemma {:induction false} JoinedIsRemoved(store: Store, R: Copies, victim: Name, s: State, d: Name, i: nat)
    requires Inv(store, R, victim, s) && s.pending == {} && Joined(store, R, victim, d, i)
    ensures Removed(R, s, d)
    decreases i
  {
    if i > 0 {
      JoinedIsRemoved(store, R, victim, s, SourceOf(store[d]), i - 1);
      assert SourceRemoved(store, R, s, d);
    }
  }

  lemma RemovedIffDoomed(store: Store, R: Copies, victim: Name, s: State, d: Name)
    requires Inv(store, R, victim, s) && s.pending == {} && d in R
    ensures d in s.copies <==> !Doomed(store, R, victim, d)
  {
    if i: nat :| Joined(store, R, victim, d, i) { JoinedIsRemoved(store, R, victim, s, d, i); }
    assert Removed(R, s, d) <==> d !in s.copies;
  }

  lemma OneLess(R: Copies, victim: Name)
    requires victim in R
    ensures |R - {victim}| == |R| - 1
  {
    assert (R - {victim}).Keys == R.Keys - {victim};
    assert |R - {victim}| == |(R - {victim}).Keys| && |R| == |R.Keys|;
  }

  /** Deleting a resource that is not re-created, and then handling the delete events in any
      order, takes at most one event per copy, and when none is left exactly the copies are
      left that no unbroken path of update-mode copies joins to the deleted one. */
  lemma CascadeDeletesExactly(store: Store, cl: Cloner, R: Copies, victim: Name, trace: seq<Name>, states: seq<State>)
    requires Configured(store, cl) && NotRecreated(store, R, victim)
    requires IsRun(store, cl, DeletedBy(R, victim), trace, states)
    ensures var final := states[|trace|];
            && |trace| + |final.pending| <= |R|
            && final.copies.Keys <= R.Keys && (forall d | d in final.copies :: final.copies[d] == R[d])
            && (final.pending == {} ==> forall d | d in R :: d in final.copies <==> !Doomed(store, R, victim, d))
  {
    var final := states[|trace|];
    RunKeepsInv(store, cl, R, victim, trace, states, |trace|);
    if final.pending == {} {
      forall d | d in R ensures d in final.copies <==> !Doomed(store, R, victim, d) {
        RemovedIffDoomed(store, R, victim, final, d);
      }
    }
  }
}
