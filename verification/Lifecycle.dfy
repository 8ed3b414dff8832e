/** The life of one namespace while a command moves it (sub move, sub cut, sub graft) and
    the SubNamespace reconciler works on the SubNamespace objects of that name, one API call
    at a time (cmd/kubectl-accurate/sub, controllers/subnamespace_controller.go). */
module Lifecycle {
  import opened Meta
  import opened Cluster

  /** What the commands do, in this order: change the parent label from orig to target, read
      the old object, delete it, create the new one. */
  datatype Plan = Plan(orig: Name, target: Name, readOld: bool, deleteOld: bool, createNew: bool)

  function MovePlan(orig: Name, target: Name, leaveOriginal: bool): Plan {
    Plan(orig, target, true, !leaveOriginal, true)
  }

  function CutPlan(orig: Name): Plan {
    Plan(orig, "", false, true, false)
  }

  function GraftPlan(target: Name): Plan {
    Plan("", target, false, false, true)
  }

  datatype Progress =
    | Started
    | Relabelled
    | OldRead(spec: Spec)
    | OldDeleted(spec: Spec)
    | Finished
    | Aborted

  /** Where the reconciliation of one object stands.  `sn` is the object as it was read. */
  datatype Worker =
    | Idle
    | Checking(sn: SubNs)                  // reconcileNS: about to read the namespace
    | Creating(sn: SubNs)                  // about to create the namespace
    | Reporting(sn: SubNs, seen: Name)     // about to apply the status
    | Finalizing(sn: SubNs)                // finalize: about to read the namespace
    | Removing(sn: SubNs)                  // about to delete the namespace
    | Unpinning(sn: SubNs)                 // about to remove the finalizer

  /** parent: the parent label of the namespace ("" if it has none), or None if there is no
      such namespace.  deletable: whether the webhook admits its deletion, as it does with
      cascading deletion on or when there are no sub-namespaces.  subs: the objects with its
      name, by namespace. */
  datatype World = World(parent: Option<Name>, deletable: bool, subs: map<Name, SubNs>, workers: map<Name, Worker>,
                         progress: Progress)

  function WorkerOf(w: World, h: Name): Worker {
    if h in w.workers then w.workers[h] else Idle
  }

  function WithoutFinalizer(fs: seq<string>): seq<string> {
    if fs == [] then []
    else if fs[0] == FINALIZER then WithoutFinalizer(fs[1..])
    else [fs[0]] + WithoutFinalizer(fs[1..])
  }

  /** The next API call of the command. */
  function CommandCall(plan: Plan, w: World): World {
    match w.progress
    case Started =>
      if w.parent == Some(plan.orig) then w.(parent := Some(plan.target), progress := Relabelled)
      else w.(progress := Aborted)
    case Relabelled =>
      if !plan.readOld then w.(progress := OldRead(Spec(map[], map[])))
      else if plan.orig in w.subs then w.(progress := OldRead(w.subs[plan.orig].spec))
      else w.(progress := Aborted)
    case OldRead(spec) =>
      w.(subs := if plan.deleteOld then MarkDeleted(w.subs, plan.orig) else w.subs, progress := OldDeleted(spec))
    case OldDeleted(spec) =>
      if !plan.createNew then w.(progress := Finished)
      else if plan.target in w.subs then w.(progress := Aborted)
      else w.(subs := w.subs[plan.target := SubNs(spec, false, [FINALIZER], false)], progress := Finished)
    case Finished => w
    case Aborted => w
  }

  /** The next API call of the reconciler for the object in namespace h. */
  function WorkerCall(w: World, h: Name): World {
    match WorkerOf(w, h)
    case Idle =>
      if h !in w.subs then w
      else w.(workers := w.workers[h := if w.subs[h].deleting then Finalizing(w.subs[h]) else Checking(w.subs[h])])
    case Checking(sn) =>
      w.(workers := w.workers[h := if w.parent.None? then Creating(sn) else Reporting(sn, w.parent.value)])
    case Creating(sn) =>
      if w.parent.None? then w.(parent := Some(h), workers := w.workers[h := Reporting(sn, h)])
      else w.(workers := w.workers[h := Idle])
    case Reporting(sn, seen) =>
      w.(subs := SetStalled(w.subs, h, seen != h), workers := w.workers[h := Idle])
    case Finalizing(sn) =>
      w.(workers := w.workers[h := if w.parent == Some(h) then Removing(sn) else Unpinning(sn)])
    case Removing(sn) =>
      if w.parent.Some? && !w.deletable then w.(workers := w.workers[h := Idle])
      else w.(parent := None, workers := w.workers[h := Unpinning(sn)])
    case Unpinning(sn) =>
      w.(subs := if FINALIZER in sn.finalizers then PatchFinalizers(w.subs, h, WithoutFinalizer(sn.finalizers))
                 else w.subs,
         workers := w.workers[h := Idle])
  }

  function GiveUp(w: World, h: Name): World {
    w.(workers := w.workers[h := Idle])
  }

  /** One step of the whole system: a call of the command or of a worker, or one of them
      giving up on an error. */
  ghost predicate Next(plan: Plan, w: World, w': World) {
    || w' == CommandCall(plan, w)
    || (w.progress != Finished && w' == w.(progress := Aborted))
    || (exists h :: w' == WorkerCall(w, h))
    || (exists h :: w' == GiveUp(w, h))
  }

  ghost predicate IsRun(plan: Plan, run: seq<World>) {
    |run| > 0 && forall i | 0 <= i < |run| - 1 :: Follows(plan, run, i)
  }

  ghost predicate Follows(plan: Plan, run: seq<World>, i: int)
    requires 0 <= i < |run| - 1
  {
    Next(plan, run[i], run[i + 1])
  }

  predicate Deleting(w: World, h: Name) {
    h in w.subs && w.subs[h].deleting
  }

  /** The command has read the namespace, which has the parent label orig; reconciliations may
      have got anywhere. */
  ghost predicate Start(plan: Plan, w: World) {
    && plan.orig != plan.target
    && w.progress == Started && w.parent == Some(plan.orig)
    && "" !in w.subs
  }

  /** What every interleaving keeps if no deletion is under way at the start. */
  ghost predicate Safe(plan: Plan, w: World) {
    && plan.orig != plan.target && "" !in w.subs
    && (w.parent == Some(plan.orig) || w.parent == Some(plan.target))
    && (w.parent == Some(plan.orig) ==>
          (w.progress.Started? || w.progress.Aborted?) && Harmless(w, plan.orig))
    && (w.parent == Some(plan.target) ==> !w.progress.Started?)
    && Harmless(w, plan.target)
    && NobodyRemoves(w)
  }

  /** No finalization of the object in h is under way or about to begin. */
  ghost predicate Harmless(w: World, h: Name) {
    !Deleting(w, h) && !WorkerOf(w, h).Finalizing? && !WorkerOf(w, h).Removing?
  }

  ghost predicate NobodyRemoves(w: World) {
    forall h :: !WorkerOf(w, h).Removing?
  }

  lemma CommandStaysSafe(plan: Plan, w: World)
    requires Safe(plan, w) && (plan.createNew ==> plan.target != "")
    ensures Safe(plan, CommandCall(plan, w))
  {
    var w' := CommandCall(plan, w);
    assert forall h :: WorkerOf(w', h) == WorkerOf(w, h);
  }

  lemma WorkerStaysSafe(plan: Plan, w: World, h: Name)
    requires Safe(plan, w)
    ensures Safe(plan, WorkerCall(w, h))
  {
    var w' := WorkerCall(w, h);
    assert forall x | x != h :: WorkerOf(w', x) == WorkerOf(w, x);
  }

  lemma GivingUpStaysSafe(plan: Plan, w: World, h: Name)
    requires Safe(plan, w)
    ensures Safe(plan, GiveUp(w, h))
  {
    var w' := GiveUp(w, h);
    assert forall x | x != h :: WorkerOf(w', x) == WorkerOf(w, x);
  }

  lemma StepStaysSafe(plan: Plan, w: World, w': World)
    requires Safe(plan, w) && Next(plan, w, w') && (plan.createNew ==> plan.target != "")
    ensures Safe(plan, w')
  {
    if w' == CommandCall(plan, w) {
      CommandStaysSafe(plan, w);
    } else if h :| w' == WorkerCall(w, h) {
      WorkerStaysSafe(plan, w, h);
    } else if h :| w' == GiveUp(w, h) {
      GivingUpStaysSafe(plan, w, h);
    } else {
      assert forall h :: WorkerOf(w', h) == WorkerOf(w, h);
    }
  }

  lemma {:induction false} RunStaysSafe(plan: Plan, run: seq<World>, i: nat)
    requires IsRun(plan, run) && Safe(plan, run[0]) && (plan.createNew ==> plan.target != "") && i < |run|
    ensures Safe(plan, run[i])
  {
    if i > 0 {
      RunStaysSafe(plan, run, i - 1);
      assert Follows(plan, run, i - 1);
      StepStaysSafe(plan, run[i - 1], run[i]);
    }
  }

  /** The namespace is there in every state of every run. */
  ghost predicate NeverGone(plan: Plan, w: World) {
    forall run: seq<World> | IsRun(plan, run) && run[0] == w :: forall i | 0 <= i < |run| :: run[i].parent.Some?
  }

  /** How the namespace goes if it is where a finalization is under way or about to begin. */
  lemma FinalizationWins(plan: Plan, w: World, h: Name) returns (run: seq<World>)
    requires w.parent == Some(h) && w.deletable && !Harmless(w, h)
    ensures IsRun(plan, run) && run[0] == w && run[|run| - 1].parent.None?
  {
    if WorkerOf(w, h).Removing? {
      run := [w, WorkerCall(w, h)];
    } else if WorkerOf(w, h).Finalizing? {
      var w1 := WorkerCall(w, h);
      run := [w, w1, WorkerCall(w1, h)];
    } else {
      var w1 := GiveUp(w, h);
      var w2 := WorkerCall(w1, h);
      var w3 := WorkerCall(w2, h);
      run := [w, w1, w2, w3, WorkerCall(w3, h)];
    }
  }

  /** How it goes if that is so in the new parent. */
  lemma NewFinalizationWins(plan: Plan, w: World) returns (run: seq<World>)
    requires Start(plan, w) && w.deletable && !Harmless(w, plan.target)
    ensures IsRun(plan, run) && run[0] == w && run[|run| - 1].parent.None?
  {
    var w' := CommandCall(plan, w);
    var rest := FinalizationWins(plan, w', plan.target);
    run := [w] + rest;
    forall i | 0 <= i < |run| - 1 ensures Follows(plan, run, i) {
      if i > 0 { assert Follows(plan, rest, i - 1); }
    }
  }

  lemma SafeNeverGoes(plan: Plan, w: World)
    requires Safe(plan, w) && (plan.createNew ==> plan.target != "")
    ensures NeverGone(plan, w)
  {
    forall run: seq<World> | IsRun(plan, run) && run[0] == w
      ensures forall i | 0 <= i < |run| :: run[i].parent.Some?
    {
      forall i | 0 <= i < |run| ensures run[i].parent.Some? { RunStaysSafe(plan, run, i); }
    }
  }

  /** Whose deletion is refused stays. */
  lemma {:induction false} RefusedStays(plan: Plan, run: seq<World>, i: nat)
    requires IsRun(plan, run) && run[0].parent.Some? && !run[0].deletable && i < |run|
    ensures run[i].parent.Some? && !run[i].deletable
  {
    if i > 0 {
      RefusedStays(plan, run, i - 1);
      assert Follows(plan, run, i - 1);
    }
  }

  lemma RefusedNeverGoes(plan: Plan, w: World)
    requires w.parent.Some? && !w.deletable
    ensures NeverGone(plan, w)
  {
    forall run: seq<World> | IsRun(plan, run) && run[0] == w
      ensures forall i | 0 <= i < |run| :: run[i].parent.Some?
    {
      forall i | 0 <= i < |run| ensures run[i].parent.Some? { RefusedStays(plan, run, i); }
    }
  }

  /** The namespace survives every interleaving if and only if its deletion is refused or, when
      the command starts, nobody is about to delete it and, for the object in the old parent and
      for one in the new parent, no finalization is under way or due. */
  lemma MovedNamespaceSurvives(plan: Plan, w: World)
    requires Start(plan, w) && (plan.createNew ==> plan.target != "")
    ensures NeverGone(plan, w) <==>
            !w.deletable || (Harmless(w, plan.orig) && Harmless(w, plan.target) && NobodyRemoves(w))
  {
    if !w.deletable {
      RefusedNeverGoes(plan, w);
    } else if h :| WorkerOf(w, h).Removing? {
      var run := [w, WorkerCall(w, h)];
      assert Follows(plan, run, 0);
      assert IsRun(plan, run) && run[1].parent.None?;
    } else if !Harmless(w, plan.orig) {
      var run := FinalizationWins(plan, w, plan.orig);
      assert run[|run| - 1].parent.None?;
    } else if !Harmless(w, plan.target) {
      var run := NewFinalizationWins(plan, w);
      assert run[|run| - 1].parent.None?;
    } else {
      SafeNeverGoes(plan, w);
    }
  }

  /** The finalizers fs, with or without the one that this controller puts there. */
  predicate Pins(finalizers: seq<string>, fs: seq<string>) {
    finalizers == fs || finalizers == WithoutFinalizer(fs)
  }

  /** What pins the old object, whose finalizers were fs. */
  ghost predicate OldPinned(plan: Plan, w: World, fs: seq<string>) {
    && (plan.orig in w.subs ==> Pins(w.subs[plan.orig].finalizers, fs))
    && (Deleting(w, plan.orig) ==> w.subs[plan.orig].finalizers != [])
    && (WithoutFinalizer(fs) != [] ==> plan.orig in w.subs)
    && (var k := WorkerOf(w, plan.orig);
        k.Finalizing? || k.Removing? || k.Unpinning? ==> Pins(k.sn.finalizers, fs))
  }

  /** What a command keeps besides: who holds which spec, and what pins the old object. */
  ghost predicate Carried(plan: Plan, w: World, spec: Spec, fs: seq<string>) {
    && Safe(plan, w) && OldPinned(plan, w, fs)
    && (plan.readOld && plan.orig in w.subs ==> w.subs[plan.orig].spec == spec)
    && (!plan.readOld ==> spec == Spec(map[], map[]))
    && (w.progress.OldRead? || w.progress.OldDeleted? ==> w.progress.spec == spec)
    && (w.progress.Finished? ==> w.parent == Some(plan.target))
    && (w.progress.Finished? && plan.createNew ==> plan.target in w.subs && w.subs[plan.target].spec == spec)
    && (plan.deleteOld && (w.progress.OldDeleted? || w.progress.Finished?) && plan.orig in w.subs ==>
          w.subs[plan.orig].deleting)
    && (!plan.deleteOld && plan.readOld ==> plan.orig in w.subs && !w.subs[plan.orig].deleting)
  }

  lemma {:induction false} Unpinned(fs: seq<string>)
    ensures FINALIZER !in WithoutFinalizer(fs)
    ensures WithoutFinalizer(fs) == fs <==> FINALIZER !in fs
    decreases |fs|
  {
    if fs != [] {
      Unpinned(fs[1..]);
      assert fs == [fs[0]] + fs[1..];
    }
  }

  /** Of the finalizers only the controller's own goes; the others stay, in their order. */
  lemma {:induction false} OthersStayPinned(a: seq<string>, b: seq<string>, f: string)
    ensures WithoutFinalizer(a + b) == WithoutFinalizer(a) + WithoutFinalizer(b)
    ensures WithoutFinalizer([f]) == if f == "accurate.cybozu.com/finalizer" then [] else [f]
    decreases |a|
  {
    if a == [] {
      assert a + b == b;
    } else {
      OthersStayPinned(a[1..], b, f);
      assert (a + b)[0] == a[0] && (a + b)[1..] == a[1..] + b;
    }
    assert [f][1..] == [];
  }

  /** A command creates at most one object, in the new parent, and pins it. */
  lemma NewObjectIsPinned(plan: Plan, w: World, h: Name)
    requires h !in w.subs && h in CommandCall(plan, w).subs
    ensures h == plan.target
    ensures var sn := CommandCall(plan, w).subs[h];
            sn.finalizers == ["accurate.cybozu.com/finalizer"] && !sn.deleting && !sn.stalled
  {
  }

  lemma CommandKeepsPins(plan: Plan, w: World, fs: seq<string>)
    requires OldPinned(plan, w, fs) && plan.orig != plan.target
    ensures OldPinned(plan, CommandCall(plan, w), fs)
  {
    var w' := CommandCall(plan, w);
    assert WorkerOf(w', plan.orig) == WorkerOf(w, plan.orig);
    assert WithoutFinalizer([]) == [];
  }

  lemma UnpinnedPins(finalizers: seq<string>, fs: seq<string>)
    requires Pins(finalizers, fs)
    ensures Pins(WithoutFinalizer(finalizers), fs)
    ensures WithoutFinalizer(fs) != [] ==> WithoutFinalizer(finalizers) != []
  {
    Unpinned(fs);
    Unpinned(WithoutFinalizer(fs));
  }

  lemma WorkerKeepsPins(plan: Plan, w: World, fs: seq<string>, h: Name)
    requires OldPinned(plan, w, fs)
    ensures OldPinned(plan, WorkerCall(w, h), fs)
  {
    var w', k := WorkerCall(w, h), WorkerOf(w, h);
    if h != plan.orig {
      assert WorkerOf(w', plan.orig) == WorkerOf(w, plan.orig);
    } else if k.Unpinning? {
      UnpinnedPins(k.sn.finalizers, fs);
    }
  }

  lemma CommandCarries(plan: Plan, w: World, spec: Spec, fs: seq<string>)
    requires Carried(plan, w, spec, fs) && (plan.createNew ==> plan.target != "")
    ensures Carried(plan, CommandCall(plan, w), spec, fs)
  {
    CommandStaysSafe(plan, w);
    CommandKeepsPins(plan, w, fs);
  }

  lemma WorkerCarries(plan: Plan, w: World, spec: Spec, fs: seq<string>, h: Name)
    requires Carried(plan, w, spec, fs)
    ensures Carried(plan, WorkerCall(w, h), spec, fs)
  {
    WorkerStaysSafe(plan, w, h);
    WorkerKeepsPins(plan, w, fs, h);
  }

  lemma StepCarries(plan: Plan, w: World, w': World, spec: Spec, fs: seq<string>)
    requires Carried(plan, w, spec, fs) && Next(plan, w, w') && (plan.createNew ==> plan.target != "")
    ensures Carried(plan, w', spec, fs)
  {
    StepStaysSafe(plan, w, w');
    if w' == CommandCall(plan, w) {
      CommandCarries(plan, w, spec, fs);
    } else if h :| w' == WorkerCall(w, h) {
      WorkerCarries(plan, w, spec, fs, h);
    } else if h :| w' == GiveUp(w, h) {
      assert forall x | x != h :: WorkerOf(w', x) == WorkerOf(w, x);
    } else {
      assert forall h :: WorkerOf(w', h) == WorkerOf(w, h);
    }
  }

  lemma {:induction false} RunCarries(plan: Plan, run: seq<World>, spec: Spec, fs: seq<string>, i: nat)
    requires IsRun(plan, run) && Carried(plan, run[0], spec, fs) && i < |run|
    requires plan.createNew ==> plan.target != ""
    ensures Carried(plan, run[i], spec, fs)
  {
    if i > 0 {
      RunCarries(plan, run, spec, fs, i - 1);
      assert Follows(plan, run, i - 1);
      StepCarries(plan, run[i - 1], run[i], spec, fs);
    }
  }

  /** A whole reconciliation of the object in h, which is three calls long unless the
      namespace is created or deleted, changes no object. */
  predicate Settled(w: World, h: Name) {
    WorkerOf(w, h).Idle? && WorkerCall(WorkerCall(WorkerCall(w, h), h), h).subs == w.subs
  }

  /** When a move has succeeded and both objects are settled, the namespace has the new
      parent, and the new object carries the spec of the old one and reports no conflict.  If
      the old object was left it reports a conflict; else it is gone, unless finalizers of
      others still pin it, and only those do. */
  lemma MoveSettles(orig: Name, target: Name, leaveOriginal: bool, run: seq<World>)
    requires target != "" && IsRun(MovePlan(orig, target, leaveOriginal), run)
    requires Start(MovePlan(orig, target, leaveOriginal), run[0])
    requires Harmless(run[0], orig) && Harmless(run[0], target) && NobodyRemoves(run[0])
    requires orig in run[0].subs
    requires WorkerOf(run[0], orig).Unpinning? ==> WorkerOf(run[0], orig).sn.finalizers == run[0].subs[orig].finalizers
    requires run[|run| - 1].progress.Finished?
    requires Settled(run[|run| - 1], orig) && Settled(run[|run| - 1], target)
    ensures var end, pins := run[|run| - 1], WithoutFinalizer(run[0].subs[orig].finalizers);
            && end.parent == Some(target)
            && target in end.subs && end.subs[target].spec == run[0].subs[orig].spec
            && !end.subs[target].deleting && !end.subs[target].stalled
            && if leaveOriginal then orig in end.subs && !end.subs[orig].deleting && end.subs[orig].stalled
               else (orig in end.subs <==> pins != []) &&
                    (orig in end.subs ==> end.subs[orig].deleting && end.subs[orig].finalizers == pins)
  {
    var plan := MovePlan(orig, target, leaveOriginal);
    var end, fs := run[|run| - 1], run[0].subs[orig].finalizers;
    assert WithoutFinalizer([]) == [];
    RunCarries(plan, run, run[0].subs[orig].spec, fs, |run| - 1);
    ReportSettled(end, target);
    if orig in end.subs {
      if end.subs[orig].deleting {
        FinalizeSettled(end, orig);
        Unpinned(fs);
      } else {
        ReportSettled(end, orig);
      }
    }
  }

  /** When a cut has succeeded and the old object is settled, the namespace has no parent, and
      the object is gone, unless finalizers of others still pin it, and only those do. */
  lemma CutSettles(orig: Name, run: seq<World>)
    requires IsRun(CutPlan(orig), run) && Start(CutPlan(orig), run[0])
    requires Harmless(run[0], orig) && Harmless(run[0], "") && NobodyRemoves(run[0])
    requires WorkerOf(run[0], orig).Unpinning? ==>
               orig in run[0].subs && WorkerOf(run[0], orig).sn.finalizers == run[0].subs[orig].finalizers
    requires run[|run| - 1].progress.Finished? && Settled(run[|run| - 1], orig)
    ensures var end := run[|run| - 1];
            var pins := if orig in run[0].subs then WithoutFinalizer(run[0].subs[orig].finalizers) else [];
            && end.parent == Some("")
            && (orig in end.subs <==> pins != [])
            && (orig in end.subs ==> end.subs[orig].deleting && end.subs[orig].finalizers == pins)
  {
    var end, fs := run[|run| - 1], if orig in run[0].subs then run[0].subs[orig].finalizers else [];
    assert WithoutFinalizer([]) == [];
    RunCarries(CutPlan(orig), run, Spec(map[], map[]), fs, |run| - 1);
    if orig in end.subs {
      FinalizeSettled(end, orig);
      Unpinned(fs);
    }
  }

  /** When a graft has succeeded and the new object is settled, the namespace has the new
      parent, and there is an object for it, which asks for nothing and reports no conflict. */
  lemma GraftSettles(target: Name, run: seq<World>)
    requires target != "" && IsRun(GraftPlan(target), run) && Start(GraftPlan(target), run[0])
    requires Harmless(run[0], "") && Harmless(run[0], target) && NobodyRemoves(run[0])
    requires !WorkerOf(run[0], "").Unpinning?
    requires run[|run| - 1].progress.Finished? && Settled(run[|run| - 1], target)
    ensures var end := run[|run| - 1];
            && end.parent == Some(target)
            && target in end.subs && end.subs[target].spec == Spec(map[], map[])
            && !end.subs[target].deleting && !end.subs[target].stalled
  {
    assert WithoutFinalizer([]) == [];
    RunCarries(GraftPlan(target), run, Spec(map[], map[]), [], |run| - 1);
    ReportSettled(run[|run| - 1], target);
  }

  lemma ReportSettled(w: World, h: Name)
    requires Settled(w, h) && w.parent.Some? && h in w.subs && !w.subs[h].deleting
    ensures w.subs[h].stalled == (w.parent.value != h)
  {
    var w3 := WorkerCall(WorkerCall(WorkerCall(w, h), h), h);
    assert w3.subs[h] == w.subs[h].(stalled := w.parent.value != h);
  }

  lemma FinalizeSettled(w: World, h: Name)
    requires Settled(w, h) && w.parent.Some? && w.parent.value != h && h in w.subs && w.subs[h].deleting
    ensures FINALIZER !in w.subs[h].finalizers
  {
    Unpinned(w.subs[h].finalizers);
    assert WorkerOf(WorkerCall(WorkerCall(w, h), h), h) == Unpinning(w.subs[h]);
  }

  /** The old object is missing, and the command has not got beyond looking for it. */
  ghost predicate Stuck(plan: Plan, w: World) {
    plan.orig !in w.subs && (w.progress.Started? || w.progress.Relabelled? || w.progress.Aborted?)
  }

  lemma StaysStuck(plan: Plan, w: World, w': World)
    requires Stuck(plan, w) && Next(plan, w, w') && plan.readOld
    ensures Stuck(plan, w')
  {
  }

  /** Without an object in the old parent a move cannot succeed: its second call has changed
      the parent when its third call fails. */
  lemma {:induction false} MoveNeedsTheObject(plan: Plan, run: seq<World>, i: nat)
    requires IsRun(plan, run) && plan.readOld && i < |run|
    requires run[0].progress.Started? && run[0].parent == Some(plan.orig) && plan.orig !in run[0].subs
    ensures !run[i].progress.Finished?
    ensures CommandCall(plan, CommandCall(plan, run[0])) == run[0].(parent := Some(plan.target), progress := Aborted)
  {
    RunIsStuck(plan, run, i);
  }

  lemma {:induction false} RunIsStuck(plan: Plan, run: seq<World>, i: nat)
    requires IsRun(plan, run) && plan.readOld && i < |run| && Stuck(plan, run[0])
    ensures Stuck(plan, run[i])
  {
    if i > 0 {
      RunIsStuck(plan, run, i - 1);
      assert Follows(plan, run, i - 1);
      StaysStuck(plan, run[i - 1], run[i]);
    }
  }
}
