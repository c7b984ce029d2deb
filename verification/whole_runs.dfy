/** Whole runs of locks and reference counts together, in which requests lock paths, wait,
    rename and unlink, while the kernel looks nodes up and forgets them. */
module WholeRuns {
  import opened PathTree
  import opened TreeLocks
  import opened LockQueue
  import opened NodeRefs
  import opened WholeSteps
  import LockRuns
  import LockSteps
  import RefRuns

  lemma {:induction false} RequestStepKeepsWhole(w: Whole, step: LockSteps.Step, w': Whole)
    requires WholeInv(w) && CanRequest(w, step) && w' == Stepped(w, Request(step))
    ensures Counted(w'.store) && OnSameTree(w'.locks, w'.store) && w'.store.nlookup == w.store.nlookup
  {
    hide Inv, Counted, OnSameTree, LockSteps.Apply;
    match step {
      case Rename(_, _, _, _, _, _) => RenameKeepsWhole(w, step, w');
      case Exchange(_, _, _, _) => ExchangeKeepsWhole(w, step, w');
      case Remove(_, _, _) => RemoveKeepsWhole(w, step, w');
      case _ => LockingKeepsKnown(w, step, w'.locks);
    }
  }

  lemma NodesStay(l: State, s: Store, s': Store)
    requires Counted(s) && Counted(s') && s'.nlookup == s.nlookup
    ensures OnlyUnlockedGo(l, s, s')
  {
    hide WellFormed, References;
  }

  /** A step of the whole keeps the invariant, and on the locks it is a run of the lock
      machine: what that machine asks of deletions is met, never assumed. */
  lemma {:induction false} StepIsLockRun(w: Whole, step: WholeStep, w': Whole) returns (steps: seq<LockSteps.Step>)
    requires WholeInv(w) && CanStep(w, step) && w' == Stepped(w, step)
    ensures LockRuns.Run(w.locks, steps, w'.locks) && WholeInv(w') && OnlyUnlockedGo(w.locks, w.store, w'.store)
  {
    hide Inv, Counted, OnSameTree, OnlyUnlockedGo, LockRuns.Run, LocksOn, Counting, LockSteps.Apply;
    match step {
      case Request(r) =>
        RequestStepKeepsWhole(w, r, w');
        NodesStay(w.locks, w.store, w'.store);
        StandsStill(w'.locks);
        RunsFrom(w.locks, r, w'.locks, [], w'.locks);
        steps := [r] + [];
      case Node(r) =>
        RefRuns.StepKeepsCounted(w.store, r, w'.store);
        steps := NodeStepIsRun(w, r, w');
    }
    LockRuns.RunKeepsInv(w.locks, steps, w'.locks);
  }

  ghost predicate WholeRun(w: Whole, steps: seq<WholeStep>, w': Whole)
    decreases |steps|
  {
    if steps == [] then w' == w
    else CanStep(w, steps[0]) && WholeRun(Stepped(w, steps[0]), steps[1..], w')
  }

  /** As `fuse_new` leaves it. */
  function InitialWhole(): Whole {
    Whole(LockRuns.Initial(), RefRuns.InitialStore())
  }

  lemma {:induction false} InitialWholeInv()
    ensures WholeInv(InitialWhole())
  {
    LockRuns.InitialInv();
    RefRuns.InitialIsCounted();
    hide Inv, Counted;
  }

  lemma {:induction false} AppendRuns(s: State, a: seq<LockSteps.Step>, m: State, b: seq<LockSteps.Step>, s': State)
    requires LockRuns.Run(s, a, m) && LockRuns.Run(m, b, s')
    ensures LockRuns.Run(s, a + b, s')
    decreases |a|
  {
    hide LockSteps.Enabled, LockSteps.Apply;
    if a == [] {
      assert a + b == b;
    } else {
      AppendRuns(LockSteps.Apply(s, a[0]), a[1..], m, b, s');
      assert (a + b)[1..] == a[1..] + b;
    }
  }

  lemma {:induction false} RunIsLockRun(w: Whole, steps: seq<WholeStep>, w': Whole) returns (run: seq<LockSteps.Step>)
    requires WholeInv(w) && WholeRun(w, steps, w')
    ensures WholeInv(w') && LockRuns.Run(w.locks, run, w'.locks)
    decreases |steps|
  {
    hide WholeInv, CanStep, Stepped, LockRuns.Run, OnlyUnlockedGo;
    if steps == [] {
      StandsStill(w.locks);
      run := [];
    } else {
      var m := Stepped(w, steps[0]);
      var first := StepIsLockRun(w, steps[0], m);
      var rest := RunIsLockRun(m, steps[1..], w');
      AppendRuns(w.locks, first, m.locks, rest, w'.locks);
      run := first + rest;
    }
  }

  /** Whatever the requests and the kernel do, the locks are in a state that the lock
      machine reaches, so all that is proved of that machine holds of it. */
  lemma {:induction false} LocksAreReachable(steps: seq<WholeStep>, w: Whole) returns (run: seq<LockSteps.Step>)
    requires WholeRun(InitialWhole(), steps, w)
    ensures LockRuns.Run(LockRuns.Initial(), run, w.locks)
  {
    InitialWholeInv();
    hide WholeInv, LockRuns.Run;
    run := RunIsLockRun(InitialWhole(), steps, w);
  }

  /** The assertion in `delete_node` holds in every reachable state: whichever step comes
      next, the lock word of each node that it deletes is zero. */
  lemma {:induction false} DeletedNodesAreUnlocked(steps: seq<WholeStep>, w: Whole, step: WholeStep, i: Id)
    requires WholeRun(InitialWhole(), steps, w) && CanStep(w, step)
    requires i in w.store.tree.links && i !in Stepped(w, step).store.tree.links
    ensures Word(w.locks.core.locks, i) == 0
  {
    InitialWholeInv();
    hide WholeInv, LockRuns.Run, WholeRun, CanStep, Stepped;
    var run := RunIsLockRun(InitialWhole(), steps, w);
    var more := StepIsLockRun(w, step, Stepped(w, step));
  }

  lemma {:induction false} ReachableInv(steps: seq<WholeStep>, w: Whole)
    requires WholeRun(InitialWhole(), steps, w)
    ensures WholeInv(w)
  {
    InitialWholeInv();
    hide WholeInv, LockRuns.Run, WholeRun;
    var run := RunIsLockRun(InitialWhole(), steps, w);
  }

  /** And no node goes that is still used: in every reachable state a lock's directory
      and the child it write-locks are known to the kernel, and all nodes on the way up
      from them exist. */
  lemma {:induction false} LockedNodesExist(steps: seq<WholeStep>, w: Whole, t: Token, i: Id)
    requires WholeRun(InitialWhole(), steps, w) && t in w.locks.core.holds
    ensures var h := w.locks.core.holds[t];
            && Known(w.store, h.path.nodeid) && (h.wnode.Some? ==> Known(w.store, h.wnode.value))
            && (i in UpChain(w.store.tree.links, h.path.nodeid) ==> i in w.store.tree.links)
  {
    ReachableInv(steps, w);
    CountedIsConsistent(w.store);
    hide WholeRun, Counted, KnownWaiters;
    WayIsAsRecorded(w.locks.core, t);
    hide Inv, WellFormed;
  }

  /** So does every node that a waiter names. */
  lemma {:induction false} AwaitedNodesExist(steps: seq<WholeStep>, w: Whole, k: nat, i: Id)
    requires WholeRun(InitialWhole(), steps, w) && k < |w.locks.queue| && Needs(w.locks.core.tree, w.locks.queue[k], i)
    ensures Known(w.store, i)
  {
    ReachableInv(steps, w);
    hide WholeRun, Counted, Inv, Pinned;
    assert KnownWaiter(w.store, w.locks.queue[k]);
  }

  /** And every count is what refers to the node, on the very tree that the locks are on. */
  lemma {:induction false} CountsAreRight(steps: seq<WholeStep>, w: Whole, i: Id)
    requires WholeRun(InitialWhole(), steps, w) && i in w.locks.core.tree.links
    ensures i in w.store.nlookup && i in w.store.refctr
    ensures w.store.refctr[i] == References(w.store, i) > 0 && w.store.tree == w.locks.core.tree
  {
    ReachableInv(steps, w);
    hide WholeRun, Inv, Pinned, KnownWaiters, WellFormed;
  }

  // ----- what the kernel refers to, from the steps alone

  function LookupsGiven(steps: seq<WholeStep>, i: Id): int {
    if steps == [] then 0
    else (if steps[0].Node? then RefRuns.LookupsGiven(steps[0].ref, i) else 0) + LookupsGiven(steps[1..], i)
  }

  lemma {:induction false} WholeStepGives(w: Whole, step: WholeStep, w': Whole, i: Id)
    requires WholeInv(w) && CanStep(w, step) && w' == Stepped(w, step)
    ensures LookupsOf(w'.store, i) == LookupsOf(w.store, i) + if step.Node? then RefRuns.LookupsGiven(step.ref, i) else 0
  {
    hide Inv, Counted, OnSameTree, LookupsOf, RefRuns.LookupsGiven, LocksOn, Counting, LockSteps.Apply, RefRuns.Stepped;
    match step {
      case Request(r) =>
        RequestStepKeepsWhole(w, r, w');
        RefRuns.SameLookups(w.store, w'.store, i);
      case Node(r) => RefRuns.StepGives(w.store, r, w'.store, i);
    }
  }

  lemma {:induction false} WholeRunGives(w: Whole, steps: seq<WholeStep>, w': Whole, i: Id)
    requires WholeInv(w) && WholeRun(w, steps, w')
    ensures LookupsOf(w'.store, i) == LookupsOf(w.store, i) + LookupsGiven(steps, i)
    decreases |steps|
  {
    hide WholeInv, CanStep, Stepped, LookupsOf, LockRuns.Run, OnlyUnlockedGo;
    if steps != [] {
      var m := Stepped(w, steps[0]);
      var run := StepIsLockRun(w, steps[0], m);
      WholeStepGives(w, steps[0], m, i);
      WholeRunGives(m, steps[1..], w', i);
    }
  }

  /** In every reachable state of locks and counts together `nlookup` is what the kernel
      has been given less what it has forgotten, and what it still refers to exists. */
  lemma {:induction false} LookupsAreThoseGiven(steps: seq<WholeStep>, w: Whole, i: Id)
    requires WholeRun(InitialWhole(), steps, w)
    ensures var given := LookupsGiven(steps, i) + if i == ROOT then 1 else 0;
            && given >= 0
            && (i in w.locks.core.tree.links ==> i in w.store.nlookup && w.store.nlookup[i] == given)
            && (given > 0 ==> i in w.locks.core.tree.links)
  {
    InitialWholeInv();
    ReachableInv(steps, w);
    CountedIsConsistent(w.store);
    hide WholeRun, Inv, Counted, WellFormed, Pinned, KnownWaiters;
    WholeRunGives(InitialWhole(), steps, w, i);
  }
}
