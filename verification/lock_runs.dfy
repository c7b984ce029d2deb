/** Whole runs of the path locks, from the tree that `fuse_new` creates. */
module LockRuns {
  import opened Wrappers
  import opened PathTree
  import opened TreeLocks
  import opened LockQueue
  import opened LockSteps
  import opened LockProgress

  /** Only the root exists, and nothing is locked. */
  function Initial(): State {
    State(Core(Tree(map[ROOT := Unlinked], map[]), map[ROOT := 0], map[]), [], {})
  }

  ghost predicate Run(s: State, steps: seq<Step>, s': State)
    decreases |steps|
  {
    if steps == [] then s' == s
    else Enabled(s, steps[0]) && Run(Apply(s, steps[0]), steps[1..], s')
  }

  lemma {:induction false} InitialInv()
    ensures Inv(Initial())
  {
    var s := Initial();
    assert IsUp(s.core.tree.links, ROOT, []);
    UnheldIsUncounted(s.core.holds, ROOT);
  }

  lemma {:induction false} RunKeepsInv(s: State, steps: seq<Step>, s': State)
    requires Inv(s) && Run(s, steps, s')
    ensures Inv(s')
    decreases |steps|
  {
    hide Inv;
    if steps != [] {
      StepKeepsInv(s, steps[0], Apply(s, steps[0]));
      RunKeepsInv(Apply(s, steps[0]), steps[1..], s');
    }
  }

  lemma {:induction false} ExtendRun(s: State, steps: seq<Step>, m: State, step: Step, s': State)
    requires Run(s, steps, m) && Enabled(m, step) && s' == Apply(m, step)
    ensures Run(s, steps + [step], s')
    decreases |steps|
  {
    if steps == [] {
      assert Run(s', [], s');
      assert ([] + [step])[1..] == [];
    } else {
      ExtendRun(Apply(s, steps[0]), steps[1..], m, step, s');
      assert (steps + [step])[1..] == steps[1..] + [step];
    }
  }

  // ----- what holds in every reachable state

  /** The outstanding path locks whose way to the root goes through node `i`. */
  ghost function Through(s: State, i: Id): set<Token> {
    set t | t in s.core.holds && i in UpChain(s.core.tree.links, s.core.holds[t].path.nodeid)
  }

  /** The outstanding write locks on node `i`. */
  ghost function WritersOf(s: State, i: Id): set<Token> {
    set t | t in s.core.holds && s.core.holds[t].wnode == Some(i)
  }

  /** In every reachable state each lock word is the number `r` of path locks
      through the node, or INT_MIN + r with r >= 1, or -1 for a single writer and
      no reader; and it fits an `int`. */
  lemma {:induction false} LockWordsCountHolds(steps: seq<Step>, s: State, i: Id)
    requires Run(Initial(), steps, s) && i in s.core.tree.links
    ensures i in s.core.locks && INT_MIN <= s.core.locks[i] <= INT_MAX
    ensures LockIs(s.core.locks[i], |Through(s, i)|, |WritersOf(s, i)|)
  {
    InitialInv();
    RunKeepsInv(Initial(), steps, s);
    hide Run, WellFormed, QueueOk, GrantedOk;
    ReadersBound(s.core, i);
    forall t | t in s.core.holds
      ensures UpChain(s.core.tree.links, s.core.holds[t].path.nodeid) == s.core.holds[t].chain
    {
      WayIsAsRecorded(s.core, t);
    }
    assert Through(s, i) == Readers(s.core.holds, i);
    assert WritersOf(s, i) == Writers(s.core.holds, i);
    assert LockIs(s.core.locks[i], NumReaders(s.core.holds, i), NumWriters(s.core.holds, i));
  }

  /** In every reachable state following parents from any node ends, and every
      locked path still leads to the root. */
  lemma {:induction false} TreeStaysAcyclic(steps: seq<Step>, s: State)
    requires Run(Initial(), steps, s)
    ensures Acyclic(s.core.tree.links)
    ensures forall t :: t in s.core.holds ==>
              var id := s.core.holds[t].path.nodeid; Top(s.core.tree.links, id, UpChain(s.core.tree.links, id)) == ROOT
  {
    InitialInv();
    RunKeepsInv(Initial(), steps, s);
    forall t | t in s.core.holds
      ensures UpChain(s.core.tree.links, s.core.holds[t].path.nodeid) == s.core.holds[t].chain
    {
      WayIsAsRecorded(s.core, t);
    }
  }

  /** In every reachable state the assertions of `unlock_path` hold for every
      outstanding lock. */
  lemma {:induction false} NoAssertionFires(steps: seq<Step>, s: State, t: Token)
    requires Run(Initial(), steps, s) && t in s.core.holds
    ensures UnlockAssertionsHold(s.core.locks, s.core.holds[t].wnode, UpChain(s.core.tree.links, s.core.holds[t].path.nodeid))
  {
    InitialInv();
    RunKeepsInv(Initial(), steps, s);
    UnlockNeverAsserts(s.core, t);
  }

  /** In every reachable state a waiter that is neither done nor the head holds
      nothing, and the head does not hold all it needs while it waits. */
  lemma {:induction false} OnlyHeadIsPartlyLocked(steps: seq<Step>, s: State, k: nat)
    requires Run(Initial(), steps, s) && k < |s.queue|
    requires s.queue[k].Paths? && s.queue[k].status == Waiting
    ensures if k == 0 then !Full(s.core, s.queue[k]) else HoldsNothing(s.core, s.queue[k].req)
  {
    InitialInv();
    RunKeepsInv(Initial(), steps, s);
    assert WaiterOk(s.core, s.queue[k], k == 0);
  }

  // ----- no lock is lost

  /** Every outstanding lock belongs to a granted request or to a waiter. */
  ghost predicate Accounted(s: State) {
    forall t :: t in s.core.holds ==> t.req in s.granted || Queued(s.queue, t.req)
  }

  /** The wake-up that this step performs, if any, hits a failed head whose
      repeated attempt gets one path of two. */
  ghost predicate StepLeaks(s: State, step: Step) {
    step.FreePath? && WakeLeaks(State(ReleaseBoth(s.core, step.req), s.queue, s.granted - {step.req}), step.wake)
  }

  ghost predicate LeakFreeRun(s: State, steps: seq<Step>)
    decreases |steps|
  {
    steps == [] ||
    (Enabled(s, steps[0]) && !StepLeaks(s, steps[0]) && LeakFreeRun(Apply(s, steps[0]), steps[1..]))
  }

  lemma {:induction false} WakeKeepsAccounted(s: State, wake: Memory, s': State)
    requires Inv(s) && Accounted(s) && s' == WakeFrom(s, 0, wake)
    ensures Accounted(s')
  {
    hide Inv, WakeFrom;
    WakeKeepsInv(s, 0, wake, s');
    forall t | t in s'.core.holds ensures t.req in s'.granted || Queued(s'.queue, t.req) {
      if Queued(s.queue, t.req) {
        var j :| 0 <= j < |s.queue| && s.queue[j].req == t.req;
        assert SameWaiter(s.queue[j], s'.queue[j]);
      }
    }
  }

  lemma {:induction false} ReleaseKeepsAccounted(s: State, req: nat, s1: State)
    requires Inv(s) && Clean(s) && Accounted(s) && req in s.granted
    requires s1 == State(ReleaseBoth(s.core, req), s.queue, s.granted - {req})
    ensures Clean(s1) && Accounted(s1)
  {
    hide Valid, ReleaseBoth;
    ReleaseBothKeeps(s.core, req, s1.core);
    forall k | 0 <= k < |s.queue| && HasFailed(s.queue[k]) ensures HoldsNothing(s1.core, s.queue[k].req) {
      assert s.queue[k].req != req;
    }
  }

  lemma {:induction false} FreeKeepsAccounted(s: State, req: nat, wake: Memory, s': State)
    requires Inv(s) && Clean(s) && Accounted(s) && req in s.granted
    requires var s1 := State(ReleaseBoth(s.core, req), s.queue, s.granted - {req});
             s' == WakeFrom(s1, 0, wake) && !WakeLeaks(s1, wake)
    ensures Clean(s') && Accounted(s')
  {
    hide Inv, Clean, Accounted, WakeFrom, ReleaseBoth, WakeLeaks;
    var s1 := State(ReleaseBoth(s.core, req), s.queue, s.granted - {req});
    FreeKeepsInvBeforeWake(s, req, s1);
    ReleaseKeepsAccounted(s, req, s1);
    WakeKeepsClean(s1, wake, s');
    WakeKeepsAccounted(s1, wake, s');
  }

  lemma {:induction false} AnswerKeepsAccounted(s: State, core: Core, err: Option<Err>, w: Waiter, s': State)
    requires Inv(s) && Clean(s) && Accounted(s) && Idle(s, w.req)
    requires OnlyOwn(s.core, core, w.req) && s' == Answer(s, core, err, w)
    requires w.Paths? && w.status == Waiting && (err.Some? ==> HoldsNothing(core, w.req))
    ensures Clean(s') && Accounted(s')
  {
    hide Valid;
    forall k | 0 <= k < |s'.queue| && HasFailed(s'.queue[k]) ensures HoldsNothing(core, s'.queue[k].req) {
      assert k < |s.queue| && s.queue[k].req != w.req;
    }
    forall t | t in core.holds ensures t.req in s'.granted || Queued(s'.queue, t.req) {
      if t.req != w.req && t.req !in s.granted {
        var k := Position(s.queue, t.req);
        assert s'.queue[k] == s.queue[k];
      } else if t.req == w.req {
        assert t == Token(w.req, false) || t == Token(w.req, true);
      }
    }
  }

  lemma {:induction false} LeaveKeepsAccounted(s: State, step: Step, s': State)
    requires Inv(s) && Clean(s) && Accounted(s) && Enabled(s, step) && s' == Apply(s, step)
    requires step.Dequeue? || step.EndForget?
    ensures Clean(s') && Accounted(s')
  {
    hide Valid;
    var k := Position(s.queue, step.req);
    LeaveKeepsQueueOk(s.core, s.queue, k);
    forall j | 0 <= j < |s'.queue| && HasFailed(s'.queue[j]) ensures HoldsNothing(s'.core, s'.queue[j].req) {
      assert s'.queue[j] == s.queue[if j < k then j else j + 1];
    }
    assert WaiterOk(s.core, s.queue[k], k == 0);
    forall t | t in s'.core.holds ensures t.req in s'.granted || Queued(s'.queue, t.req) {
      if t.req == step.req {
        assert t == Token(step.req, false) || t == Token(step.req, true);
      }
    }
  }

  lemma {:induction false} StepKeepsAccounted(s: State, step: Step, s': State)
    requires Inv(s) && Clean(s) && Accounted(s) && Enabled(s, step) && s' == Apply(s, step)
    requires !StepLeaks(s, step)
    ensures Clean(s') && Accounted(s')
  {
    hide Valid, WakeFrom, ReleaseBoth, Try, TryGet2, WakeLeaks;
    match step {
      case GetPath(req, p, mem) =>
        var (core, err) := Try(s.core, Token(req, false), p, mem);
        TryKeeps(s.core, Token(req, false), p, mem, core, err);
        AnswerKeepsAccounted(s, core, err, Paths(req, p, None, Waiting), s');
      case GetPath2(req, p1, p2, mem1, mem2) =>
        var (core, err) := TryGet2(s.core, req, p1, p2, mem1, mem2);
        TryGet2Keeps(s.core, req, p1, p2, mem1, mem2, core, err);
        AnswerKeepsAccounted(s, core, err, Paths(req, p1, Some(p2), Waiting), s');
      case FreePath(req, wake) => FreeKeepsAccounted(s, req, wake, s');
      case Dequeue(_) => LeaveKeepsAccounted(s, step, s');
      case EndForget(_) => LeaveKeepsAccounted(s, step, s');
      case WaitForget(req, n) => SameWaitersStayAccounted(s, s');
      case _ => SameWaitersStayAccounted(s, s');
    }
  }

  lemma {:induction false} SameWaitersStayAccounted(s: State, s': State)
    requires Clean(s) && Accounted(s) && s'.core.holds == s.core.holds && s'.granted == s.granted
    requires s.queue <= s'.queue && forall k :: |s.queue| <= k < |s'.queue| ==> s'.queue[k].Forget?
    ensures Clean(s') && Accounted(s')
  {
  }

  /** Unless some wake-up repeats the attempt of a failed head and gets half of it,
      no lock is ever lost: each belongs to a granted request or to a waiter. */
  lemma {:induction false} LeakFreeRunLosesNoLock(s: State, steps: seq<Step>, s': State)
    requires Inv(s) && Clean(s) && Accounted(s) && Run(s, steps, s') && LeakFreeRun(s, steps)
    ensures Clean(s') && Accounted(s')
    decreases |steps|
  {
    hide Inv, Clean, Accounted, StepLeaks;
    if steps != [] {
      var s1 := Apply(s, steps[0]);
      StepKeepsInv(s, steps[0], s1);
      StepKeepsAccounted(s, steps[0], s1);
      LeakFreeRunLosesNoLock(s1, steps[1..], s');
    }
  }
}
