/** The requests as a state machine: each step is what one request does while it
    holds the mutex. Every step keeps the invariant of locks, tree and queue. */
module LockSteps {
  import opened Wrappers
  import opened PathTree
  import opened TreeLocks
  import opened LockQueue

  // ----- steps: what one request does between taking and dropping f->lock

  datatype Step =
    /** `get_path`, `get_path_name`, `get_path_wrlock` up to granting, failing or queueing. */
    | GetPath(req: nat, path: Path, mem: nat)
    /** `get_path2` likewise. */
    | GetPath2(req: nat, path1: Path, path2: Path, mem1: nat, mem2: nat)
    /** The end of `wait_path`: a waiter that is done leaves the queue. */
    | Dequeue(req: nat)
    /** `free_path`, `free_path_wrlock`, `free_path2`: unlock and wake all waiters. */
    | FreePath(req: nat, wake: Memory)
    /** `forget_node` starts and stops waiting for a node to be unlocked. */
    | WaitForget(req: nat, nodeid: Id)
    | EndForget(req: nat)
    /** `rename_node` from the directory of path `a` to that of path `b` of a
        request; `hide_node` renames within one directory. */
    | Rename(req: nat, a: bool, b: bool, oldname: string, newname: string, memory: bool)
    | Exchange(req: nat, oldname: string, newname: string, both: (bool, bool))
    /** `remove_node` in the directory of path `a`. */
    | Remove(req: nat, a: bool, name: string)
    /** `find_node` of a name not cached, and `delete_node`. */
    | Find(nodeid: Id, parent: Id, name: string)
    | Delete(nodeid: Id)

  ghost predicate Idle(s: State, req: nat) {
    req < MAX_REQUESTS && req !in s.granted && !Queued(s.queue, req) && HoldsNothing(s.core, req)
  }

  ghost function Dir(s: State, req: nat, second: bool): Id
    requires Token(req, second) in s.core.holds
  {
    s.core.holds[Token(req, second)].path.nodeid
  }

  /** The waiters that could still need node `i`. */
  ghost predicate Awaited(queue: seq<Waiter>, i: Id) {
    exists k :: 0 <= k < |queue| && match queue[k]
                                    case Forget(_, n) => n == i
                                    case Paths(_, p1, p2, _) => p1.nodeid == i || (p2.Some? && p2.value.nodeid == i)
  }

  /** When a step can happen. The kernel names only nodes that exist, and it
      serialises operations on a name: what a granted rename or removal finds
      under a name is the node it has write-locked there. */
  ghost predicate Enabled(s: State, step: Step) {
    var t := s.core.tree;
    match step
    case GetPath(req, p, _) => Idle(s, req) && p.nodeid in t.links
    case GetPath2(req, p1, p2, _, _) => Idle(s, req) && p1.nodeid in t.links && p2.nodeid in t.links
    case Dequeue(req) => exists k :: 0 <= k < |s.queue| && IsDone(s.queue[k], req)
    case FreePath(req, _) => req in s.granted
    case WaitForget(req, n) => Idle(s, req) && n in t.links
    case EndForget(req) => exists k :: 0 <= k < |s.queue| && s.queue[k].Forget? && s.queue[k].req == req
    case Rename(req, a, b, oldname, newname, _) =>
      && req in s.granted && Token(req, a) in s.core.holds && Token(req, b) in s.core.holds
      && WriteLocked(s.core, Token(req, a), Lookup(t, Dir(s, req, a), oldname))
      && WriteLocked(s.core, Token(req, b), Lookup(t, Dir(s, req, b), newname))
    case Exchange(req, oldname, newname, _) =>
      && req in s.granted && Token(req, false) in s.core.holds && Token(req, true) in s.core.holds
      && WriteLocked(s.core, Token(req, false), Lookup(t, Dir(s, req, false), oldname))
      && WriteLocked(s.core, Token(req, true), Lookup(t, Dir(s, req, true), newname))
    case Remove(req, a, name) =>
      && req in s.granted && Token(req, a) in s.core.holds
      && WriteLocked(s.core, Token(req, a), Lookup(t, Dir(s, req, a), name))
    case Find(i, parent, name) => i !in t.links && parent in t.links && (parent, name) !in t.names
    case Delete(i) =>
      && i in t.links && i != ROOT && i in s.core.locks && s.core.locks[i] == 0
      && Childless(t.links, i) && !Awaited(s.queue, i)
  }

  predicate IsDone(w: Waiter, req: nat) {
    w.Paths? && w.req == req && w.status.Done?
  }

  ghost function Position(queue: seq<Waiter>, req: nat): (k: nat)
    requires Queued(queue, req)
    ensures k < |queue| && queue[k].req == req
  {
    var k :| 0 <= k < |queue| && queue[k].req == req; k
  }

  function Without(queue: seq<Waiter>, k: nat): seq<Waiter>
    requires k < |queue|
  {
    queue[..k] + queue[k + 1..]
  }

  /** `try_get_path2`: on failure of the second path the first is unlocked. */
  ghost function TryGet2(s: Core, req: nat, p1: Path, p2: Path, mem1: nat, mem2: nat): (Core, Option<Err>) {
    var (s1, e1) := Try(s, Token(req, false), p1, mem1);
    if e1.Some? then (s1, e1)
    else
      var (s2, e2) := Try(s1, Token(req, true), p2, mem2);
      if e2.Some? then (Release(s2, Token(req, false)), e2) else (s2, None)
  }

  /** Granted, refused, or queued. */
  ghost function Answer(s: State, core: Core, err: Option<Err>, w: Waiter): State {
    if err == None then State(core, s.queue, s.granted + {w.req})
    else if err == Some(Again) then State(core, s.queue + [w], s.granted)
    else s.(core := core)
  }

  ghost function Apply(s: State, step: Step): State
    requires Enabled(s, step)
  {
    var t := s.core.tree;
    match step
    case GetPath(req, p, mem) =>
      var (core, err) := Try(s.core, Token(req, false), p, mem);
      Answer(s, core, err, Paths(req, p, None, Waiting))
    case GetPath2(req, p1, p2, mem1, mem2) =>
      var (core, err) := TryGet2(s.core, req, p1, p2, mem1, mem2);
      Answer(s, core, err, Paths(req, p1, Some(p2), Waiting))
    case Dequeue(req) =>
      var k := Position(s.queue, req);
      State(s.core, Without(s.queue, k),
            if s.queue[k].Paths? && s.queue[k].status == Done(None) then s.granted + {req} else s.granted)
    case FreePath(req, wake) =>
      WakeFrom(State(ReleaseBoth(s.core, req), s.queue, s.granted - {req}), 0, wake)
    case WaitForget(req, n) => s.(queue := s.queue + [Forget(req, n)])
    case EndForget(req) => s.(queue := Without(s.queue, Position(s.queue, req)))
    case Rename(req, a, b, oldname, newname, memory) =>
      s.(core := s.core.(tree := RenameNode(t, Dir(s, req, a), oldname, Dir(s, req, b), newname, memory)))
    case Exchange(req, oldname, newname, memory) =>
      s.(core := s.core.(tree := ExchangeNode(t, Dir(s, req, false), oldname, Dir(s, req, true), newname, memory)))
    case Remove(req, a, name) =>
      s.(core := s.core.(tree := UnhashFound(t, Lookup(t, Dir(s, req, a), name))))
    case Find(i, parent, name) =>
      s.(core := Core(AddLinked(t, i, parent, name), s.core.locks[i := 0], s.core.holds))
    case Delete(i) =>
      s.(core := Core(DropNode(t, i), s.core.locks - {i}, s.core.holds))
  }

  // ----- every step keeps the invariant

  lemma {:induction false} AnswerKeepsInv(s: State, core: Core, err: Option<Err>, w: Waiter, s': State)
    requires Inv(s) && Idle(s, w.req) && OnlyOwn(s.core, core, w.req) && s' == Answer(s, core, err, w)
    requires w.Paths? && w.status == Waiting && Nodes(core, w)
    requires w.path2 == None ==> Token(w.req, true) !in core.holds
    requires if err == None then Full(core, w) else HoldsNothing(core, w.req)
    ensures Inv(s')
  {
    hide Valid;
    forall k | 0 <= k < |s.queue| ensures WaiterOk(core, s.queue[k], k == 0) {
      assert s.queue[k].req != w.req;
      WaiterOkForOthers(s.core, core, s.queue[k], k == 0, w.req);
    }
    forall r | r in s.granted ensures Token(r, false) in core.holds {
      assert Token(r, false).req != w.req;
    }
  }

  lemma {:induction false} TryGet2Keeps(
      s: Core, req: nat, p1: Path, p2: Path, mem1: nat, mem2: nat, s': Core, err: Option<Err>)
    requires Valid(s) && p1.nodeid in s.tree.links && p2.nodeid in s.tree.links && req < MAX_REQUESTS
    requires HoldsNothing(s, req) && (s', err) == TryGet2(s, req, p1, p2, mem1, mem2)
    ensures OnlyOwn(s, s', req)
    ensures if err == None then Token(req, false) in s'.holds && Token(req, true) in s'.holds else HoldsNothing(s', req)
  {
    hide Valid, Try, Release;
    var (s1, e1) := Try(s, Token(req, false), p1, mem1);
    TryKeeps(s, Token(req, false), p1, mem1, s1, e1);
    if e1 == None {
      var (s2, e2) := Try(s1, Token(req, true), p2, mem2);
      TryKeeps(s1, Token(req, true), p2, mem2, s2, e2);
      if e2.Some? {
        ReleaseKeeps(s2, Token(req, false), s');
      }
    }
  }

  lemma {:induction false} LeaveKeepsQueueOk(s: Core, queue: seq<Waiter>, k: nat)
    requires QueueOk(s, queue) && k < |queue|
    ensures QueueOk(s, Without(queue, k))
    ensures forall r :: Queued(Without(queue, k), r) <==> Queued(queue, r) && r != queue[k].req
  {
    hide Valid;
    var q := Without(queue, k);
    forall j | 0 <= j < |q| ensures WaiterOk(s, q[j], j == 0) {
      var i := if j < k then j else j + 1;
      assert q[j] == queue[i] && WaiterOk(s, queue[i], i == 0);
    }
    forall r | Queued(queue, r) && r != queue[k].req ensures Queued(q, r) {
      var i := Position(queue, r);
      assert q[if i < k then i else i - 1] == queue[i];
    }
  }

  /** A change that locks and unlocks nothing and removes no awaited node. */
  lemma {:induction false} SameHoldsKeepInv(s: State, core': Core, s': State)
    requires Inv(s) && Valid(core') && core'.holds == s.core.holds && s' == s.(core := core')
    requires forall k :: 0 <= k < |s.queue| ==> Nodes(core', s.queue[k])
    ensures Inv(s')
  {
  }

  lemma {:induction false} FreeKeepsInvBeforeWake(s: State, req: nat, s1: State)
    requires Inv(s) && req in s.granted && s1 == State(ReleaseBoth(s.core, req), s.queue, s.granted - {req})
    ensures Inv(s1)
  {
    hide Valid, ReleaseBoth;
    ReleaseBothKeeps(s.core, req, s1.core);
    forall k | 0 <= k < |s.queue| ensures WaiterOk(s1.core, s.queue[k], k == 0) {
      WaiterOkForOthers(s.core, s1.core, s.queue[k], k == 0, req);
    }
    forall r | r in s1.granted ensures Token(r, false) in s1.core.holds {
      assert Token(r, false).req != req;
    }
  }

  lemma {:induction false} FreeKeepsInv(s: State, req: nat, wake: Memory, s': State)
    requires Inv(s) && req in s.granted
    requires s' == WakeFrom(State(ReleaseBoth(s.core, req), s.queue, s.granted - {req}), 0, wake)
    ensures Inv(s')
  {
    hide Inv, WakeFrom, ReleaseBoth;
    var s1 := State(ReleaseBoth(s.core, req), s.queue, s.granted - {req});
    FreeKeepsInvBeforeWake(s, req, s1);
    WakeKeepsInv(s1, 0, wake, s');
  }

  lemma {:induction false} GetKeepsInv(s: State, step: Step, s': State)
    requires Inv(s) && Enabled(s, step) && s' == Apply(s, step) && (step.GetPath? || step.GetPath2?)
    ensures Inv(s')
  {
    hide Valid, Try, TryGet2;
    match step {
      case GetPath(req, p, mem) =>
        var (core, err) := Try(s.core, Token(req, false), p, mem);
        TryKeeps(s.core, Token(req, false), p, mem, core, err);
        AnswerKeepsInv(s, core, err, Paths(req, p, None, Waiting), s');
      case GetPath2(req, p1, p2, mem1, mem2) =>
        var (core, err) := TryGet2(s.core, req, p1, p2, mem1, mem2);
        TryGet2Keeps(s.core, req, p1, p2, mem1, mem2, core, err);
        AnswerKeepsInv(s, core, err, Paths(req, p1, Some(p2), Waiting), s');
    }
  }

  lemma {:induction false} QueueStepKeepsInv(s: State, step: Step, s': State)
    requires Inv(s) && Enabled(s, step) && s' == Apply(s, step)
    requires step.Dequeue? || step.WaitForget? || step.EndForget?
    ensures Inv(s')
  {
    hide Valid;
    if step.WaitForget? {
      forall k | 0 <= k < |s'.queue| ensures WaiterOk(s.core, s'.queue[k], k == 0) {
        assert k < |s.queue| ==> WaiterOk(s.core, s.queue[k], k == 0);
      }
    } else {
      var k := Position(s.queue, step.req);
      LeaveKeepsQueueOk(s.core, s.queue, k);
      assert WaiterOk(s.core, s.queue[k], k == 0);
    }
  }

  lemma {:induction false} WaitersHaveNodes(s: State)
    requires Inv(s)
    ensures forall k :: 0 <= k < |s.queue| ==> Nodes(s.core, s.queue[k])
  {
    assert forall k :: 0 <= k < |s.queue| ==> WaiterOk(s.core, s.queue[k], k == 0);
  }

  lemma {:induction false} RenameStepKeepsInv(s: State, step: Step, s': State)
    requires Inv(s) && Enabled(s, step) && s' == Apply(s, step) && step.Rename?
    ensures Inv(s')
  {
    hide Valid;
    var t1, t2, dir := Token(step.req, step.a), Token(step.req, step.b), Dir(s, step.req, step.a);
    ValidIsWellFormed(s.core);
    RenameKeepsValid(s.core, t1, t2, dir, step.oldname, step.newname, step.memory);
    RenameRelinks(s.core.tree, dir, step.oldname, Dir(s, step.req, step.b), step.newname, step.memory);
    WaitersHaveNodes(s);
    SameHoldsKeepInv(s, s'.core, s');
  }

  lemma {:induction false} ExchangeStepKeepsInv(s: State, step: Step, s': State)
    requires Inv(s) && Enabled(s, step) && s' == Apply(s, step) && step.Exchange?
    ensures Inv(s')
  {
    hide Valid;
    var t1, t2 := Token(step.req, false), Token(step.req, true);
    ValidIsWellFormed(s.core);
    ExchangeKeepsValid(s.core, t1, t2, step.oldname, step.newname, step.both);
    ExchangeRelinks(s.core.tree, Dir(s, step.req, false), step.oldname, Dir(s, step.req, true), step.newname, step.both);
    WaitersHaveNodes(s);
    SameHoldsKeepInv(s, s'.core, s');
  }

  lemma {:induction false} RemoveStepKeepsInv(s: State, step: Step, s': State)
    requires Inv(s) && Enabled(s, step) && s' == Apply(s, step) && step.Remove?
    ensures Inv(s')
  {
    hide Valid;
    var n := Lookup(s.core.tree, Dir(s, step.req, step.a), step.name);
    ValidIsWellFormed(s.core);
    if n.Some? {
      RemoveKeepsValid(s.core, Token(step.req, step.a), n.value);
    }
    WaitersHaveNodes(s);
    SameHoldsKeepInv(s, s'.core, s');
  }

  lemma {:induction false} RelinkStepKeepsInv(s: State, step: Step, s': State)
    requires Inv(s) && Enabled(s, step) && s' == Apply(s, step)
    requires step.Rename? || step.Exchange? || step.Remove?
    ensures Inv(s')
  {
    hide *;
    if step.Rename? {
      RenameStepKeepsInv(s, step, s');
    } else if step.Exchange? {
      ExchangeStepKeepsInv(s, step, s');
    } else {
      RemoveStepKeepsInv(s, step, s');
    }
  }

  /** The names that a request uses mean the right nodes after its step, for the next
      request that looks them up. */
  lemma {:induction false} RenameStepMoves(s: State, step: Step, s': State)
    requires Inv(s) && Enabled(s, step) && s' == Apply(s, step) && step.Rename?
    ensures var t, t', olddir, newdir := s.core.tree, s'.core.tree, Dir(s, step.req, step.a), Dir(s, step.req, step.b);
            var n, m := Lookup(t, olddir, step.oldname), Lookup(t, newdir, step.newname);
            && s' == s.(core := s.core.(tree := t'))
            && SameButFor(t, t', {(olddir, step.oldname), (newdir, step.newname)}, n, m)
            && (n == None ==> t' == t)
            && (n.Some? ==> Lookup(t', newdir, step.newname) == if step.memory then n else None)
            && (n.Some? && (olddir, step.oldname) != (newdir, step.newname) ==> Lookup(t', olddir, step.oldname) == None)
  {
    ValidIsWellFormed(s.core);
    hide Valid, QueueOk, GrantedOk, Acyclic, RenameNode;
    RenameMoves(s.core.tree, Dir(s, step.req, step.a), step.oldname, Dir(s, step.req, step.b), step.newname, step.memory, s'.core.tree);
  }

  lemma {:induction false} ExchangeStepSwaps(s: State, step: Step, s': State)
    requires Inv(s) && Enabled(s, step) && s' == Apply(s, step) && step.Exchange?
    ensures var t, t', olddir, newdir := s.core.tree, s'.core.tree, Dir(s, step.req, false), Dir(s, step.req, true);
            var a, b := Lookup(t, olddir, step.oldname), Lookup(t, newdir, step.newname);
            var moves := a.Some? ==> step.both.0;
            && s' == s.(core := s.core.(tree := t'))
            && SameButFor(t, t', {(olddir, step.oldname), (newdir, step.newname)}, a, b)
            && Lookup(t', newdir, step.newname) == (if moves then a else None)
            && Lookup(t', olddir, step.oldname) == (if moves && step.both.1 then b else None)
  {
    ValidIsWellFormed(s.core);
    var olddir, newdir := Dir(s, step.req, false), Dir(s, step.req, true);
    var a := Lookup(s.core.tree, olddir, step.oldname);
    if a.Some? && a == Lookup(s.core.tree, newdir, step.newname) {
      TwoWriters(s.core, Token(step.req, false), Token(step.req, true), a.value);
    }
    hide Valid, QueueOk, GrantedOk, Acyclic, ExchangeNode;
    ExchangeSwaps(s.core.tree, olddir, step.oldname, newdir, step.newname, step.both, s'.core.tree);
  }

  lemma {:induction false} RemoveStepUnlinks(s: State, step: Step, s': State)
    requires Inv(s) && Enabled(s, step) && s' == Apply(s, step) && step.Remove?
    ensures var t, t', dir := s.core.tree, s'.core.tree, Dir(s, step.req, step.a);
            var n := Lookup(t, dir, step.name);
            && s' == s.(core := s.core.(tree := t'))
            && SameButFor(t, t', {(dir, step.name)}, n, n) && Lookup(t', dir, step.name) == None
  {
    ValidIsWellFormed(s.core);
    hide Valid, QueueOk, GrantedOk, Acyclic, UnhashFound;
    RemoveUnlinks(s.core.tree, Dir(s, step.req, step.a), step.name, s'.core.tree);
  }

  lemma {:induction false} NodeStepKeepsInv(s: State, step: Step, s': State)
    requires Inv(s) && Enabled(s, step) && s' == Apply(s, step) && (step.Find? || step.Delete?)
    ensures Inv(s')
  {
    hide Valid;
    match step {
      case Find(i, parent, name) => AddNodeKeepsValid(s.core, i, parent, name, s'.core);
      case Delete(i) => DropNodeKeepsValid(s.core, i);
    }
    WaitersHaveNodes(s);
    SameHoldsKeepInv(s, s'.core, s');
  }

  lemma {:induction false} StepKeepsInv(s: State, step: Step, s': State)
    requires Inv(s) && Enabled(s, step) && s' == Apply(s, step)
    ensures Inv(s')
  {
    hide Inv;
    match step {
      case GetPath(_, _, _) => GetKeepsInv(s, step, s');
      case GetPath2(_, _, _, _, _) => GetKeepsInv(s, step, s');
      case FreePath(req, wake) => FreeKeepsInv(s, req, wake, s');
      case Dequeue(_) => QueueStepKeepsInv(s, step, s');
      case WaitForget(_, _) => QueueStepKeepsInv(s, step, s');
      case EndForget(_) => QueueStepKeepsInv(s, step, s');
      case Find(_, _, _) => NodeStepKeepsInv(s, step, s');
      case Delete(_) => NodeStepKeepsInv(s, step, s');
      case _ => RelinkStepKeepsInv(s, step, s');
    }
  }
}
