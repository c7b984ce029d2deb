/** Two situations that no further step ends: a half-locked head of the queue shut out
    by a waiting mark on its own way, and a path lock that nobody accounts for. */
module LockStuck {
  import opened Wrappers
  import opened PathTree
  import opened TreeLocks
  import opened LockQueue
  import opened LockSteps
  import opened LockProgress
  import opened LockRuns

  // ----- a mark that only one lock keeps

  /** Node `x` is marked as waited for, and `held` is the only path lock through it. */
  ghost predicate MarkedBy(s: Core, held: Token, x: Id) {
    && x in s.locks && s.locks[x] < TREELOCK_WRITE
    && held in s.holds && x in s.holds[held].chain
    && forall t :: t in s.holds && x in s.holds[t].chain ==> t == held
  }

  /** The mark and its lock are as they were. */
  ghost predicate MarkStays(s: Core, s': Core, held: Token, x: Id) {
    && MarkedBy(s', held, x) && s'.tree == s.tree
    && (held in s.holds && held in s'.holds ==> s'.holds[held] == s.holds[held])
  }

  /** What another lock has locked is not `x`. */
  lemma {:induction false} OthersAreElsewhere(s: Core, tok: Token, held: Token, x: Id)
    requires Valid(s) && MarkedBy(s, held, x) && tok in s.holds && tok != held
    ensures x !in UpChain(s.tree.links, s.holds[tok].path.nodeid) && s.holds[tok].wnode != Some(x)
  {
    WayIsAsRecorded(s, tok);
    ReadersBound(s, x);
    hide WellFormed, HoldOk, UpChain;
    HeldWords(s.locks, s.holds, tok, x);
  }

  lemma {:induction false} UnlockKeepsMark(s: Core, tok: Token, s': Core, held: Token, x: Id)
    requires Valid(s) && MarkedBy(s, held, x) && tok in s.holds && tok != held && s' == Unlock(s, tok)
    ensures MarkStays(s, s', held, x)
  {
    hide Valid, UpChain;
    OthersAreElsewhere(s, tok, held, x);
  }

  lemma {:induction false} ClosedWordStays(
      locks: Locks, c: seq<Id>, stale: bool, named: bool, w: Option<Id>, mem: nat, x: Id)
    requires x in locks && locks[x] < 0 && forall i :: i in c ==> i in locks
    ensures var (locks', r) := TryLocks(locks, c, stale, named, w, mem);
            x in locks' && locks'[x] == locks[x] && (r.Granted? ==> x !in c)
  {
    var marked := SetLock(locks, w, TREELOCK_WRITE);
    var left := if named && mem > 0 then mem - 1 else mem;
    if Scan(marked, c, stale, left) == None && (w.Some? ==> Word(locks, w.value) == 0) {
      ScanPasses(marked, c, stale, left);
    }
  }

  lemma {:induction false} AttemptWord(s: Core, tok: Token, p: Path, mem: nat, x: Id)
    requires Valid(s) && p.nodeid in s.tree.links && x in s.locks && s.locks[x] < 0
    ensures var (s', r) := TryGet(s, tok, p, mem);
            && x in s'.locks && s'.locks[x] == s.locks[x] && (r.Granted? ==> x !in UpChain(s.tree.links, p.nodeid))
  {
    NodesOf(s, p);
    hide Valid, UpChain, Top, TryLocks;
    ClosedWordStays(s.locks, UpChain(s.tree.links, p.nodeid), IsStale(s.tree, p), p.name.Some?, WriteNode(s.tree, p), mem, x);
  }

  lemma {:induction false} AttemptKeepsMark(s: Core, tok: Token, p: Path, mem: nat, s': Core, held: Token, x: Id)
    requires Valid(s) && MarkedBy(s, held, x) && tok != held && p.nodeid in s.tree.links
    requires s' == TryGet(s, tok, p, mem).0
    ensures MarkStays(s, s', held, x)
  {
    AttemptWord(s, tok, p, mem, x);
    hide Valid, UpChain, TryLocks;
  }

  lemma {:induction false} ReleaseKeepsMark(s: Core, tok: Token, s': Core, held: Token, x: Id)
    requires Valid(s) && MarkedBy(s, held, x) && tok != held && s' == Release(s, tok)
    ensures MarkStays(s, s', held, x)
  {
    hide Valid, MarkedBy, Unlock;
    if tok in s.holds {
      UnlockKeepsMark(s, tok, s', held, x);
    }
  }

  lemma {:induction false} ReleaseBothKeepsMark(s: Core, req: nat, s': Core, held: Token, x: Id)
    requires Valid(s) && MarkedBy(s, held, x) && req != held.req && s' == ReleaseBoth(s, req)
    ensures MarkStays(s, s', held, x)
  {
    hide Valid, MarkedBy, Release;
    var s1 := Release(s, Token(req, false));
    ReleaseKeeps(s, Token(req, false), s1);
    ReleaseKeepsMark(s, Token(req, false), s1, held, x);
    ReleaseKeepsMark(s1, Token(req, true), s', held, x);
  }

  lemma {:induction false} TryKeepsMark(s: Core, t: Token, p: Path, mem: nat, s': Core, held: Token, x: Id)
    requires Valid(s) && MarkedBy(s, held, x) && t != held && p.nodeid in s.tree.links
    requires s' == Try(s, t, p, mem).0
    ensures MarkStays(s, s', held, x)
  {
    hide Valid, TryGet;
    if t !in s.holds {
      AttemptKeepsMark(s, t, p, mem, s', held, x);
    }
  }

  /** Waking another waiter. */
  lemma {:induction false} WakeupKeepsMark(
      s: Core, w: Waiter, first: bool, mem: Memory, s': Core, held: Token, x: Id)
    requires Valid(s) && MarkedBy(s, held, x) && w.req != held.req && Nodes(s, w) && w.req < MAX_REQUESTS
    requires s' == Wakeup(s, w, first, mem).0
    ensures MarkStays(s, s', held, x)
  {
    hide Valid, MarkedBy, Try, ReleaseBoth;
    if w.Paths? {
      var t1, t2 := Token(w.req, false), Token(w.req, true);
      var (s1, e1) := Try(s, t1, w.path1, mem(t1));
      TryKeeps(s, t1, w.path1, mem(t1), s1, e1);
      TryKeepsMark(s, t1, w.path1, mem(t1), s1, held, x);
      if Fatal(e1) {
        ReleaseBothKeepsMark(s1, w.req, s', held, x);
      } else {
        var (s2, e2) := if w.path2.Some? then Try(s1, t2, w.path2.value, mem(t2)) else (s1, None);
        if w.path2.Some? {
          TryKeeps(s1, t2, w.path2.value, mem(t2), s2, e2);
          TryKeepsMark(s1, t2, w.path2.value, mem(t2), s2, held, x);
        }
        if Fatal(e2) || !((e1 == None && e2 == None) || first) {
          ReleaseBothKeepsMark(s2, w.req, s', held, x);
        }
      }
    }
  }

  // ----- the head that is shut out by it

  /** The path that a head holding its path `second` still waits for. */
  function Missing(w: Waiter, second: bool): Path
    requires w.Paths? && w.path2.Some?
  {
    if second then w.path1 else w.path2.value
  }

  /** The head waits with one of two paths locked. The way of the other goes through
      node `x`, which is marked as waited for and which only the head has locked. */
  ghost predicate Stuck(s: State, second: bool, x: Id) {
    && s.queue != []
    && var w := s.queue[0];
       && w.Paths? && w.status == Waiting && w.path2.Some?
       && Token(w.req, !second) !in s.core.holds
       && MarkedBy(s.core, Token(w.req, second), x)
       && x in UpChain(s.core.tree.links, Missing(w, second).nodeid)
  }

  /** The attempt on the missing path has memory enough in this step. */
  ghost predicate EnoughFor(s: State, second: bool, step: Step) {
    && s.queue != [] && s.queue[0].Paths? && s.queue[0].path2.Some?
    && (step.FreePath? ==>
          Plenty(s.core, Missing(s.queue[0], second), step.wake(Token(s.queue[0].req, !second))))
  }

  lemma {:induction false} MissingIsRefused(s: Core, tok: Token, p: Path, mem: nat, x: Id)
    requires Valid(s) && p.nodeid in s.tree.links && Plenty(s, p, mem)
    requires x in UpChain(s.tree.links, p.nodeid) && Word(s.locks, x) < 0
    ensures TryGet(s, tok, p, mem).1 == Failed(Again)
  {
    hide Valid, TryGet, UpChain, Shut, Starved;
    AttemptFate(s, tok, p, mem);
    EnoughIsNotStarved(s, p, mem, {}, {});
    ShutMeans(s, p, {}, {});
    assert x in Way(s.tree, p);
  }

  /** Waking the head itself. */
  lemma {:induction false} HeadStays(s: Core, w: Waiter, second: bool, mem: Memory, x: Id, s': Core, w': Waiter)
    requires Valid(s) && Nodes(s, w) && w.req < MAX_REQUESTS && w.Paths? && w.path2.Some?
    requires Token(w.req, !second) !in s.holds && MarkedBy(s, Token(w.req, second), x)
    requires x in UpChain(s.tree.links, Missing(w, second).nodeid)
    requires Plenty(s, Missing(w, second), mem(Token(w.req, !second)))
    requires (s', w') == Wakeup(s, w, true, mem)
    ensures w' == w && MarkStays(s, s', Token(w.req, second), x) && Token(w.req, !second) !in s'.holds
  {
    hide Valid, TryGet, UpChain, Plenty;
    var missing, p := Token(w.req, !second), Missing(w, second);
    MissingIsRefused(s, missing, p, mem(missing), x);
    AttemptKeepsMark(s, missing, p, mem(missing), TryGet(s, missing, p, mem(missing)).0, Token(w.req, second), x);
    RefusalMarks(s, missing, p, mem(missing), TryGet(s, missing, p, mem(missing)).0);
    var s1 := Try(s, Token(w.req, false), w.path1, mem(Token(w.req, false))).0;
    assert second ==> Try(s1, Token(w.req, true), w.path2.value, mem(Token(w.req, true))) == (s1, None);
  }

  /** Waking all waiters behind it. */
  lemma {:induction false} RestStays(s: State, k: nat, mem: Memory, s': State, second: bool, x: Id)
    requires Inv(s) && Stuck(s, second, x) && 0 < k <= |s.queue| && s' == WakeFrom(s, k, mem)
    ensures Stuck(s', second, x) && s'.queue[0] == s.queue[0]
    decreases |s.queue| - k
  {
    hide Valid, Wakeup, MarkedBy, UpChain;
    if k < |s.queue| {
      var (core, w) := Wakeup(s.core, s.queue[k], false, mem);
      var s1 := s.(core := core, queue := s.queue[k := w]);
      assert WaiterOk(s.core, s.queue[k], false);
      WakeStepKeepsInv(s, k, mem, s1);
      assert s.queue[0].req != s.queue[k].req;
      WakeupKeepsMark(s.core, s.queue[k], false, mem, core, Token(s.queue[0].req, second), x);
      RestStays(s1, k + 1, mem, s', second, x);
    }
  }

  lemma {:induction false} WakeStays(s: State, mem: Memory, s': State, second: bool, x: Id)
    requires Inv(s) && Stuck(s, second, x) && s' == WakeFrom(s, 0, mem)
    requires Plenty(s.core, Missing(s.queue[0], second), mem(Token(s.queue[0].req, !second)))
    ensures Stuck(s', second, x) && s'.queue[0] == s.queue[0]
  {
    hide Valid, Wakeup, MarkedBy, UpChain, Plenty;
    var (core, w) := Wakeup(s.core, s.queue[0], true, mem);
    var s1 := s.(core := core, queue := s.queue[0 := w]);
    assert WaiterOk(s.core, s.queue[0], true);
    HeadStays(s.core, s.queue[0], second, mem, x, core, w);
    WakeStepKeepsInv(s, 0, mem, s1);
    RestStays(s1, 1, mem, s', second, x);
  }

  // ----- every step

  lemma {:induction false} FreeStays(s: State, req: nat, wake: Memory, s': State, second: bool, x: Id)
    requires Inv(s) && Stuck(s, second, x) && req in s.granted && EnoughFor(s, second, FreePath(req, wake))
    requires s' == WakeFrom(State(ReleaseBoth(s.core, req), s.queue, s.granted - {req}), 0, wake)
    ensures Stuck(s', second, x) && s'.queue[0] == s.queue[0]
  {
    hide Valid, MarkedBy, UpChain, WakeFrom, ReleaseBoth;
    var s1 := State(ReleaseBoth(s.core, req), s.queue, s.granted - {req});
    assert s.queue[0].req != req;
    FreeKeepsInvBeforeWake(s, req, s1);
    ReleaseBothKeeps(s.core, req, s1.core);
    ReleaseBothKeepsMark(s.core, req, s1.core, Token(s.queue[0].req, second), x);
    WakeStays(s1, wake, s', second, x);
  }

  lemma {:induction false} GetStays(s: State, step: Step, s': State, second: bool, x: Id)
    requires Inv(s) && Stuck(s, second, x) && Enabled(s, step) && s' == Apply(s, step)
    requires step.GetPath? || step.GetPath2?
    ensures Stuck(s', second, x) && s'.queue[0] == s.queue[0]
  {
    hide Valid, MarkedBy, UpChain, Try, Release;
    var held := Token(s.queue[0].req, second);
    var first := Token(step.req, false);
    assert s.queue[0].req != step.req;
    match step {
      case GetPath(req, p, mem) =>
        TryKeeps(s.core, first, p, mem, Try(s.core, first, p, mem).0, Try(s.core, first, p, mem).1);
        TryKeepsMark(s.core, first, p, mem, Try(s.core, first, p, mem).0, held, x);
      case GetPath2(req, p1, p2, mem1, mem2) =>
        var (s1, e1) := Try(s.core, first, p1, mem1);
        TryKeeps(s.core, first, p1, mem1, s1, e1);
        TryKeepsMark(s.core, first, p1, mem1, s1, held, x);
        if e1 == None {
          var (s2, e2) := Try(s1, Token(req, true), p2, mem2);
          TryKeeps(s1, Token(req, true), p2, mem2, s2, e2);
          TryKeepsMark(s1, Token(req, true), p2, mem2, s2, held, x);
          if e2.Some? {
            ReleaseKeeps(s2, first, Release(s2, first));
            ReleaseKeepsMark(s2, first, Release(s2, first), held, x);
          }
        }
    }
  }

  lemma {:induction false} QueueStays(s: State, step: Step, s': State, second: bool, x: Id)
    requires Inv(s) && Stuck(s, second, x) && Enabled(s, step) && s' == Apply(s, step)
    requires step.Dequeue? || step.WaitForget? || step.EndForget?
    ensures Stuck(s', second, x) && s'.queue[0] == s.queue[0]
  {
    hide Valid, MarkedBy, UpChain;
    if !step.WaitForget? {
      assert Position(s.queue, step.req) != 0;
    }
  }

  // ----- changes of the tree

  /** The way to `x` is as it was, so the way still goes through `x`. */
  lemma {:induction false} StillThrough(
      links: map<Id, Link>, links': map<Id, Link>, id: Id, c: seq<Id>, c': seq<Id>, x: Id)
    requires IsUp(links, id, c) && IsUp(links', id, c') && x in c && x != ROOT && x in links' && links'[x].Linked?
    requires forall i :: i in links && i != x && x in UpChain(links, i) && i in c ==> i in links' && links'[i] == links[i]
    ensures x in c'
    decreases |c|
  {
    assert c == [c[0]] + c[1..];
    if id != x {
      UpIsUnique(links, id, c, UpChain(links, id));
      StillThrough(links, links', links[id].parent, c[1..], c'[1..], x);
      assert c' == [c'[0]] + c'[1..];
    }
  }

  /** A node found in a directory that a granted request has locked is not below `x`. */
  lemma {:induction false} MovedIsNotBelow(s: State, req: nat, a: bool, name: string, n: Id, second: bool, x: Id)
    requires Inv(s) && Stuck(s, second, x) && req in s.granted && Token(req, a) in s.core.holds
    requires Lookup(s.core.tree, Dir(s, req, a), name) == Some(n)
    ensures n == x || x !in UpChain(s.core.tree.links, n)
  {
    hide QueueOk;
    var links, dir := s.core.tree.links, Dir(s, req, a);
    WayIsAsRecorded(s.core, Token(req, a));
    var up := UpChain(links, dir);
    ExtendWay(links, n, up);
    UpIsUnique(links, n, [n] + up, UpChain(links, n));
    assert Queued(s.queue, s.queue[0].req);
  }

  /** The links below `x` on the missing path's way stay, so it is still shut out. */
  lemma {:induction false} TreeStays(s: State, s': State, second: bool, x: Id)
    requires Inv(s) && Stuck(s, second, x) && Inv(s')
    requires s'.queue == s.queue && s'.core.holds == s.core.holds && x in s'.core.locks && s'.core.locks[x] == s.core.locks[x]
    requires forall i :: i in s.core.tree.links && i != x && x in UpChain(s.core.tree.links, i)
                         && i in UpChain(s.core.tree.links, Missing(s.queue[0], second).nodeid) ==>
               i in s'.core.tree.links && s'.core.tree.links[i] == s.core.tree.links[i]
    ensures Stuck(s', second, x)
  {
    var links, links' := s.core.tree.links, s'.core.tree.links;
    var w := s.queue[0];
    var id := Missing(w, second).nodeid;
    assert WaiterOk(s.core, w, true) && WaiterOk(s'.core, s'.queue[0], true);
    WellFormedGrounds(s.core.tree, id);
    WellFormedGrounds(s'.core.tree, id);
    var h := s.core.holds[Token(w.req, second)];
    OnWayIsLinked(links', h.path.nodeid, h.chain);
    StillThrough(links, links', id, UpChain(links, id), UpChain(links', id), x);
  }

  /** Node `i` is under a name in a directory that the request has locked. */
  ghost predicate FoundBy(s: State, req: nat, i: Id) {
    exists a, name :: Token(req, a) in s.core.holds && Lookup(s.core.tree, Dir(s, req, a), name) == Some(i)
  }

  lemma {:induction false} OnlyFoundMove(s: State, step: Step, s': State)
    requires WellFormed(s.core.tree) && Enabled(s, step) && s' == Apply(s, step)
    requires step.Rename? || step.Exchange? || step.Remove?
    ensures s'.queue == s.queue && s'.core.holds == s.core.holds && s'.core.locks == s.core.locks && step.req in s.granted
    ensures forall i :: i in s.core.tree.links && !FoundBy(s, step.req, i) ==>
              i in s'.core.tree.links && s'.core.tree.links[i] == s.core.tree.links[i]
  {
    var t := s.core.tree;
    match step {
      case Rename(req, a, b, oldname, newname, memory) =>
        RenameRelinks(t, Dir(s, req, a), oldname, Dir(s, req, b), newname, memory);
      case Exchange(req, oldname, newname, memory) =>
        ExchangeRelinks(t, Dir(s, req, false), oldname, Dir(s, req, true), newname, memory);
      case Remove(_, _, _) =>
    }
    hide WellFormed;
  }

  lemma {:induction false} RelinkStays(s: State, step: Step, s': State, second: bool, x: Id)
    requires Inv(s) && Stuck(s, second, x) && Enabled(s, step) && s' == Apply(s, step)
    requires step.Rename? || step.Exchange? || step.Remove?
    ensures Stuck(s', second, x) && s'.queue[0] == s.queue[0]
  {
    hide Inv, Enabled, Apply, UpChain, WellFormed, RenameNode, ExchangeNode;
    StepKeepsInv(s, step, s');
    InvIsWellFormed(s);
    OnlyFoundMove(s, step, s');
    MarkIsLocked(s.core, Token(s.queue[0].req, second), x);
    hide MarkedBy;
    forall i | i in s.core.tree.links && i != x && x in UpChain(s.core.tree.links, i) ensures !FoundBy(s, step.req, i) {
      if a, name :| Token(step.req, a) in s.core.holds && Lookup(s.core.tree, Dir(s, step.req, a), name) == Some(i) {
        MovedIsNotBelow(s, step.req, a, name, i, second, x);
      }
    }
    hide FoundBy;
    TreeStays(s, s', second, x);
  }

  lemma InvIsWellFormed(s: State)
    requires Inv(s)
    ensures WellFormed(s.core.tree)
  {
  }

  lemma MarkIsLocked(s: Core, held: Token, x: Id)
    requires MarkedBy(s, held, x)
    ensures x in s.locks && s.locks[x] != 0
  {
  }

  lemma MissingIsAwaited(queue: seq<Waiter>, second: bool)
    requires queue != [] && queue[0].Paths? && queue[0].path2.Some?
    ensures Awaited(queue, Missing(queue[0], second).nodeid)
  {
  }

  lemma {:induction false} DeletedIsOffWay(s: State, i: Id, second: bool, x: Id)
    requires WellFormed(s.core.tree) && Stuck(s, second, x) && Enabled(s, Delete(i))
    requires Missing(s.queue[0], second).nodeid in s.core.tree.links
    ensures i !in UpChain(s.core.tree.links, Missing(s.queue[0], second).nodeid) && i != x
  {
    var links, id := s.core.tree.links, Missing(s.queue[0], second).nodeid;
    MissingIsAwaited(s.queue, second);
    UpFromWellFormed(s.core.tree, id);
    hide UpChain, WellFormed, Awaited;
    ChildlessIsOffWay(links, id, UpChain(links, id), i);
  }

  lemma {:induction false} NodeStays(s: State, step: Step, s': State, second: bool, x: Id)
    requires Inv(s) && Stuck(s, second, x) && Enabled(s, step) && s' == Apply(s, step)
    requires step.Find? || step.Delete?
    ensures Stuck(s', second, x) && s'.queue[0] == s.queue[0]
  {
    hide Inv, MarkedBy, UpChain;
    StepKeepsInv(s, step, s');
    MarkIsLocked(s.core, Token(s.queue[0].req, second), x);
    SameKeys(s);
    if step.Delete? {
      InvIsWellFormed(s);
      HeadHasNodes(s);
      DeletedIsOffWay(s, step.nodeid, second, x);
    }
    TreeStays(s, s', second, x);
  }

  lemma HeadHasNodes(s: State)
    requires Inv(s) && s.queue != []
    ensures Nodes(s.core, s.queue[0])
  {
    assert WaiterOk(s.core, s.queue[0], true);
  }

  lemma SameKeys(s: State)
    requires Inv(s)
    ensures s.core.locks.Keys == s.core.tree.links.Keys
  {
  }

  lemma UpFromWellFormed(t: Tree, id: Id)
    requires WellFormed(t) && id in t.links
    ensures IsUp(t.links, id, UpChain(t.links, id))
  {
  }

  lemma {:induction false} StepStays(s: State, step: Step, s': State, second: bool, x: Id)
    requires Inv(s) && Stuck(s, second, x) && Enabled(s, step) && s' == Apply(s, step) && EnoughFor(s, second, step)
    ensures Stuck(s', second, x) && s'.queue[0] == s.queue[0]
  {
    hide Inv, Stuck;
    match step {
      case GetPath(_, _, _) => GetStays(s, step, s', second, x);
      case GetPath2(_, _, _, _, _) => GetStays(s, step, s', second, x);
      case FreePath(req, wake) => FreeStays(s, req, wake, s', second, x);
      case Dequeue(_) => QueueStays(s, step, s', second, x);
      case WaitForget(_, _) => QueueStays(s, step, s', second, x);
      case EndForget(_) => QueueStays(s, step, s', second, x);
      case Find(_, _, _) => NodeStays(s, step, s', second, x);
      case Delete(_) => NodeStays(s, step, s', second, x);
      case _ => RelinkStays(s, step, s', second, x);
    }
  }

  // ----- for ever

  /** A run in which memory is never what the missing path fails for. */
  ghost predicate RunWithMemory(s: State, second: bool, steps: seq<Step>, s': State)
    decreases |steps|
  {
    if steps == [] then s' == s
    else
      && Enabled(s, steps[0]) && EnoughFor(s, second, steps[0])
      && RunWithMemory(Apply(s, steps[0]), second, steps[1..], s')
  }

  lemma {:induction false} RunStaysStuck(s: State, second: bool, x: Id, steps: seq<Step>, s': State)
    requires Inv(s) && Stuck(s, second, x) && RunWithMemory(s, second, steps, s')
    ensures Inv(s') && Stuck(s', second, x) && s'.queue[0] == s.queue[0]
    decreases |steps|
  {
    hide Inv, Enabled, Apply, EnoughFor, MarkedBy;
    if steps != [] {
      var s1 := Apply(s, steps[0]);
      StepKeepsInv(s, steps[0], s1);
      StepStays(s, steps[0], s1, second, x);
      RunStaysStuck(s1, second, x, steps[1..], s');
    }
  }

  /** Once the head alone holds locks, on one of its paths, and a node that both its
      paths go through is marked as waited for, it waits for ever: in whatever run,
      with whatever other requests, as long as memory suffices. */
  lemma {:induction false} SharedMarkIsForEver(s: State, second: bool, steps: seq<Step>, s': State)
    requires Inv(s) && HeadAlone(s) && s.queue[0].path2.Some?
    requires Token(s.queue[0].req, second) in s.core.holds && Token(s.queue[0].req, !second) !in s.core.holds
    requires SharedMark(s.core, s.core.holds[Token(s.queue[0].req, second)], Missing(s.queue[0], second))
    requires RunWithMemory(s, second, steps, s')
    ensures s'.queue != [] && s'.queue[0] == s.queue[0]
    ensures Token(s.queue[0].req, second) in s'.core.holds && Token(s.queue[0].req, !second) !in s'.core.holds
  {
    var held, missing := Token(s.queue[0].req, second), Token(s.queue[0].req, !second);
    var h, p := s.core.holds[held], Missing(s.queue[0], second);
    var x :| x in UpChain(s.core.tree.links, p.nodeid) && x in h.chain && Word(s.core.locks, x) < TREELOCK_WRITE;
    forall t | t in s.core.holds ensures t == held {
      assert t == held || t == missing;
    }
    RunStaysStuck(s, second, x, steps, s');
  }

  // ----- a lock that is lost

  /** A path lock that belongs to no granted request and to no waiter. */
  ghost predicate Lost(s: State, t: Token) {
    t in s.core.holds && t.req !in s.granted && !Queued(s.queue, t.req)
  }

  lemma {:induction false} FreeKeepsLost(s: State, req: nat, wake: Memory, t: Token, s': State)
    requires Inv(s) && Lost(s, t) && req in s.granted
    requires s' == WakeFrom(State(ReleaseBoth(s.core, req), s.queue, s.granted - {req}), 0, wake)
    ensures Lost(s', t) && s'.core.holds[t] == s.core.holds[t]
  {
    hide Valid, WakeFrom, ReleaseBoth;
    var s1 := State(ReleaseBoth(s.core, req), s.queue, s.granted - {req});
    ReleaseBothKeeps(s.core, req, s1.core);
    FreeKeepsInvBeforeWake(s, req, s1);
    WakeKeepsInv(s1, 0, wake, s');
    forall j | 0 <= j < |s.queue| ensures s.queue[j].req != t.req && s'.queue[j].req != t.req {
      assert SameWaiter(s.queue[j], s'.queue[j]);
    }
  }

  lemma {:induction false} GetKeepsLost(s: State, step: Step, t: Token, s': State)
    requires Inv(s) && Lost(s, t) && Enabled(s, step) && s' == Apply(s, step) && (step.GetPath? || step.GetPath2?)
    ensures Lost(s', t) && s'.core.holds[t] == s.core.holds[t]
  {
    hide Valid, Try, TryGet2;
    match step {
      case GetPath(req, p, mem) =>
        var (core, err) := Try(s.core, Token(req, false), p, mem);
        TryKeeps(s.core, Token(req, false), p, mem, core, err);
        QueuedAfterAnswer(s, core, err, Paths(req, p, None, Waiting), t.req);
      case GetPath2(req, p1, p2, mem1, mem2) =>
        var (core, err) := TryGet2(s.core, req, p1, p2, mem1, mem2);
        TryGet2Keeps(s.core, req, p1, p2, mem1, mem2, core, err);
        QueuedAfterAnswer(s, core, err, Paths(req, p1, Some(p2), Waiting), t.req);
    }
    assert t == Token(step.req, false) || t == Token(step.req, true) || t.req != step.req;
  }

  lemma QueuedAfterAnswer(s: State, core: Core, err: Option<Err>, w: Waiter, r: nat)
    ensures Queued(Answer(s, core, err, w).queue, r) ==> Queued(s.queue, r) || r == w.req
    ensures r in Answer(s, core, err, w).granted ==> r in s.granted || r == w.req
  {
    var q := Answer(s, core, err, w).queue;
    if k :| 0 <= k < |q| && q[k].req == r {
      assert k < |s.queue| ==> s.queue[k].req == r;
    }
  }

  lemma {:induction false} StepKeepsLost(s: State, step: Step, t: Token, s': State)
    requires Inv(s) && Lost(s, t) && Enabled(s, step) && s' == Apply(s, step)
    ensures Lost(s', t) && s'.core.holds[t] == s.core.holds[t]
  {
    hide Valid, WakeFrom, ReleaseBoth, TryGet2, Try;
    match step {
      case GetPath(_, _, _) => GetKeepsLost(s, step, t, s');
      case GetPath2(_, _, _, _, _) => GetKeepsLost(s, step, t, s');
      case FreePath(req, wake) => FreeKeepsLost(s, req, wake, t, s');
      case Dequeue(req) => LeaveKeepsQueueOk(s.core, s.queue, Position(s.queue, req));
      case EndForget(req) => LeaveKeepsQueueOk(s.core, s.queue, Position(s.queue, req));
      case WaitForget(req, n) => assert t == Token(req, false) || t == Token(req, true) || t.req != req;
      case _ =>
    }
  }

  /** A lost lock is never released, in whatever run: no later request owns it, and no
      node on its way is ever write-locked or deleted again. */
  lemma {:induction false} LostForEver(s: State, steps: seq<Step>, s': State, t: Token)
    requires Inv(s) && Lost(s, t) && Run(s, steps, s')
    ensures Inv(s') && Lost(s', t) && s'.core.holds[t] == s.core.holds[t]
    ensures forall i :: i in s.core.holds[t].chain ==> i in s'.core.locks && s'.core.locks[i] !in {0, TREELOCK_WRITE}
    decreases |steps|
  {
    hide Lost, Enabled, Apply;
    assert t in s.core.holds by {
      LostIsHeld(s, t);
    }
    if steps == [] {
      forall i | i in s.core.holds[t].chain ensures i in s.core.locks && s.core.locks[i] !in {0, TREELOCK_WRITE} {
        WayIsAsRecorded(s.core, t);
        ReadersBound(s.core, i);
        HeldWords(s.core.locks, s.core.holds, t, i);
      }
    } else {
      hide Inv;
      StepKeepsInv(s, steps[0], Apply(s, steps[0]));
      StepKeepsLost(s, steps[0], t, Apply(s, steps[0]));
      LostForEver(Apply(s, steps[0]), steps[1..], s', t);
    }
  }

  lemma LostIsHeld(s: State, t: Token)
    requires Lost(s, t)
    ensures t in s.core.holds
  {
  }
}
