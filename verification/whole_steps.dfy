/** Locks and reference counts together: what a request does on the lock words, the
    queue and the names, and what finding and forgetting does on the counts. Deleting a
    node is no step of its own here: it is what dropping a reference leads to. */
module WholeSteps {
  import opened Wrappers
  import opened PathTree
  import opened TreeLocks
  import opened LockQueue
  import opened NodeRefs
  import opened RelinkRefs
  import LockRuns
  import LockSteps
  import RefRuns

  /** The locks, and the counts on the same tree. */
  datatype Whole = Whole(locks: State, store: Store)

  datatype WholeStep =
    /** A step of a request on the lock words, the queue or the names. */
    | Request(step: LockSteps.Step)
    /** A node is created, found, forgotten, or held and let go by LOOKUP of ".". */
    | Node(ref: RefRuns.RefStep)

  // ----- what the kernel knows

  /** The node of a path is known, and so is the child to write-lock, if it is cached. */
  ghost predicate KnownPath(s: Store, p: Path) {
    Known(s, p.nodeid) && forall i :: i in Child(s.tree, p) ==> Known(s, i)
  }

  ghost predicate KnownWaiter(s: Store, w: Waiter) {
    match w
    case Forget(_, n) => Known(s, n)
    case Paths(_, p1, p2, _) => KnownPath(s, p1) && (p2.Some? ==> KnownPath(s, p2.value))
  }

  ghost predicate KnownWaiters(s: Store, queue: seq<Waiter>) {
    forall k :: 0 <= k < |queue| ==> KnownWaiter(s, queue[k])
  }

  ghost predicate PathNeeds(t: Tree, p: Path, i: Id) {
    p.nodeid == i || i in Child(t, p)
  }

  /** A waiter that needs the kernel to know node `i`. */
  ghost predicate Needs(t: Tree, w: Waiter, i: Id) {
    match w
    case Forget(_, n) => n == i
    case Paths(_, p1, p2, _) => PathNeeds(t, p1, i) || (p2.Some? && PathNeeds(t, p2.value, i))
  }

  // ----- steps

  /** The kernel names nodes that it knows. `find_node` and `delete_node` are steps of
      the counts. */
  ghost predicate CanRequest(w: Whole, step: LockSteps.Step) {
    && LockSteps.Enabled(w.locks, step)
    && match step
       case GetPath(_, p, _) => KnownPath(w.store, p)
       case GetPath2(_, p1, p2, _, _) => KnownPath(w.store, p1) && KnownPath(w.store, p2)
       case WaitForget(_, n) => Known(w.store, n)
       case Find(_, _, _) => false
       case Delete(_) => false
       case _ => true
  }

  /** The last lookups of a node are forgotten when no request waits for it or for a
      path that names it, and when it is not locked, which `forget_node` waits for. */
  ghost predicate CanNode(w: Whole, step: RefRuns.RefStep) {
    && RefRuns.CanStep(w.store, step)
    && match step
       case Forgotten(i, k) =>
         i != ROOT && k == w.store.nlookup[i] ==>
           && Word(w.locks.core.locks, i) == 0
           && forall j :: 0 <= j < |w.locks.queue| ==> !Needs(w.store.tree, w.locks.queue[j], i)
       case Unhash(_) => false
       case Hash(_, _, _, _) => false
       case _ => true
  }

  ghost predicate CanStep(w: Whole, step: WholeStep) {
    match step
    case Request(r) => CanRequest(w, r)
    case Node(r) => CanNode(w, r)
  }

  /** What a step of a request does to the counts. */
  ghost function Counting(w: Whole, step: LockSteps.Step): Store
    requires LockSteps.Enabled(w.locks, step)
  {
    match step
    case Rename(req, a, b, oldname, newname, memory) =>
      RenameRefs(w.store, LockSteps.Dir(w.locks, req, a), oldname, LockSteps.Dir(w.locks, req, b), newname, memory)
    case Exchange(req, oldname, newname, both) =>
      ExchangeRefs(w.store, LockSteps.Dir(w.locks, req, false), oldname, LockSteps.Dir(w.locks, req, true), newname, both)
    case Remove(req, a, name) =>
      UnlinkFound(w.store, Lookup(w.store.tree, LockSteps.Dir(w.locks, req, a), name))
    case _ => w.store
  }

  /** The locks on the nodes of `t`: new nodes are not locked. */
  ghost function LocksOn(s: State, t: Tree): State {
    s.(core := Core(t, map i | i in t.links :: Word(s.core.locks, i), s.core.holds))
  }

  ghost function Stepped(w: Whole, step: WholeStep): Whole
    requires CanStep(w, step)
  {
    match step
    case Request(r) => Whole(LockSteps.Apply(w.locks, r), Counting(w, r))
    case Node(r) => var s := RefRuns.Stepped(w.store, r); Whole(LocksOn(w.locks, s.tree), s)
  }

  // ----- the invariant

  ghost predicate OnSameTree(l: State, s: Store) {
    s.tree == l.core.tree && Pinned(s, l.core.holds) && KnownWaiters(s, l.queue)
  }

  ghost predicate WholeInv(w: Whole) {
    Inv(w.locks) && Counted(w.store) && OnSameTree(w.locks, w.store)
  }

  // ----- locking keeps to known nodes

  lemma {:induction false} TryKeepsPinned(s: Core, t: Token, p: Path, mem: nat, s': Core, store: Store)
    requires Pinned(store, s.holds) && KnownPath(store, p) && store.tree == s.tree && s' == Try(s, t, p, mem).0
    ensures Pinned(store, s'.holds) && s'.tree == s.tree
  {
    var w := WriteNode(s.tree, p);
    assert w.Some? ==> w.value in Child(store.tree, p);
    hide UpChain, TryLocks;
  }

  lemma {:induction false} ReleaseKeepsPinned(s: Core, t: Token, s': Core, store: Store)
    requires Pinned(store, s.holds) && s' == Release(s, t)
    ensures Pinned(store, s'.holds) && s'.tree == s.tree
  {
  }

  lemma {:induction false} ReleaseBothKeepsPinned(s: Core, req: nat, s': Core, store: Store)
    requires Pinned(store, s.holds) && s' == ReleaseBoth(s, req)
    ensures Pinned(store, s'.holds) && s'.tree == s.tree
  {
    hide Pinned, Release;
    ReleaseKeepsPinned(s, Token(req, false), Release(s, Token(req, false)), store);
    ReleaseKeepsPinned(Release(s, Token(req, false)), Token(req, true), s', store);
  }

  lemma {:induction false} WakeupKeepsPinned(s: Core, w: Waiter, first: bool, mem: Memory, s': Core, store: Store)
    requires Pinned(store, s.holds) && KnownWaiter(store, w) && store.tree == s.tree && s' == Wakeup(s, w, first, mem).0
    ensures Pinned(store, s'.holds) && s'.tree == s.tree
  {
    hide Pinned, KnownPath, Try, ReleaseBoth;
    if w.Paths? {
      var t1, t2 := Token(w.req, false), Token(w.req, true);
      var (s1, e1) := Try(s, t1, w.path1, mem(t1));
      TryKeepsPinned(s, t1, w.path1, mem(t1), s1, store);
      ReleaseBothKeepsPinned(s1, w.req, ReleaseBoth(s1, w.req), store);
      if w.path2.Some? {
        var s2 := Try(s1, t2, w.path2.value, mem(t2)).0;
        TryKeepsPinned(s1, t2, w.path2.value, mem(t2), s2, store);
        ReleaseBothKeepsPinned(s2, w.req, ReleaseBoth(s2, w.req), store);
      }
    }
  }

  lemma {:induction false} WakeKeepsPinned(s: State, k: nat, mem: Memory, s': State, store: Store)
    requires Pinned(store, s.core.holds) && KnownWaiters(store, s.queue) && store.tree == s.core.tree
    requires k <= |s.queue| && s' == WakeFrom(s, k, mem)
    ensures Pinned(store, s'.core.holds) && KnownWaiters(store, s'.queue) && s'.core.tree == s.core.tree
    decreases |s.queue| - k
  {
    hide Pinned;
    if k < |s.queue| {
      var (core, w) := Wakeup(s.core, s.queue[k], k == 0, mem);
      WakeupKeepsPinned(s.core, s.queue[k], k == 0, mem, core, store);
      assert KnownWaiter(store, w);
      hide Wakeup, KnownWaiter;
      WakeKeepsPinned(s.(core := core, queue := s.queue[k := w]), k + 1, mem, s', store);
    }
  }

  lemma {:induction false} AnswerKeepsKnown(s: State, core: Core, err: Option<Err>, w: Waiter, s': State, store: Store)
    requires Pinned(store, core.holds) && core.tree == s.core.tree == store.tree && KnownWaiters(store, s.queue)
    requires KnownWaiter(store, w) && s' == LockSteps.Answer(s, core, err, w)
    ensures OnSameTree(s', store)
  {
    hide Pinned, KnownWaiter;
  }

  lemma {:induction false} TryGet2KeepsPinned(
      s: Core, req: nat, p1: Path, p2: Path, mem1: nat, mem2: nat, s': Core, store: Store)
    requires Pinned(store, s.holds) && KnownPath(store, p1) && KnownPath(store, p2) && store.tree == s.tree
    requires s' == LockSteps.TryGet2(s, req, p1, p2, mem1, mem2).0
    ensures Pinned(store, s'.holds) && s'.tree == s.tree
  {
    hide Pinned, KnownPath, Try, Release;
    var t1, t2 := Token(req, false), Token(req, true);
    var (s1, e1) := Try(s, t1, p1, mem1);
    TryKeepsPinned(s, t1, p1, mem1, s1, store);
    if e1 == None {
      var s2 := Try(s1, t2, p2, mem2).0;
      TryKeepsPinned(s1, t2, p2, mem2, s2, store);
      ReleaseKeepsPinned(s2, t1, Release(s2, t1), store);
    }
  }

  /** Steps that leave the tree alone. */
  lemma {:induction false} LockingKeepsKnown(w: Whole, step: LockSteps.Step, s': State)
    requires OnSameTree(w.locks, w.store) && CanRequest(w, step) && s' == LockSteps.Apply(w.locks, step)
    requires !step.Rename? && !step.Exchange? && !step.Remove?
    ensures OnSameTree(s', w.store) && Counting(w, step) == w.store
  {
    hide Pinned, Try, LockSteps.TryGet2, LockSteps.Answer, ReleaseBoth, WakeFrom, KnownPath;
    var s, store := w.locks, w.store;
    match step {
      case GetPath(req, p, mem) =>
        var (core, err) := Try(s.core, Token(req, false), p, mem);
        TryKeepsPinned(s.core, Token(req, false), p, mem, core, store);
        AnswerKeepsKnown(s, core, err, Paths(req, p, None, Waiting), s', store);
      case GetPath2(req, p1, p2, mem1, mem2) =>
        var (core, err) := LockSteps.TryGet2(s.core, req, p1, p2, mem1, mem2);
        TryGet2KeepsPinned(s.core, req, p1, p2, mem1, mem2, core, store);
        AnswerKeepsKnown(s, core, err, Paths(req, p1, Some(p2), Waiting), s', store);
      case FreePath(req, wake) =>
        var core := ReleaseBoth(s.core, req);
        var s1 := State(core, s.queue, s.granted - {req});
        ReleaseBothKeepsPinned(s.core, req, core, store);
        WakeKeepsPinned(s1, 0, wake, s', store);
      case _ =>
    }
  }

  // ----- relinking keeps to known nodes

  /** What was known still is, and names lead where they led or to known nodes. */
  ghost predicate KnowsMore(s: Store, s': Store) {
    && (forall i :: i in s.nlookup && s.nlookup[i] > 0 ==> Known(s', i))
    && forall k :: k in s'.tree.names ==>
         Known(s', s'.tree.names[k]) || (k in s.tree.names && s.tree.names[k] == s'.tree.names[k])
  }

  lemma KnownPathStays(s: Store, s': Store, p: Path)
    requires KnowsMore(s, s') && KnownPath(s, p)
    ensures KnownPath(s', p)
  {
    if p.write && (p.nodeid, p.name.value) in s'.tree.names {
      var i := s'.tree.names[(p.nodeid, p.name.value)];
      assert Known(s', i) || i in Child(s.tree, p);
    }
  }

  lemma {:induction false} KnownStays(l: State, s: Store, l': State, s': Store)
    requires OnSameTree(l, s) && l'.queue == l.queue && l'.core.holds == l.core.holds && s'.tree == l'.core.tree
    requires KnowsMore(s, s')
    ensures OnSameTree(l', s')
  {
    forall j | 0 <= j < |l.queue| ensures KnownWaiter(s', l.queue[j]) {
      var w := l.queue[j];
      assert KnownWaiter(s, w);
      if w.Paths? {
        KnownPathStays(s, s', w.path1);
        if w.path2.Some? {
          KnownPathStays(s, s', w.path2.value);
        }
      }
      hide KnownPath;
    }
  }

  /** The nodes under the names that a granted request has write-locked. */
  lemma {:induction false} LockedNames(w: Whole, t: Token, name: string)
    requires WholeInv(w) && t in w.locks.core.holds
    requires WriteLocked(w.locks.core, t, Lookup(w.store.tree, w.locks.core.holds[t].path.nodeid, name))
    ensures Known(w.store, w.locks.core.holds[t].path.nodeid)
    ensures var n := Lookup(w.store.tree, w.locks.core.holds[t].path.nodeid, name);
            n.Some? ==> Known(w.store, n.value) && n.value in w.locks.core.locks
                        && w.locks.core.locks[n.value] == TREELOCK_WRITE
  {
    hide WellFormed, References;
    var n := Lookup(w.store.tree, w.locks.core.holds[t].path.nodeid, name);
    if n.Some? {
      WriteLockedWord(w.locks.core, t, n);
    }
    hide LocksOk, LockIs;
  }

  /** The names that one of two operations on names `x` and `y` leaves. */
  ghost predicate NamesFrom(t: Tree, t': Tree, x: Option<Id>, y: Option<Id>) {
    forall k :: k in t'.names ==>
      (k in t.names && t.names[k] == t'.names[k]) || x == Some(t'.names[k]) || y == Some(t'.names[k])
  }

  lemma RenamedNames(t: Tree, olddir: Id, oldname: string, newdir: Id, newname: string, memory: bool)
    ensures NamesFrom(t, RenameNode(t, olddir, oldname, newdir, newname, memory),
                      Lookup(t, olddir, oldname), Lookup(t, newdir, newname))
  {
  }

  lemma ExchangedNames(t: Tree, olddir: Id, oldname: string, newdir: Id, newname: string, memory: (bool, bool))
    ensures NamesFrom(t, ExchangeNode(t, olddir, oldname, newdir, newname, memory),
                      Lookup(t, olddir, oldname), Lookup(t, newdir, newname))
  {
  }

  lemma {:induction false} FollowingKnows(s: Store, s': Store, t': Tree, x: Option<Id>, y: Option<Id>)
    requires Counted(s) && CountsFollow(s, s', t') && NamesFrom(s.tree, t', x, y)
    requires (x.Some? ==> Known(s, x.value)) && (y.Some? ==> Known(s, y.value))
    ensures KnowsMore(s, s')
  {
    CountedIsConsistent(s);
    CountedIsConsistent(s');
    hide Counted, WellFormed, References;
  }

  lemma {:induction false} RenameKeepsWhole(w: Whole, step: LockSteps.Step, w': Whole)
    requires WholeInv(w) && CanRequest(w, step) && step.Rename? && w' == Stepped(w, Request(step))
    ensures Counted(w'.store) && OnSameTree(w'.locks, w'.store) && w'.store.nlookup == w.store.nlookup
  {
    hide Valid, Counted, Pinned, KnownWaiters, RenameNode, RenameRefs;
    var l, s := w.locks, w.store;
    var t1, t2 := Token(step.req, step.a), Token(step.req, step.b);
    var olddir, newdir := l.core.holds[t1].path.nodeid, l.core.holds[t2].path.nodeid;
    LockedNames(w, t1, step.oldname);
    LockedNames(w, t2, step.newname);
    var n := Lookup(s.tree, olddir, step.oldname);
    if n.Some? {
      WriterIsNotAbove(l.core, n.value, t2);
    }
    RenameFollows(s, olddir, step.oldname, newdir, step.newname, step.memory, w'.store);
    RenamedNames(s.tree, olddir, step.oldname, newdir, step.newname, step.memory);
    hide NamesFrom, KnowsMore, Known, CanRequest;
    FollowingKnows(s, w'.store, w'.store.tree, n, Lookup(s.tree, newdir, step.newname));
    KnownStays(l, s, w'.locks, w'.store);
  }

  lemma {:induction false} ExchangeKeepsWhole(w: Whole, step: LockSteps.Step, w': Whole)
    requires WholeInv(w) && CanRequest(w, step) && step.Exchange? && w' == Stepped(w, Request(step))
    ensures Counted(w'.store) && OnSameTree(w'.locks, w'.store) && w'.store.nlookup == w.store.nlookup
  {
    hide Valid, Counted, Pinned, KnownWaiters, ExchangeNode, ExchangeRefs;
    var l, s := w.locks, w.store;
    var t1, t2 := Token(step.req, false), Token(step.req, true);
    var olddir, newdir := l.core.holds[t1].path.nodeid, l.core.holds[t2].path.nodeid;
    LockedNames(w, t1, step.oldname);
    LockedNames(w, t2, step.newname);
    var a, b := Lookup(s.tree, olddir, step.oldname), Lookup(s.tree, newdir, step.newname);
    forall x | x in {a, b} && x.Some? ensures Away(s.tree, x, olddir, newdir) {
      WriterIsNotAbove(l.core, x.value, t1);
      WriterIsNotAbove(l.core, x.value, t2);
    }
    if a.Some? && a == b {
      TwoWriters(l.core, t1, t2, a.value);
    }
    ExchangeFollows(s, olddir, step.oldname, newdir, step.newname, step.both, w'.store);
    ExchangedNames(s.tree, olddir, step.oldname, newdir, step.newname, step.both);
    hide NamesFrom, KnowsMore, Known, CanRequest;
    FollowingKnows(s, w'.store, w'.store.tree, a, b);
    KnownStays(l, s, w'.locks, w'.store);
  }

  lemma {:induction false} RemoveKeepsWhole(w: Whole, step: LockSteps.Step, w': Whole)
    requires WholeInv(w) && CanRequest(w, step) && step.Remove? && w' == Stepped(w, Request(step))
    ensures Counted(w'.store) && OnSameTree(w'.locks, w'.store) && w'.store.nlookup == w.store.nlookup
  {
    hide Valid, Counted, Pinned, KnownWaiters, Unlink;
    var l, s := w.locks, w.store;
    var t := Token(step.req, step.a);
    LockedNames(w, t, step.name);
    RemoveFollows(s, l.core.holds[t].path.nodeid, step.name, w'.store);
    FollowingKnows(s, w'.store, w'.store.tree, None, None);
    KnownStays(l, s, w'.locks, w'.store);
  }

  // ----- letting go of nodes

  /** Nobody locks or awaits a node that is unknown and has no children. */
  lemma {:induction false} UnknownIsUnlocked(l: State, s: Store, n: Id)
    requires Inv(l) && OnSameTree(l, s) && n in s.tree.links && n != ROOT && Childless(s.tree.links, n)
    requires !Known(s, n) && s.nlookup.Keys == s.tree.links.Keys
    ensures n in l.core.locks && l.core.locks[n] == 0 && !LockSteps.Awaited(l.queue, n)
  {
    assert !LockSteps.Awaited(l.queue, n) by {
      hide Inv, Pinned;
      forall j | 0 <= j < |l.queue| ensures KnownWaiter(s, l.queue[j]) {
      }
    }
    hide KnownWaiters, LockSteps.Awaited;
    WordsCountHolds(l.core, n);
    forall t | t in l.core.holds ensures n !in l.core.holds[t].chain && l.core.holds[t].wnode != Some(n) {
      var h := l.core.holds[t];
      WayIsAsRecorded(l.core, t);
      ChildlessIsOffWay(s.tree.links, h.path.nodeid, h.chain, n);
    }
    UnheldIsUncounted(l.core.holds, n);
    hide Inv, Pinned, NumReaders, NumWriters;
  }

  lemma FreeKnowsMore(s: Store, n: Id, s1: Store)
    requires Consistent(s) && n in s.tree.links && s.nlookup[n] == 0 && s1 == Free(s, n)
    ensures KnowsMore(s, s1)
  {
    hide WellFormed;
  }

  lemma LocksWithout(l: State, n: Id, l1: State)
    requires Inv(l) && n in l.core.tree.links && l1 == LocksOn(l, DropNode(l.core.tree, n))
    ensures l1 == l.(core := Core(DropNode(l.core.tree, n), l.core.locks - {n}, l.core.holds))
  {
    hide WellFormed, LocksOk, QueueOk, GrantedOk;
  }

  lemma {:induction false} DeleteIsEnabled(l: State, s: Store, n: Id)
    requires Inv(l) && OnSameTree(l, s) && CountedBut(s, n) && s.refctr[n] == 1
    ensures LockSteps.Enabled(l, LockSteps.Delete(n)) && Word(l.core.locks, n) == 0
    ensures KnowsMore(s, Free(s, n))
  {
    hide WellFormed, References, Inv, Childless, Pinned, KnownWaiters, Free, KnowsMore;
    FreeKeeps(s, n, Free(s, n));
    UnknownIsUnlocked(l, s, n);
    FreeKnowsMore(s, n, Free(s, n));
  }

  /** One `delete_node`: the lock machine allows it. */
  lemma {:induction false} FreeIsDelete(l: State, s: Store, n: Id, l1: State, s1: Store)
    requires Inv(l) && OnSameTree(l, s) && CountedBut(s, n) && s.refctr[n] == 1
    requires s1 == Free(s, n) && l1 == LocksOn(l, s1.tree)
    ensures LockSteps.Enabled(l, LockSteps.Delete(n)) && LockSteps.Apply(l, LockSteps.Delete(n)) == l1
    ensures Inv(l1) && OnSameTree(l1, s1) && Word(l.core.locks, n) == 0
  {
    hide References, Consistent, Inv, KnowsMore, Pinned, KnownWaiters, Childless, LockSteps.Awaited, Word, DropNode, LocksOn;
    DeleteIsEnabled(l, s, n);
    LocksWithout(l, n, l1);
    KnownStays(l, s, l1, s1);
    LockSteps.StepKeepsInv(l, LockSteps.Delete(n), l1);
  }

  lemma LocksOnSame(l: State)
    requires Inv(l)
    ensures LocksOn(l, l.core.tree) == l
  {
    hide WellFormed, LocksOk, QueueOk, GrantedOk;
  }

  lemma LocksOnLess(l: State, t1: Tree, t2: Tree)
    requires t2.links.Keys <= t1.links.Keys <= l.core.locks.Keys
    ensures LocksOn(LocksOn(l, t1), t2) == LocksOn(l, t2)
  {
  }

  lemma CascadeCases(s: Store, way: seq<Id>)
    requires way != [] && IsWay(s.tree.links, way) && CountedBut(s, way[0])
    ensures var n := way[0];
            n in s.refctr && if s.refctr[n] == 1 then Unref(s, way) == Unref(Free(s, n), way[1..])
                             else Unref(s, way).tree == s.tree && Unref(s, way).nlookup == s.nlookup
    ensures Unref(Free(s, way[0]), []) == Free(s, way[0])
  {
    hide IsWay, WellFormed, NumChildren;
  }

  /** No node that goes is locked. */
  ghost predicate OnlyUnlockedGo(l: State, s: Store, s': Store) {
    forall i :: i in s.tree.links && i !in s'.tree.links ==> Word(l.core.locks, i) == 0
  }

  lemma {:induction false} CascadeGoesOn(l: State, s: Store, n: Id, way: seq<Id>)
    requires Inv(l) && s.tree == l.core.tree && n in s.tree.links && Word(l.core.locks, n) == 0
    ensures var s1 := Free(s, n);
            var l1, s' := LocksOn(l, s1.tree), Unref(s1, way);
            && LocksOn(l1, s'.tree) == LocksOn(l, s'.tree)
            && (way == [] || OnlyUnlockedGo(l1, s1, s') ==> OnlyUnlockedGo(l, s, s'))
  {
    var s1 := Free(s, n);
    UnrefOnlyFrees(s1, way);
    assert way == [] ==> Unref(s1, way) == s1;
    hide Unref, WellFormed, QueueOk, GrantedOk, LocksOk;
    LocksOnLess(l, s1.tree, Unref(s1, way).tree);
  }

  lemma RecountStays(l: State, s: Store, s': Store)
    requires OnSameTree(l, s) && s'.tree == s.tree && s'.nlookup == s.nlookup
    ensures OnSameTree(l, s') && OnlyUnlockedGo(l, s, s')
  {
    forall j | 0 <= j < |l.queue| ensures KnownWaiter(s', l.queue[j]) {
      assert KnownWaiter(s, l.queue[j]);
    }
  }

  lemma RunsFrom(l: State, step: LockSteps.Step, l1: State, more: seq<LockSteps.Step>, l': State)
    requires LockSteps.Enabled(l, step) && LockSteps.Apply(l, step) == l1 && LockRuns.Run(l1, more, l')
    ensures LockRuns.Run(l, [step] + more, l')
  {
    hide LockSteps.Enabled, LockSteps.Apply;
    assert ([step] + more)[1..] == more;
  }

  lemma StandsStill(l: State)
    ensures LockRuns.Run(l, [], l)
  {
  }

  /** Letting go of one reference is a run of the lock machine in which only nodes
      are deleted that are unlocked and awaited by nobody. */
  lemma {:induction false} CascadeIsDeletes(l: State, s: Store, way: seq<Id>, l': State, s': Store)
    returns (deletes: seq<LockSteps.Step>)
    requires Inv(l) && OnSameTree(l, s) && way != [] && IsWay(s.tree.links, way) && CountedBut(s, way[0])
    requires s' == Unref(s, way) && l' == LocksOn(l, s'.tree)
    ensures LockRuns.Run(l, deletes, l') && OnSameTree(l', s') && OnlyUnlockedGo(l, s, s')
    decreases |way|
  {
    assert s.tree == l.core.tree;
    hide WellFormed, References, LockSteps.Enabled, LockSteps.Apply, LockRuns.Run;
    hide Inv, OnSameTree, OnlyUnlockedGo, IsWay, LocksOn, Unref;
    CascadeCases(s, way);
    var n := way[0];
    if s.refctr[n] == 1 {
      var s1 := Free(s, n);
      var l1 := LocksOn(l, s1.tree);
      FreeKeeps(s, n, s1);
      FreeIsDelete(l, s, n, l1, s1);
      WayEnds(s.tree, way);
      CascadeGoesOn(l, s, n, way[1..]);
      if |way| > 1 {
        WayGoesOn(s.tree, way);
        deletes := CascadeIsDeletes(l1, s1, way[1..], l', s');
      } else {
        StandsStill(l1);
        deletes := [];
      }
      RunsFrom(l, LockSteps.Delete(n), l1, deletes, l');
      deletes := [LockSteps.Delete(n)] + deletes;
    } else {
      LocksOnSame(l);
      StandsStill(l);
      RecountStays(l, s, s');
      deletes := [];
    }
  }

  /** An unlocked node is named by no lock. */
  lemma {:induction false} UnlockedIsUnnamed(s: Core, i: Id, t: Token)
    requires Valid(s) && i in s.tree.links && i != ROOT && Word(s.locks, i) == 0 && t in s.holds
    ensures s.holds[t].path.nodeid != i && s.holds[t].wnode != Some(i)
  {
    var h := s.holds[t];
    WayIsAsRecorded(s, t);
    ReadersBound(s, i);
    HeldWords(s.locks, s.holds, t, i);
    assert h.chain != [] ==> h.chain[0] in h.chain;
    hide LocksOk, WellFormed, NumReaders;
  }

  lemma KnownPathWithout(s: Store, i: Id, s1: Store, p: Path)
    requires KnownPath(s, p) && !PathNeeds(s.tree, p, i) && i in s.nlookup && s1 == s.(nlookup := s.nlookup[i := 0])
    ensures KnownPath(s1, p)
  {
  }

  lemma WaiterWithout(s: Store, i: Id, s1: Store, w: Waiter)
    requires KnownWaiter(s, w) && !Needs(s.tree, w, i) && i in s.nlookup && s1 == s.(nlookup := s.nlookup[i := 0])
    ensures KnownWaiter(s1, w)
  {
    hide KnownPath, PathNeeds;
    if w.Paths? {
      KnownPathWithout(s, i, s1, w.path1);
      if w.path2.Some? {
        KnownPathWithout(s, i, s1, w.path2.value);
      }
    }
  }

  lemma {:induction false} WaitersWithout(s: Store, i: Id, s1: Store, queue: seq<Waiter>)
    requires KnownWaiters(s, queue) && forall j :: 0 <= j < |queue| ==> !Needs(s.tree, queue[j], i)
    requires i in s.nlookup && s1 == s.(nlookup := s.nlookup[i := 0])
    ensures KnownWaiters(s1, queue)
  {
    hide KnownWaiter, Needs;
    forall j | 0 <= j < |queue| ensures KnownWaiter(s1, queue[j]) {
      WaiterWithout(s, i, s1, queue[j]);
    }
  }

  lemma {:induction false} PinnedWithout(core: Core, s: Store, i: Id, s1: Store)
    requires Valid(core) && Pinned(s, core.holds) && i in core.tree.links && i != ROOT && Word(core.locks, i) == 0
    requires i in s.nlookup && s1 == s.(nlookup := s.nlookup[i := 0])
    ensures Pinned(s1, core.holds)
  {
    hide Valid, Word;
    forall t | t in core.holds ensures core.holds[t].path.nodeid != i && core.holds[t].wnode != Some(i) {
      UnlockedIsUnnamed(core, i, t);
    }
  }

  /** The last lookups of a node go that nobody locks or waits for. */
  lemma {:induction false} UnneededGoes(l: State, s: Store, i: Id, s1: Store)
    requires Inv(l) && OnSameTree(l, s) && i in s.tree.links && i != ROOT && i in s.nlookup && Word(l.core.locks, i) == 0
    requires forall j :: 0 <= j < |l.queue| ==> !Needs(s.tree, l.queue[j], i)
    requires s1 == s.(nlookup := s.nlookup[i := 0])
    ensures OnSameTree(l, s1)
  {
    hide Valid, QueueOk, GrantedOk, Pinned, KnownWaiters, Needs, Word;
    WaitersWithout(s, i, s1, l.queue);
    PinnedWithout(l.core, s, i, s1);
  }

  /** Some lookups remain. */
  lemma {:induction false} FewerLookups(l: State, s: Store, i: Id, k: nat, s1: Store)
    requires Counted(s) && OnSameTree(l, s) && i in s.nlookup && k < s.nlookup[i]
    requires s1 == s.(nlookup := s.nlookup[i := s.nlookup[i] - k])
    ensures OnSameTree(l, s1) && OnlyUnlockedGo(l, s, s1)
  {
    assert KnowsMore(s, s1) by {
      hide WellFormed, References, OnSameTree;
    }
    hide KnowsMore, Counted;
    KnownStays(l, s, l, s1);
  }

  lemma ForgetCases(s: Store, i: Id, k: nat)
    requires i in s.nlookup && k <= s.nlookup[i]
    ensures var s1 := s.(nlookup := s.nlookup[i := s.nlookup[i] - k]);
            NodeRefs.Forget(s, i, k) == if i == ROOT then s
                               else if s1.nlookup[i] == 0 then Unref(s1, WayFrom(s1.tree.links, i)) else s1
  {
    hide Unref, WayFrom;
  }

  lemma {:induction false} ForgottenIsRun(w: Whole, i: Id, k: nat, w': Whole) returns (steps: seq<LockSteps.Step>)
    requires WholeInv(w) && CanNode(w, RefRuns.Forgotten(i, k)) && w' == Stepped(w, Node(RefRuns.Forgotten(i, k)))
    ensures LockRuns.Run(w.locks, steps, w'.locks) && OnSameTree(w'.locks, w'.store)
    ensures OnlyUnlockedGo(w.locks, w.store, w'.store)
  {
    var l, s := w.locks, w.store;
    var s1 := s.(nlookup := s.nlookup[i := s.nlookup[i] - k]);
    ForgetCases(s, i, k);
    assert s.tree == l.core.tree;
    hide Inv, OnSameTree, Counted, CountedBut, LocksOn, IsWay, OnlyUnlockedGo, Unref, WayFrom, NodeRefs.Forget, LockRuns.Run;
    LocksOnSame(l);
    if i == ROOT {
      StandsStill(l);
      RecountStays(l, s, s);
      steps := [];
    } else if s1.nlookup[i] == 0 {
      UnneededGoes(l, s, i, s1);
      ForgetByUnref(s, i, k);
      steps := CascadeIsDeletes(l, s1, WayFrom(s1.tree.links, i), w'.locks, w'.store);
      SameTreeGoes(l, s, s1, w'.store);
    } else {
      StandsStill(l);
      FewerLookups(l, s, i, k, s1);
      steps := [];
    }
  }

  lemma SameTreeGoes(l: State, s: Store, s1: Store, s': Store)
    requires s1.tree == s.tree && OnlyUnlockedGo(l, s1, s')
    ensures OnlyUnlockedGo(l, s, s')
  {
  }

  lemma {:induction false} DotEndSteps(w: Whole, i: Id, w': Whole, s1: Store)
    requires WholeInv(w) && CanNode(w, RefRuns.DotEnds(i)) && w' == Stepped(w, Node(RefRuns.DotEnds(i)))
    requires s1 == w.store.(dots := w.store.dots - multiset{i})
    ensures Inv(w.locks) && OnSameTree(w.locks, s1) && i in w.store.dots && Counted(w.store)
    ensures w'.store == Unref(s1, WayFrom(s1.tree.links, i)) && w'.locks == LocksOn(w.locks, w'.store.tree)
  {
    hide Inv, Counted, LocksOn, Unref, WayFrom, Pinned, KnownWaiters;
    RecountStays(w.locks, w.store, s1);
  }

  lemma {:induction false} DotEndIsRun(w: Whole, i: Id, w': Whole) returns (steps: seq<LockSteps.Step>)
    requires WholeInv(w) && CanNode(w, RefRuns.DotEnds(i)) && w' == Stepped(w, Node(RefRuns.DotEnds(i)))
    ensures LockRuns.Run(w.locks, steps, w'.locks) && OnSameTree(w'.locks, w'.store)
    ensures OnlyUnlockedGo(w.locks, w.store, w'.store)
  {
    var l, s := w.locks, w.store;
    var s1 := s.(dots := s.dots - multiset{i});
    hide *;
    DotEndSteps(w, i, w', s1);
    DotEndByUnref(s, i);
    steps := CascadeIsDeletes(l, s1, WayFrom(s1.tree.links, i), w'.locks, w'.store);
    SameTreeGoes(l, s, s1, w'.store);
  }

  lemma CreateKnowsMore(l: State, s: Store, i: Id, parent: Id, name: string)
    requires Counted(s) && i !in s.tree.links && parent in s.refctr
    ensures var s' := NodeRefs.Create(s, i, parent, name); KnowsMore(s, s') && OnlyUnlockedGo(l, s, s')
  {
    hide WellFormed, References;
  }

  lemma LocksOnAdded(l: State, i: Id, parent: Id, name: string)
    requires Inv(l) && i !in l.core.tree.links
    ensures var t := AddLinked(l.core.tree, i, parent, name);
            LocksOn(l, t) == l.(core := Core(t, l.core.locks[i := 0], l.core.holds))
  {
    hide WellFormed, LocksOk, QueueOk, GrantedOk;
  }

  lemma {:induction false} CreateIsRun(w: Whole, i: Id, parent: Id, name: string, w': Whole)
    returns (steps: seq<LockSteps.Step>)
    requires WholeInv(w) && CanNode(w, RefRuns.Create(i, parent, name))
    requires w' == Stepped(w, Node(RefRuns.Create(i, parent, name)))
    ensures LockRuns.Run(w.locks, steps, w'.locks) && OnSameTree(w'.locks, w'.store)
    ensures OnlyUnlockedGo(w.locks, w.store, w'.store)
  {
    var l, s := w.locks, w.store;
    var step := LockSteps.Find(i, parent, name);
    hide Inv, Counted, LocksOn, AddLinked, KnowsMore, OnlyUnlockedGo, Pinned, KnownWaiters, LockRuns.Run;
    CreateKnowsMore(l, s, i, parent, name);
    LocksOnAdded(l, i, parent, name);
    KnownStays(l, s, w'.locks, w'.store);
    hide OnSameTree;
    StandsStill(w'.locks);
    RunsFrom(l, step, w'.locks, [], w'.locks);
    steps := [step] + [];
  }

  lemma FoundKnowsMore(s: Store, i: Id)
    requires Counted(s) && i in s.nlookup && i in s.refctr
    ensures KnowsMore(s, IncLookup(s, i))
  {
    hide WellFormed, References;
  }

  lemma {:induction false} FoundStays(w: Whole, i: Id, w': Whole)
    requires WholeInv(w) && CanNode(w, RefRuns.Found(i)) && w' == Stepped(w, Node(RefRuns.Found(i)))
    ensures w'.locks == w.locks && OnSameTree(w'.locks, w'.store) && OnlyUnlockedGo(w.locks, w.store, w'.store)
  {
    hide Inv, Counted, KnowsMore, LocksOn, Pinned, KnownWaiters;
    LocksOnSame(w.locks);
    FoundKnowsMore(w.store, i);
    KnownStays(w.locks, w.store, w'.locks, w'.store);
  }

  lemma {:induction false} NodeStepIsRun(w: Whole, step: RefRuns.RefStep, w': Whole) returns (steps: seq<LockSteps.Step>)
    requires WholeInv(w) && CanNode(w, step) && w' == Stepped(w, Node(step))
    ensures LockRuns.Run(w.locks, steps, w'.locks) && OnSameTree(w'.locks, w'.store)
    ensures OnlyUnlockedGo(w.locks, w.store, w'.store)
  {
    hide LockRuns.Run, OnlyUnlockedGo;
    StandsStill(w.locks);
    steps := [];
    match step {
      case Create(i, parent, name) => steps := CreateIsRun(w, i, parent, name, w');
      case Found(i) => FoundStays(w, i, w');
      case Forgotten(i, k) => steps := ForgottenIsRun(w, i, k, w');
      case DotBegins(i) =>
        LocksOnSame(w.locks);
        RecountStays(w.locks, w.store, w'.store);
      case DotEnds(i) => steps := DotEndIsRun(w, i, w');
    }
  }
}
