/** Requests that could not lock their paths at once wait in a first-in first-out
    queue. Every unlock offers the locks to all waiters in order, and only the
    head of the queue may keep one of its two paths while it waits for the other. */
module LockQueue {
  import opened Wrappers
  import opened PathTree
  import opened TreeLocks

  datatype Status = Waiting | Done(err: Option<Err>)

  /** `struct lock_queue_element`. A `Forget` waits for a node to be unlocked and
      locks nothing; the bits `first_locked` and `second_locked` are the presence
      of the request's tokens among the holds. */
  datatype Waiter =
    | Forget(req: nat, nodeid: Id)
    | Paths(req: nat, path1: Path, path2: Option<Path>, status: Status)

  /** `granted` are the requests that were given their paths and have not yet
      freed them. */
  datatype State = State(core: Core, queue: seq<Waiter>, granted: set<nat>)

  /** How many name copies would succeed in the attempt on each path. */
  type Memory = Token -> nat

  // ----- one waiter

  ghost predicate HoldsNothing(s: Core, req: nat) {
    Token(req, false) !in s.holds && Token(req, true) !in s.holds
  }

  /** All paths of the waiter are locked. */
  ghost predicate Full(s: Core, w: Waiter) {
    w.Paths? && Token(w.req, false) in s.holds && (w.path2.Some? ==> Token(w.req, true) in s.holds)
  }

  ghost predicate Nodes(s: Core, w: Waiter) {
    match w
    case Forget(_, n) => n in s.tree.links
    case Paths(_, p1, p2, _) => p1.nodeid in s.tree.links && (p2.Some? ==> p2.value.nodeid in s.tree.links)
  }

  /** Unlocks path `t` if it is locked. */
  ghost function Release(s: Core, t: Token): Core {
    if t in s.holds then Unlock(s, t) else s
  }

  /** `queue_element_unlock`; also the unlocking in `free_path2`. */
  ghost function ReleaseBoth(s: Core, req: nat): Core {
    Release(Release(s, Token(req, false)), Token(req, true))
  }

  /** Tries to lock path `t`, unless it is locked already. */
  ghost function Try(s: Core, t: Token, p: Path, mem: nat): (Core, Option<Err>) {
    if t in s.holds then (s, None)
    else
      var (s', r) := TryGet(s, t, p, mem);
      (s', if r.Granted? then None else Some(r.err))
  }

  predicate Fatal(e: Option<Err>) {
    e.Some? && e.value != Again
  }

  /** `queue_element_wakeup`; `first` says that the waiter heads the queue. A
      waiter that is done already is not spared. */
  ghost function Wakeup(s: Core, w: Waiter, first: bool, mem: Memory): (Core, Waiter) {
    match w
    case Forget(_, _) => (s, w)
    case Paths(req, p1, p2, _) =>
      var t1, t2 := Token(req, false), Token(req, true);
      var (s1, e1) := Try(s, t1, p1, mem(t1));
      if Fatal(e1) then (ReleaseBoth(s1, req), w.(status := Done(e1)))
      else
        var (s2, e2) := if p2.Some? then Try(s1, t2, p2.value, mem(t2)) else (s1, None);
        if Fatal(e2) then (ReleaseBoth(s2, req), w.(status := Done(e2)))
        else if e1 == None && e2 == None then (s2, w.(status := Done(None)))
        else if !first then (ReleaseBoth(s2, req), w)
        else (s2, w)
  }

  // ----- what one step leaves alone

  /** `s'` differs from `s` by locking and unlocking paths of request `req` only. */
  ghost predicate OnlyOwn(s: Core, s': Core, req: nat) {
    && Valid(s') && s'.tree == s.tree
    && forall t: Token :: t.req != req ==> (t in s'.holds <==> t in s.holds) && (t in s.holds ==> s'.holds[t] == s.holds[t])
  }

  lemma {:induction false} ReleaseKeeps(s: Core, t: Token, s': Core)
    requires Valid(s) && s' == Release(s, t)
    ensures OnlyOwn(s, s', t.req) && s'.holds == s.holds - {t}
  {
    hide Valid, Unlock;
    if t in s.holds {
      UnlockKeepsValid(s, t, s');
    }
  }

  lemma {:induction false} ReleaseBothKeeps(s: Core, req: nat, s': Core)
    requires Valid(s) && s' == ReleaseBoth(s, req)
    ensures OnlyOwn(s, s', req) && HoldsNothing(s', req)
  {
    hide Valid, Release;
    var s1 := Release(s, Token(req, false));
    ReleaseKeeps(s, Token(req, false), s1);
    ReleaseKeeps(s1, Token(req, true), s');
  }

  lemma {:induction false} TryKeeps(s: Core, t: Token, p: Path, mem: nat, s': Core, e: Option<Err>)
    requires Valid(s) && p.nodeid in s.tree.links && t.req < MAX_REQUESTS
    requires (s', e) == Try(s, t, p, mem)
    ensures OnlyOwn(s, s', t.req) && (e == None <==> t in s'.holds) && (t in s.holds ==> t in s'.holds)
    ensures forall x :: x != t ==> (x in s'.holds <==> x in s.holds)
  {
    if t !in s.holds {
      TryGetKeepsValid(s, t, p, mem, s');
    }
  }

  /** What `queue_element_wakeup` promises for a waiter on paths. */
  ghost predicate WakeupResult(s: Core, w: Waiter, first: bool, s': Core, w': Waiter) {
    && w.Paths? && w'.Paths? && w' == w.(status := w'.status)
    && (w.path2 == None ==> Token(w.req, true) !in s'.holds)
    && (Full(s', w) ==> w'.status == Done(None))
    && (w'.status == Done(None) && w.status != Done(None) ==> Full(s', w))
    && (!Full(s', w) && !first ==> HoldsNothing(s', w.req))
    && (!Full(s', w) && w'.status != w.status ==> HoldsNothing(s', w.req))
    && (Full(s, w) ==> Full(s', w))
  }

  lemma {:induction false} WakeupKeeps(s: Core, w: Waiter, first: bool, mem: Memory, s': Core, w': Waiter)
    requires Valid(s) && Nodes(s, w) && w.req < MAX_REQUESTS && w.Paths?
    requires w.path2 == None ==> Token(w.req, true) !in s.holds
    requires (s', w') == Wakeup(s, w, first, mem)
    ensures OnlyOwn(s, s', w.req) && WakeupResult(s, w, first, s', w')
  {
    hide Valid, Try, ReleaseBoth;
    var t1, t2 := Token(w.req, false), Token(w.req, true);
    var (s1, e1) := Try(s, t1, w.path1, mem(t1));
    TryKeeps(s, t1, w.path1, mem(t1), s1, e1);
    if Fatal(e1) {
      ReleaseBothKeeps(s1, w.req, s');
    } else {
      var (s2, e2) := if w.path2.Some? then Try(s1, t2, w.path2.value, mem(t2)) else (s1, None);
      if w.path2.Some? {
        TryKeeps(s1, t2, w.path2.value, mem(t2), s2, e2);
      }
      if Fatal(e2) || !((e1 == None && e2 == None) || first) {
        ReleaseBothKeeps(s2, w.req, s');
      }
    }
  }

  // ----- the queue

  ghost predicate WaiterOk(s: Core, w: Waiter, first: bool) {
    && w.req < MAX_REQUESTS && Nodes(s, w)
    && (w.Forget? ==> HoldsNothing(s, w.req))
    && (w.Paths? ==>
          && (w.path2 == None ==> Token(w.req, true) !in s.holds)
          && (w.status == Done(None) <==> Full(s, w))
          && (!Full(s, w) && !first ==> HoldsNothing(s, w.req)))
  }

  /** Only the head of the queue may be partly locked; a waiter is done without
      an error exactly when all its paths are locked. */
  ghost predicate QueueOk(s: Core, queue: seq<Waiter>) {
    && (forall j, k :: 0 <= j < k < |queue| ==> queue[j].req != queue[k].req)
    && forall k :: 0 <= k < |queue| ==> WaiterOk(s, queue[k], k == 0)
  }

  ghost predicate Queued(queue: seq<Waiter>, req: nat) {
    exists k :: 0 <= k < |queue| && queue[k].req == req
  }

  /** A granted request holds its first path, and is not in the queue. */
  ghost predicate GrantedOk(s: State) {
    forall r :: r in s.granted ==> Token(r, false) in s.core.holds && !Queued(s.queue, r)
  }

  ghost predicate Inv(s: State) {
    Valid(s.core) && QueueOk(s.core, s.queue) && GrantedOk(s)
  }

  /** The loop of `wake_up_queued`, from waiter `k` on. */
  ghost function WakeFrom(s: State, k: nat, mem: Memory): State
    decreases |s.queue| - k
  {
    if k >= |s.queue| then s
    else
      var (core, w) := Wakeup(s.core, s.queue[k], k == 0, mem);
      WakeFrom(s.(core := core, queue := s.queue[k := w]), k + 1, mem)
  }

  /** A waiter keeps its place, its request and its paths. */
  ghost predicate SameWaiter(w: Waiter, w': Waiter) {
    w' == w || (w.Paths? && w'.Paths? && w' == w.(status := w'.status))
  }

  lemma {:induction false} WaiterOkForOthers(s: Core, s': Core, w: Waiter, first: bool, req: nat)
    requires WaiterOk(s, w, first) && OnlyOwn(s, s', req) && w.req != req
    ensures WaiterOk(s', w, first)
  {
    assert Token(w.req, false).req != req && Token(w.req, true).req != req;
  }

  lemma {:induction false} WakeupKeepsWaiter(s: Core, w: Waiter, first: bool, mem: Memory, s': Core, w': Waiter)
    requires Valid(s) && WaiterOk(s, w, first) && (s', w') == Wakeup(s, w, first, mem)
    ensures OnlyOwn(s, s', w.req) && WaiterOk(s', w', first) && SameWaiter(w, w')
  {
    if w.Paths? {
      WakeupKeeps(s, w, first, mem, s', w');
    }
  }

  lemma {:induction false} WakeStepKeepsInv(s: State, k: nat, mem: Memory, s': State)
    requires Inv(s) && k < |s.queue|
    requires var (core, w) := Wakeup(s.core, s.queue[k], k == 0, mem);
             s' == s.(core := core, queue := s.queue[k := w])
    ensures Inv(s') && OnlyOwn(s.core, s'.core, s.queue[k].req) && SameWaiter(s.queue[k], s'.queue[k])
  {
    hide Valid, Wakeup;
    WakeupKeepsWaiter(s.core, s.queue[k], k == 0, mem, s'.core, s'.queue[k]);
    forall j | 0 <= j < |s'.queue| && j != k ensures WaiterOk(s'.core, s'.queue[j], j == 0) {
      WaiterOkForOthers(s.core, s'.core, s.queue[j], j == 0, s.queue[k].req);
    }
    forall r | r in s.granted ensures Token(r, false) in s'.core.holds && !Queued(s'.queue, r) {
      assert s.queue[k].req != r && Token(r, false).req == r;
    }
  }

  /** Waking all waiters keeps the invariant, and locks or unlocks nothing of a
      request that is not waiting. */
  lemma {:induction false} WakeKeepsInv(s: State, k: nat, mem: Memory, s': State)
    requires Inv(s) && k <= |s.queue| && s' == WakeFrom(s, k, mem)
    ensures Inv(s') && s'.core.tree == s.core.tree && |s'.queue| == |s.queue| && s'.granted == s.granted
    ensures forall j :: 0 <= j < k ==> s'.queue[j] == s.queue[j]
    ensures forall j :: 0 <= j < |s.queue| ==> SameWaiter(s.queue[j], s'.queue[j])
    ensures forall t: Token :: (forall j :: k <= j < |s.queue| ==> s.queue[j].req != t.req) ==>
              && (t in s'.core.holds <==> t in s.core.holds)
              && (t in s.core.holds ==> s'.core.holds[t] == s.core.holds[t])
    decreases |s.queue| - k
  {
    hide Valid, Wakeup;
    if k < |s.queue| {
      var (core, w) := Wakeup(s.core, s.queue[k], k == 0, mem);
      var s1 := s.(core := core, queue := s.queue[k := w]);
      WakeStepKeepsInv(s, k, mem, s1);
      WakeKeepsInv(s1, k + 1, mem, s');
    }
  }
}
