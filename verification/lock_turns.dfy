/** What the turn of each waiter in `wake_up_queued` does, be it the head or behind it,
    read off the tree, the lock words and the memory at that turn. */
module LockTurns {
  import opened Wrappers
  import opened PathTree
  import opened TreeLocks
  import opened LockQueue
  import opened LockSteps
  import opened LockProgress
  import opened LockStuck

  // ----- one turn

  /** How an attempt on `p` ends if besides what the lock words say the nodes in `closed`
      were closed to readers and those in `taken` locked; None is success. */
  ghost function Fate(s: Core, p: Path, mem: nat, closed: set<Id>, taken: set<Id>): Option<Err> {
    if Starved(s, p, mem, closed, taken) then Some(NoMemory)
    else if Shut(s, p, closed, taken) then Some(Again)
    else if IsStale(s.tree, p) then Some(Stale)
    else None
  }

  ghost function FirstFate(s: Core, w: Waiter, mem: Memory): Option<Err>
    requires w.Paths?
  {
    if Token(w.req, false) in s.holds then None else Fate(s, w.path1, mem(Token(w.req, false)), {}, {})
  }

  /** The second attempt meets what the first has just locked or marked. */
  ghost function SecondFate(s: Core, w: Waiter, mem: Memory): Option<Err>
    requires w.Paths?
  {
    if w.path2 == None || Token(w.req, true) in s.holds then None
    else
      var p1, p2, m := w.path1, w.path2.value, mem(Token(w.req, true));
      if Token(w.req, false) in s.holds then Fate(s, p2, m, {}, {})
      else if FirstFate(s, w, mem) == None then Fate(s, p2, m, Child(s.tree, p1), Way(s.tree, p1) + Child(s.tree, p1))
      else Fate(s, p2, m, NewlyMarked(s, p1), {})
  }

  lemma {:induction false} TryFate(s: Core, t: Token, p: Path, mem: nat)
    requires Valid(s) && p.nodeid in s.tree.links && t !in s.holds
    ensures Try(s, t, p, mem).1 == Fate(s, p, mem, {}, {})
  {
    hide Valid, TryGet, Shut, Starved, IsStale;
    AttemptFate(s, t, p, mem);
  }

  lemma FateBy(s: Core, s1: Core, p: Path, mem: nat, closed: set<Id>, taken: set<Id>)
    requires s1.tree == s.tree && (ChildLocked(s1, p, {}) <==> ChildLocked(s, p, taken))
    requires var c := UpChain(s.tree.links, p.nodeid); OpenFor(s1.locks, {}, c) == OpenFor(s.locks, closed, c)
    ensures Fate(s1, p, mem, {}, {}) == Fate(s, p, mem, closed, taken)
  {
    hide ChildLocked, OpenFor, UpChain, IsStale;
  }

  lemma {:induction false} BothFates(s: Core, w: Waiter, mem: Memory)
    requires Valid(s) && Nodes(s, w) && w.Paths? && w.req < MAX_REQUESTS
    ensures var (s1, e1) := Try(s, Token(w.req, false), w.path1, mem(Token(w.req, false)));
            && e1 == FirstFate(s, w, mem)
            && (w.path2.Some? && !Fatal(e1) ==>
                  Try(s1, Token(w.req, true), w.path2.value, mem(Token(w.req, true))).1 == SecondFate(s, w, mem))
  {
    hide Valid, TryGet, Fate;
    var t1, t2, p1 := Token(w.req, false), Token(w.req, true), w.path1;
    var (s1, e1) := Try(s, t1, p1, mem(t1));
    TryKeeps(s, t1, p1, mem(t1), s1, e1);
    if t1 !in s.holds {
      TryFate(s, t1, p1, mem(t1));
      AttemptFate(s, t1, p1, mem(t1));
    }
    if w.path2.Some? && !Fatal(e1) && t2 !in s.holds {
      var p2 := w.path2.value;
      TryFate(s1, t2, p2, mem(t2));
      if t1 !in s.holds {
        if e1 == None {
          FateAfterGrant(s, t1, p1, mem(t1), s1, p2);
          FateBy(s, s1, p2, mem(t2), Child(s.tree, p1), Way(s.tree, p1) + Child(s.tree, p1));
        } else {
          FateAfterRefusal(s, t1, p1, mem(t1), s1, p2);
          FateBy(s, s1, p2, mem(t2), NewlyMarked(s, p1), {});
        }
      }
    }
  }

  /** What a turn makes of the status of a waiter. */
  ghost function StatusAfter(s: Core, w: Waiter, mem: Memory): Status
    requires w.Paths?
  {
    var e1, e2 := FirstFate(s, w, mem), SecondFate(s, w, mem);
    if Fatal(e1) then Done(e1)
    else if Fatal(e2) then Done(e2)
    else if e1 == None && e2 == None then Done(None)
    else w.status
  }

  /** A turn leaves path 1 or 2 of the waiter locked: it was or could be, neither attempt
      was fatal, and the other path is locked as well or the waiter heads the queue. */
  ghost predicate HeldAfter(s: Core, w: Waiter, first: bool, mem: Memory, second: bool)
    requires w.Paths?
  {
    var e1, e2 := FirstFate(s, w, mem), SecondFate(s, w, mem);
    var mine, other := if second then e2 else e1, if second then e1 else e2;
    (second ==> w.path2.Some?) && mine == None && !Fatal(other) && (other == None || first)
  }

  ghost function PathOf(w: Waiter, second: bool): Path
    requires w.Paths? && (second ==> w.path2.Some?)
  {
    if second then w.path2.value else w.path1
  }

  /** What is locked in a turn is the path that the waiter wants, on the tree as it is. */
  ghost predicate LocksPath(s: Core, w: Waiter, s': Core, second: bool)
    requires w.Paths?
  {
    var t := Token(w.req, second);
    t in s'.holds && t !in s.holds ==>
      && (second ==> w.path2.Some?)
      && var p := PathOf(w, second);
         s'.holds[t] == Hold(p, WriteNode(s.tree, p), UpChain(s.tree.links, p.nodeid))
  }

  /** The turn of any waiter, head or not: its status afterwards, and its locks. */
  lemma {:induction false} TurnDecides(s: Core, w: Waiter, first: bool, mem: Memory, s': Core, w': Waiter)
    requires Valid(s) && Nodes(s, w) && w.Paths? && w.req < MAX_REQUESTS
    requires w.path2 == None ==> Token(w.req, true) !in s.holds
    requires (s', w') == Wakeup(s, w, first, mem)
    ensures w' == w.(status := StatusAfter(s, w, mem))
    ensures forall second :: Token(w.req, second) in s'.holds <==> HeldAfter(s, w, first, mem, second)
    ensures LocksPath(s, w, s', false) && LocksPath(s, w, s', true)
  {
    hide Valid, TryGet, FirstFate, ReleaseBoth, UpChain, WriteNode;
    BothFates(s, w, mem);
    var t1, t2 := Token(w.req, false), Token(w.req, true);
    var (s1, e1) := Try(s, t1, w.path1, mem(t1));
    TryKeeps(s, t1, w.path1, mem(t1), s1, e1);
    TryLocksPath(s, t1, w.path1, mem(t1));
    if Fatal(e1) {
      ReleaseBothKeeps(s1, w.req, s');
    } else {
      var (s2, e2) := if w.path2.Some? then Try(s1, t2, w.path2.value, mem(t2)) else (s1, None);
      if w.path2.Some? {
        TryKeeps(s1, t2, w.path2.value, mem(t2), s2, e2);
        TryLocksPath(s1, t2, w.path2.value, mem(t2));
      } else {
        assert SecondFate(s, w, mem) == None;
      }
      if Fatal(e2) || !((e1 == None && e2 == None) || first) {
        ReleaseBothKeeps(s2, w.req, s');
      }
    }
  }

  lemma TryLocksPath(s: Core, t: Token, p: Path, mem: nat)
    ensures var (s', e) := Try(s, t, p, mem);
            s'.holds == (if e == None && t !in s.holds
                         then s.holds[t := Hold(p, WriteNode(s.tree, p), UpChain(s.tree.links, p.nodeid))] else s.holds)
  {
    hide UpChain, TryLocks, Top;
  }

  // ----- with memory enough

  /** Path `p` excludes path `q` of the same request. */
  ghost predicate Excludes(t: Tree, p: Path, q: Path) {
    Conflict(t, Hold(p, WriteNode(t, p), UpChain(t.links, p.nodeid)), q)
  }

  ghost predicate IsShut(s: Core, p: Path) {
    Shut(s, p, {}, {})
  }

  /** A turn of waiter `w` locks all its paths: those not locked yet are not shut, lead to
      the root, and do not exclude each other. */
  ghost predicate CanLock(s: Core, w: Waiter)
    requires w.Paths?
  {
    var has1, has2 := Token(w.req, false) in s.holds, w.path2 == None || Token(w.req, true) in s.holds;
    && (has1 || (!IsShut(s, w.path1) && !IsStale(s.tree, w.path1)))
    && (has2 || (!IsShut(s, w.path2.value) && !IsStale(s.tree, w.path2.value)))
    && (has1 || has2 || !Excludes(s.tree, w.path1, w.path2.value))
  }

  /** A turn ends the waiting: all is locked, or an attempt finds that a path does not
      lead to the root any more. The second attempt is made unless the first finds that,
      and what the first locks or marks can hide it. */
  ghost predicate Ends(s: Core, w: Waiter)
    requires w.Paths?
  {
    var has1, has2 := Token(w.req, false) in s.holds, w.path2 == None || Token(w.req, true) in s.holds;
    if has1 && has2 then true
    else if has1 then !IsShut(s, w.path2.value)
    else if has2 then !IsShut(s, w.path1)
    else
      var p1, p2 := w.path1, w.path2.value;
      if IsShut(s, p1) then !IsShut(s, p2) && IsStale(s.tree, p2) && NewlyMarked(s, p1) !! Way(s.tree, p2)
      else IsStale(s.tree, p1) || (!IsShut(s, p2) && !Excludes(s.tree, p1, p2))
  }

  lemma {:induction false} FateWithMemory(s: Core, p: Path, mem: nat, closed: set<Id>, taken: set<Id>)
    requires Plenty(s, p, mem)
    ensures Fate(s, p, mem, closed, taken) ==
              if Shut(s, p, closed, taken) then Some(Again) else if IsStale(s.tree, p) then Some(Stale) else None
  {
    hide Shut, IsStale, Starved, Plenty;
    EnoughIsNotStarved(s, p, mem, closed, taken);
  }

  lemma {:induction false} FatesWithMemory(s: Core, w: Waiter, mem: Memory)
    requires w.Paths? && PlentyForBoth(s, w, mem)
    ensures var e1, p1 := FirstFate(s, w, mem), w.path1;
            e1 == if Token(w.req, false) in s.holds then None
                  else if IsShut(s, p1) then Some(Again) else if IsStale(s.tree, p1) then Some(Stale) else None
    ensures w.path2.Some? && Token(w.req, true) !in s.holds ==>
              var e1, e2, p1, p2 := FirstFate(s, w, mem), SecondFate(s, w, mem), w.path1, w.path2.value;
              var shut := IsShut(s, p2) || (Token(w.req, false) !in s.holds &&
                            if e1 == None then Excludes(s.tree, p1, p2) else !(NewlyMarked(s, p1) !! Way(s.tree, p2)));
              e2 == if shut then Some(Again) else if IsStale(s.tree, p2) then Some(Stale) else None
  {
    hide Shut, IsStale, Plenty, Conflict, Fate;
    FateWithMemory(s, w.path1, mem(Token(w.req, false)), {}, {});
    if w.path2.Some? {
      var p1, p2, m := w.path1, w.path2.value, mem(Token(w.req, true));
      FateWithMemory(s, p2, m, {}, {});
      FateWithMemory(s, p2, m, Child(s.tree, p1), Way(s.tree, p1) + Child(s.tree, p1));
      FateWithMemory(s, p2, m, NewlyMarked(s, p1), {});
      ShutByGrant(s, p1, p2);
      ShutByMark(s, p1, p2);
    }
  }

  /** A waiter is done after its turn exactly if the tree and the lock words end its
      waiting, and has all its paths exactly if they are free. */
  lemma {:induction false} TurnWithMemory(s: Core, w: Waiter, mem: Memory)
    requires w.Paths? && w.status == Waiting && PlentyForBoth(s, w, mem)
    ensures StatusAfter(s, w, mem).Done? <==> Ends(s, w)
    ensures StatusAfter(s, w, mem) == Done(None) <==> CanLock(s, w)
  {
    FatesWithMemory(s, w, mem);
    hide IsShut, IsStale, Excludes, NewlyMarked, Way, FirstFate, PlentyForBoth;
  }

  // ----- the turns of a wake-up

  /** `wake_up_queued` when the turn of waiter `k` comes. */
  ghost function BeforeTurn(s: State, k: nat, mem: Memory): (r: State)
    requires k <= |s.queue|
    ensures |r.queue| == |s.queue|
  {
    if k == 0 then s
    else
      var m := BeforeTurn(s, k - 1, mem);
      var (core, w) := Wakeup(m.core, m.queue[k - 1], k - 1 == 0, mem);
      m.(core := core, queue := m.queue[k - 1 := w])
  }

  lemma OneTurn(s: State, k: nat, mem: Memory)
    requires k < |s.queue|
    ensures var m, m1 := BeforeTurn(s, k, mem), BeforeTurn(s, k + 1, mem);
            && WakeFrom(m, k, mem) == WakeFrom(m1, k + 1, mem)
            && var (core, w) := Wakeup(m.core, m.queue[k], k == 0, mem);
               m1 == m.(core := core, queue := m.queue[k := w])
  {
    hide Wakeup;
  }

  lemma RequestsDiffer(s: State, j: nat, k: nat)
    requires Inv(s) && j < |s.queue| && k < |s.queue| && j != k
    ensures s.queue[j].req != s.queue[k].req
  {
    hide Valid, WaiterOk, GrantedOk;
  }

  lemma {:induction false} BeforeTurnKeeps(s: State, k: nat, mem: Memory)
    requires Inv(s) && k <= |s.queue|
    ensures var m := BeforeTurn(s, k, mem);
            && Inv(m) && WakeFrom(m, k, mem) == WakeFrom(s, 0, mem) && m.core.tree == s.core.tree
            && (forall j :: k <= j < |s.queue| ==> m.queue[j] == s.queue[j])
            && forall j, second :: k <= j < |s.queue| ==>
                 (Token(s.queue[j].req, second) in m.core.holds <==> Token(s.queue[j].req, second) in s.core.holds)
  {
    hide Inv, Wakeup, WakeFrom;
    if k > 0 {
      BeforeTurnKeeps(s, k - 1, mem);
      OneTurn(s, k - 1, mem);
      var m, m1 := BeforeTurn(s, k - 1, mem), BeforeTurn(s, k, mem);
      hide BeforeTurn, Valid;
      WakeStepKeepsInv(m, k - 1, mem, m1);
      forall j, second | k <= j < |s.queue|
        ensures Token(s.queue[j].req, second) in m1.core.holds <==> Token(s.queue[j].req, second) in s.core.holds
      {
        RequestsDiffer(m, j, k - 1);
        var t := Token(s.queue[j].req, second);
        assert t.req == m.queue[j].req != m.queue[k - 1].req;
        hide SameWaiter;
        assert t in m1.core.holds <==> t in m.core.holds;
      }
    }
  }

  /** What a turn does to waiter `k` stays until the end of the loop. */
  lemma {:induction false} TurnStays(s: State, k: nat, mem: Memory, s': State, core: Core, w: Waiter)
    requires Inv(s) && k < |s.queue| && s' == WakeFrom(s, 0, mem)
    requires var m := BeforeTurn(s, k, mem); (core, w) == Wakeup(m.core, s.queue[k], k == 0, mem)
    ensures Inv(s') && |s'.queue| == |s.queue| && s'.queue[k] == w
    ensures forall second :: Token(s.queue[k].req, second) in s'.core.holds <==> Token(s.queue[k].req, second) in core.holds
    ensures forall second :: var t := Token(s.queue[k].req, second);
              t in core.holds && t in s'.core.holds ==> s'.core.holds[t] == core.holds[t]
  {
    hide Inv, Wakeup, WakeFrom, BeforeTurn, Valid;
    BeforeTurnKeeps(s, k, mem);
    OneTurn(s, k, mem);
    var m, m1 := BeforeTurn(s, k, mem), BeforeTurn(s, k + 1, mem);
    WakeStepKeepsInv(m, k, mem, m1);
    WakeKeepsInv(m1, k + 1, mem, s');
    forall second, j | k + 1 <= j < |m1.queue| ensures m1.queue[j].req != Token(s.queue[k].req, second).req {
      RequestsDiffer(m1, j, k);
    }
  }

  /** Every waiter on paths has its turn in `wake_up_queued`, head or not. Its status and
      its locks at the end are those that the tree, the lock words and the memory at its
      turn decide. */
  lemma {:induction false} EveryTurnCounts(s: State, k: nat, mem: Memory, s': State)
    requires Inv(s) && s' == WakeFrom(s, 0, mem) && k < |s.queue| && s.queue[k].Paths?
    ensures |s'.queue| == |s.queue|
    ensures var now, w := BeforeTurn(s, k, mem).core, s.queue[k];
            && s'.queue[k] == w.(status := StatusAfter(now, w, mem))
            && (forall second :: Token(w.req, second) in s'.core.holds <==> HeldAfter(now, w, k == 0, mem, second))
            && now.tree == s.core.tree
            && forall second :: Token(w.req, second) in now.holds <==> Token(w.req, second) in s.core.holds
  {
    var m, w := BeforeTurn(s, k, mem), s.queue[k];
    BeforeTurnKeeps(s, k, mem);
    var (core, w') := Wakeup(m.core, w, k == 0, mem);
    assert WaiterOk(m.core, m.queue[k], k == 0);
    hide Valid, Wakeup, WakeFrom, BeforeTurn, StatusAfter, HeldAfter, GrantedOk;
    TurnDecides(m.core, w, k == 0, mem, core, w');
    TurnStays(s, k, mem, s', core, w');
  }

  /** With memory enough, a waiter is done after a wake-up exactly if the tree and the lock
      words at its turn end its waiting, and has all its paths exactly if they are free. */
  lemma {:induction false} EveryTurnWithMemory(s: State, k: nat, mem: Memory, s': State)
    requires Inv(s) && s' == WakeFrom(s, 0, mem) && k < |s.queue| && s.queue[k].Paths?
    requires s.queue[k].status == Waiting && PlentyForBoth(s.core, s.queue[k], mem)
    ensures |s'.queue| == |s.queue| && s'.queue[k].Paths?
    ensures s'.queue[k].status.Done? <==> Ends(BeforeTurn(s, k, mem).core, s.queue[k])
    ensures s'.queue[k].status == Done(None) <==> CanLock(BeforeTurn(s, k, mem).core, s.queue[k])
  {
    EveryTurnCounts(s, k, mem, s');
    var now := BeforeTurn(s, k, mem).core;
    assert PlentyForBoth(now, s.queue[k], mem);
    hide Inv, WakeFrom, BeforeTurn, StatusAfter, HeldAfter, Ends, CanLock, PlentyForBoth;
    TurnWithMemory(now, s.queue[k], mem);
  }

  // ----- a request outside the queue

  /** `try_get_path2`: the second path is tried only if the first is locked. */
  ghost function PairFate(s: Core, p1: Path, p2: Path, mem1: nat, mem2: nat): Option<Err> {
    var e1 := Fate(s, p1, mem1, {}, {});
    if e1.Some? then e1 else Fate(s, p2, mem2, Child(s.tree, p1), Way(s.tree, p1) + Child(s.tree, p1))
  }

  lemma {:induction false} TryGet2Fate(s: Core, req: nat, p1: Path, p2: Path, mem1: nat, mem2: nat)
    requires Valid(s) && p1.nodeid in s.tree.links && p2.nodeid in s.tree.links && req < MAX_REQUESTS && HoldsNothing(s, req)
    ensures TryGet2(s, req, p1, p2, mem1, mem2).1 == PairFate(s, p1, p2, mem1, mem2)
  {
    var t1, t2 := Token(req, false), Token(req, true);
    var mem := (t: Token) => if t.second then mem2 else mem1;
    var w := Paths(req, p1, Some(p2), Waiting);
    hide Valid, Try, Release, Fate;
    BothFates(s, w, mem);
  }

  /** With memory enough it succeeds exactly if both paths are free, lead to the root, and
      do not exclude each other. */
  lemma {:induction false} PairWithMemory(s: Core, p1: Path, p2: Path, mem1: nat, mem2: nat)
    requires Plenty(s, p1, mem1) && Plenty(s, p2, mem2)
    ensures PairFate(s, p1, p2, mem1, mem2) == None <==>
              && !IsShut(s, p1) && !IsStale(s.tree, p1) && !IsShut(s, p2) && !IsStale(s.tree, p2)
              && !Excludes(s.tree, p1, p2)
  {
    hide Shut, IsStale, Plenty, Conflict, Fate;
    FateWithMemory(s, p1, mem1, {}, {});
    FateWithMemory(s, p2, mem2, Child(s.tree, p1), Way(s.tree, p1) + Child(s.tree, p1));
    ShutByGrant(s, p1, p2);
  }

  /** What a new request gets: its paths, a place at the end of the queue, or an error. */
  ghost predicate Answered(s: State, s': State, w: Waiter, fate: Option<Err>) {
    && s'.core.tree == s.core.tree
    && match fate
       case None => s'.granted == s.granted + {w.req} && s'.queue == s.queue
       case Some(e) => s'.granted == s.granted && s'.queue == if e == Again then s.queue + [w] else s.queue
  }

  /** A request is granted, queued or refused exactly as tree, lock words and memory say. */
  lemma {:induction false} GetExactly(s: State, step: Step, s': State)
    requires Inv(s) && Enabled(s, step) && s' == Apply(s, step)
    ensures match step
            case GetPath(req, p, mem) =>
              Answered(s, s', Paths(req, p, None, Waiting), Fate(s.core, p, mem, {}, {}))
            case GetPath2(req, p1, p2, mem1, mem2) =>
              Answered(s, s', Paths(req, p1, Some(p2), Waiting), PairFate(s.core, p1, p2, mem1, mem2))
            case _ => true
  {
    hide Valid, Fate, Try, TryGet2, QueueOk, GrantedOk, PairFate;
    match step {
      case GetPath(req, p, mem) =>
        TryFate(s.core, Token(req, false), p, mem);
        TryKeeps(s.core, Token(req, false), p, mem, s'.core, Try(s.core, Token(req, false), p, mem).1);
      case GetPath2(req, p1, p2, mem1, mem2) =>
        TryGet2Fate(s.core, req, p1, p2, mem1, mem2);
        TryGet2Keeps(s.core, req, p1, p2, mem1, mem2, s'.core, TryGet2(s.core, req, p1, p2, mem1, mem2).1);
      case _ =>
    }
  }

  /** A waiter that is done leaves the queue: with its locks if it has them all, else with
      an error. The others keep their order. */
  lemma {:induction false} DequeueExactly(s: State, req: nat, k: nat, s': State)
    requires Inv(s) && Enabled(s, Dequeue(req)) && s' == Apply(s, Dequeue(req)) && k < |s.queue| && s.queue[k].req == req
    ensures s'.core == s.core && s'.queue == s.queue[..k] + s.queue[k + 1..] && !Queued(s'.queue, req)
    ensures s'.granted == s.granted + if Full(s.core, s.queue[k]) then {req} else {}
  {
    hide Valid, GrantedOk;
    assert WaiterOk(s.core, s.queue[k], k == 0);
    assert Position(s.queue, req) == k;
  }

  /** A request that is finished holds nothing and is not granted any more. */
  lemma {:induction false} FreeExactly(s: State, req: nat, wake: Memory, s': State)
    requires Inv(s) && Enabled(s, FreePath(req, wake)) && s' == Apply(s, FreePath(req, wake))
    ensures HoldsNothing(s'.core, req) && s'.granted == s.granted - {req} && |s'.queue| == |s.queue|
    ensures forall t: Token :: t.req in s'.granted ==>
              (t in s'.core.holds <==> t in s.core.holds) && (t in s.core.holds ==> s'.core.holds[t] == s.core.holds[t])
  {
    hide Valid, ReleaseBoth, WakeFrom;
    var core := ReleaseBoth(s.core, req);
    var s1 := State(core, s.queue, s.granted - {req});
    ReleaseBothKeeps(s.core, req, core);
    FreeKeepsInvBeforeWake(s, req, s1);
    WakeKeepsInv(s1, 0, wake, s');
    assert forall j :: 0 <= j < |s1.queue| ==> s1.queue[j].req != req;
    forall t: Token | t.req in s'.granted ensures forall j :: 0 <= j < |s1.queue| ==> s1.queue[j].req != t.req {
      assert !Queued(s1.queue, t.req);
    }
    assert Token(req, false).req == req && Token(req, true).req == req;
  }

  // ----- nobody is passed over

  /** Locked nodes stay locked, and nodes closed to readers stay closed. */
  ghost predicate StaysClosed(s: Core, s': Core) {
    && s'.tree == s.tree
    && forall x :: x in s.locks ==> x in s'.locks && (s.locks[x] < 0 ==> s'.locks[x] < 0) && (s.locks[x] != 0 ==> s'.locks[x] != 0)
  }

  lemma ShutStays(s: Core, s': Core, p: Path)
    requires StaysClosed(s, s') && IsShut(s, p)
    ensures IsShut(s', p)
  {
    hide Shut;
    ShutMeans(s, p, {}, {});
    ShutMeans(s', p, {}, {});
  }

  lemma {:induction false} HeldIsLocked(s: Core, x: Id, t: Token)
    requires Valid(s) && x in s.locks && t in s.holds && (x in s.holds[t].chain || s.holds[t].wnode == Some(x))
    ensures s.locks[x] != 0
  {
    ReadersBound(s, x);
    HeldWords(s.locks, s.holds, t, x);
  }

  lemma {:induction false} LockedIsHeld(s: Core, x: Id) returns (t: Token)
    requires Valid(s) && x in s.locks && s.locks[x] != 0
    ensures t in s.holds && (x in s.holds[t].chain || s.holds[t].wnode == Some(x))
  {
    if forall t :: t in s.holds ==> x !in s.holds[t].chain && s.holds[t].wnode != Some(x) {
      UnheldIsUncounted(s.holds, x);
      WordsCountHolds(s, x);
    }
    t :| t in s.holds && (x in s.holds[t].chain || s.holds[t].wnode == Some(x));
  }

  lemma KeysKept(s: Core, s': Core)
    requires Valid(s) && Valid(s') && s'.tree == s.tree
    ensures s'.locks.Keys == s.locks.Keys
  {
    hide WellFormed, HoldOk, LocksOk;
  }

  lemma {:induction false} HoldsStayLocked(s: Core, s': Core)
    requires Valid(s) && Valid(s') && s'.tree == s.tree
    requires forall t :: t in s.holds ==> t in s'.holds && s'.holds[t] == s.holds[t]
    ensures forall x :: x in s.locks ==> x in s'.locks && (s.locks[x] != 0 ==> s'.locks[x] != 0)
  {
    KeysKept(s, s');
    forall x | x in s.locks && s.locks[x] != 0 ensures s'.locks[x] != 0 {
      var u := LockedIsHeld(s, x);
      HeldIsLocked(s', x, u);
    }
    hide Valid;
  }

  /** The words of nodes that are closed to readers are as they were. */
  ghost predicate ClosedAsBefore(s: Core, s': Core) {
    forall x :: x in s.locks && s.locks[x] < 0 ==> x in s'.locks && s'.locks[x] == s.locks[x]
  }

  /** If lock `t` is held, it does not go through a node that was closed to readers, and
      writes no node that was locked. */
  ghost predicate AvoidsClosed(s: Core, s': Core, t: Token) {
    t in s'.holds ==>
      forall x :: x in s.locks ==>
        (s.locks[x] < 0 ==> x !in s'.holds[t].chain) && (s.locks[x] != 0 ==> s'.holds[t].wnode != Some(x))
  }

  lemma {:induction false} TryAvoidsClosed(s: Core, t: Token, p: Path, mem: nat, s': Core)
    requires Valid(s) && p.nodeid in s.tree.links && t !in s.holds && s' == Try(s, t, p, mem).0
    ensures ClosedAsBefore(s, s') && AvoidsClosed(s, s', t)
  {
    TryLocksPath(s, t, p, mem);
    forall x | x in s.locks && s.locks[x] < 0
      ensures x in s'.locks && s'.locks[x] == s.locks[x] && (t in s'.holds ==> x !in s'.holds[t].chain)
    {
      hide Valid, UpChain;
      AttemptWord(s, t, p, mem, x);
    }
    AttemptFate(s, t, p, mem);
    hide Valid, UpChain, TryGet, Starved, OpenFor;
  }

  lemma {:induction false} TryExtends(s: Core, t: Token, p: Path, mem: nat, s': Core, e: Option<Err>)
    requires Valid(s) && p.nodeid in s.tree.links && t.req < MAX_REQUESTS && (s', e) == Try(s, t, p, mem)
    ensures Valid(s') && s'.tree == s.tree && (t in s.holds ==> s' == s && e == None)
    ensures forall x :: x in s.holds ==> x in s'.holds && s'.holds[x] == s.holds[x]
    ensures forall x :: x in s'.holds ==> x == t || x in s.holds
  {
    TryKeeps(s, t, p, mem, s', e);
    TryLocksPath(s, t, p, mem);
    hide TryGet, Valid, UpChain, WriteNode;
  }

  /** One attempt. */
  lemma {:induction false} TryStaysClosed(s: Core, t: Token, p: Path, mem: nat, s': Core)
    requires Valid(s) && p.nodeid in s.tree.links && t.req < MAX_REQUESTS && s' == Try(s, t, p, mem).0
    ensures StaysClosed(s, s')
  {
    var e := Try(s, t, p, mem).1;
    TryExtends(s, t, p, mem, s', e);
    if t !in s.holds {
      TryAvoidsClosed(s, t, p, mem, s');
    }
    hide Try, Valid, AvoidsClosed;
    HoldsStayLocked(s, s');
  }

  /** A lock is given back that was taken since `s`. */
  lemma {:induction false} ReleaseAsBefore(s: Core, s1: Core, t: Token, s2: Core)
    requires Valid(s1) && s1.tree == s.tree && ClosedAsBefore(s, s1) && AvoidsClosed(s, s1, t) && s2 == Release(s1, t)
    ensures ClosedAsBefore(s, s2)
  {
    if t in s1.holds {
      WayIsAsRecorded(s1, t);
      hide Valid, UpChain;
      var h := s1.holds[t];
      forall x | x in s.locks && s.locks[x] < 0 ensures x in s2.locks && s2.locks[x] == s1.locks[x] {
        assert x !in h.chain && h.wnode != Some(x);
      }
    }
  }

  lemma {:induction false} ClosedTwice(s: Core, s1: Core, s2: Core, t1: Token, t2: Token)
    requires StaysClosed(s, s1) && ClosedAsBefore(s, s1) && AvoidsClosed(s, s1, t1)
    requires ClosedAsBefore(s1, s2) && AvoidsClosed(s1, s2, t2)
    requires t1 in s2.holds && t1 in s1.holds ==> s2.holds[t1] == s1.holds[t1]
    requires t1 in s2.holds ==> t1 in s1.holds
    ensures ClosedAsBefore(s, s2) && AvoidsClosed(s, s2, t1) && AvoidsClosed(s, s2, t2)
  {
  }

  /** Giving back what was taken since `s` leaves every lock word of `s` as closed. */
  lemma {:induction false} ReleaseBothAsBefore(s: Core, s2: Core, req: nat, s3: Core)
    requires Valid(s) && Valid(s2) && s2.tree == s.tree && HoldsNothing(s, req)
    requires forall t :: t in s.holds ==> t in s2.holds && s2.holds[t] == s.holds[t]
    requires ClosedAsBefore(s, s2) && AvoidsClosed(s, s2, Token(req, false)) && AvoidsClosed(s, s2, Token(req, true))
    requires s3 == ReleaseBoth(s2, req)
    ensures StaysClosed(s, s3)
  {
    hide Valid, AvoidsClosed, ClosedAsBefore, Release;
    var t1, t2 := Token(req, false), Token(req, true);
    var m := Release(s2, t1);
    ReleaseKeeps(s2, t1, m);
    ReleaseKeeps(m, t2, s3);
    ReleaseAsBefore(s, s2, t1, m);
    AvoidsLater(s, s2, m, t2);
    ReleaseAsBefore(s, m, t2, s3);
    HoldsStayLocked(s, s3);
    AsBeforeIsClosed(s, s3);
  }

  lemma AvoidsLater(s: Core, s1: Core, s2: Core, t: Token)
    requires AvoidsClosed(s, s1, t) && (t in s2.holds ==> t in s1.holds && s2.holds[t] == s1.holds[t])
    ensures AvoidsClosed(s, s2, t)
  {
  }

  lemma AsBeforeIsClosed(s: Core, s': Core)
    requires s'.tree == s.tree && ClosedAsBefore(s, s')
    requires forall x :: x in s.locks ==> x in s'.locks && (s.locks[x] != 0 ==> s'.locks[x] != 0)
    ensures StaysClosed(s, s')
  {
  }

  /** The turn of a waiter that holds nothing, or everything. */
  lemma {:induction false} TurnStaysClosed(s: Core, w: Waiter, mem: Memory, s': Core)
    requires Valid(s) && Nodes(s, w) && w.req < MAX_REQUESTS && s' == Wakeup(s, w, false, mem).0
    requires Full(s, w) || HoldsNothing(s, w.req)
    ensures StaysClosed(s, s')
  {
    hide Valid, Try, ReleaseBoth, StaysClosed, ClosedAsBefore, AvoidsClosed;
    if w.Paths? {
      var t1, t2 := Token(w.req, false), Token(w.req, true);
      var (s1, e1) := Try(s, t1, w.path1, mem(t1));
      TryKeeps(s, t1, w.path1, mem(t1), s1, e1);
      TryStaysClosed(s, t1, w.path1, mem(t1), s1);
      var (s2, e2) := if w.path2.Some? && !Fatal(e1) then Try(s1, t2, w.path2.value, mem(t2)) else (s1, None);
      BothAttempts(s, w, mem, s1, e1, s2, e2);
      SecondStaysClosed(s, w, mem, s1, e1, s2, e2);
      if !Full(s, w) && (Fatal(e1) || Fatal(e2) || e1.Some? || e2.Some?) {
        ReleaseBothAsBefore(s, s2, w.req, s');
      }
    } else {
      ClosedIsReflexive(s);
    }
  }

  lemma ClosedIsReflexive(s: Core)
    ensures StaysClosed(s, s)
  {
  }

  lemma {:induction false} BothAttempts(
      s: Core, w: Waiter, mem: Memory, s1: Core, e1: Option<Err>, s2: Core, e2: Option<Err>)
    requires Valid(s) && Nodes(s, w) && w.req < MAX_REQUESTS && w.Paths?
    requires (s1, e1) == Try(s, Token(w.req, false), w.path1, mem(Token(w.req, false)))
    requires (s2, e2) == if w.path2.Some? && !Fatal(e1)
                         then Try(s1, Token(w.req, true), w.path2.value, mem(Token(w.req, true))) else (s1, None)
    ensures Valid(s1) && Valid(s2) && s1.tree == s2.tree == s.tree
    ensures forall t :: t in s.holds ==> t in s1.holds && s1.holds[t] == s.holds[t]
    ensures forall t :: t in s1.holds ==> t in s2.holds && s2.holds[t] == s1.holds[t]
    ensures Token(w.req, true) !in s.holds ==> Token(w.req, true) !in s1.holds
    ensures Token(w.req, false) in s2.holds ==> Token(w.req, false) in s1.holds
    ensures Full(s, w) ==> s2 == s && e1 == None && e2 == None
  {
    hide Try, Valid;
    var t1, t2 := Token(w.req, false), Token(w.req, true);
    TryExtends(s, t1, w.path1, mem(t1), s1, e1);
    if w.path2.Some? && !Fatal(e1) {
      TryExtends(s1, t2, w.path2.value, mem(t2), s2, e2);
    }
  }

  lemma {:induction false} SecondStaysClosed(
      s: Core, w: Waiter, mem: Memory, s1: Core, e1: Option<Err>, s2: Core, e2: Option<Err>)
    requires Valid(s) && Nodes(s, w) && w.req < MAX_REQUESTS && w.Paths?
    requires (s1, e1) == Try(s, Token(w.req, false), w.path1, mem(Token(w.req, false)))
    requires (s2, e2) == if w.path2.Some? && !Fatal(e1)
                         then Try(s1, Token(w.req, true), w.path2.value, mem(Token(w.req, true))) else (s1, None)
    ensures StaysClosed(s, s2)
    ensures HoldsNothing(s, w.req) ==>
              ClosedAsBefore(s, s2) && AvoidsClosed(s, s2, Token(w.req, false)) && AvoidsClosed(s, s2, Token(w.req, true))
  {
    hide Try, Valid, ClosedAsBefore, StaysClosed, AvoidsClosed;
    var t1, t2 := Token(w.req, false), Token(w.req, true);
    BothAttempts(s, w, mem, s1, e1, s2, e2);
    TryStaysClosed(s, t1, w.path1, mem(t1), s1);
    if HoldsNothing(s, w.req) {
      TryAvoidsClosed(s, t1, w.path1, mem(t1), s1);
    }
    if w.path2.Some? && !Fatal(e1) {
      TryStaysClosed(s1, t2, w.path2.value, mem(t2), s2);
      ClosedIsTransitive(s, s1, s2);
      if HoldsNothing(s, w.req) {
        TryAvoidsClosed(s1, t2, w.path2.value, mem(t2), s2);
        ClosedTwice(s, s1, s2, t1, t2);
      }
    } else {
      AvoidsNothing(s, s1, t2);
    }
  }

  lemma AvoidsNothing(s: Core, s1: Core, t: Token)
    ensures t !in s1.holds ==> AvoidsClosed(s, s1, t)
  {
  }

  lemma {:induction false} RestStaysClosed(s: State, k: nat, mem: Memory, s': State)
    requires Inv(s) && 0 < k <= |s.queue| && s' == WakeFrom(s, k, mem)
    ensures StaysClosed(s.core, s'.core)
    decreases |s.queue| - k
  {
    if k < |s.queue| {
      var (core, w) := Wakeup(s.core, s.queue[k], false, mem);
      var s1 := s.(core := core, queue := s.queue[k := w]);
      assert WaiterOk(s.core, s.queue[k], false);
      hide Valid, Wakeup, StaysClosed;
      WakeStepKeepsInv(s, k, mem, s1);
      TurnStaysClosed(s.core, s.queue[k], mem, core);
      RestStaysClosed(s1, k + 1, mem, s');
      ClosedIsTransitive(s.core, core, s'.core);
    } else {
      ClosedIsReflexive(s.core);
    }
  }

  lemma ClosedIsTransitive(s: Core, s1: Core, s2: Core)
    requires StaysClosed(s, s1) && StaysClosed(s1, s2)
    ensures StaysClosed(s, s2)
  {
  }

  lemma {:induction false} AgainIsShut(s: Core, t: Token, p: Path, mem: nat)
    requires Valid(s) && p.nodeid in s.tree.links && Try(s, t, p, mem).1 == Some(Again)
    ensures IsShut(s, p) && t !in s.holds
  {
    hide Valid, TryGet, Shut, Starved;
    TryFate(s, t, p, mem);
  }

  lemma {:induction false} CannotStays(s: Core, s': Core, w: Waiter)
    requires w.Paths? && StaysClosed(s, s') && !CanLock(s, w)
    requires forall second :: Token(w.req, second) in s'.holds <==> Token(w.req, second) in s.holds
    ensures !CanLock(s', w)
  {
    assert s'.tree == s.tree;
    hide StaysClosed, IsShut;
    assert Token(w.req, false) in s'.holds <==> Token(w.req, false) in s.holds;
    assert Token(w.req, true) in s'.holds <==> Token(w.req, true) in s.holds;
    if IsShut(s, w.path1) {
      ShutStays(s, s', w.path1);
    }
    if w.path2.Some? && IsShut(s, w.path2.value) {
      ShutStays(s, s', w.path2.value);
    }
  }

  /** A turn that leaves the head waiting leaves it unable to lock what it lacks. */
  lemma {:induction false} HeadCannot(s: Core, w: Waiter, mem: Memory, s': Core)
    requires Valid(s) && Nodes(s, w) && w.Paths? && w.req < MAX_REQUESTS
    requires w.path2 == None ==> Token(w.req, true) !in s.holds
    requires (s', w) == Wakeup(s, w, true, mem) && w.status == Waiting
    ensures !CanLock(s', w)
  {
    hide Valid, TryGet, IsShut, StaysClosed, Excludes, IsStale;
    var t1, t2 := Token(w.req, false), Token(w.req, true);
    var (s1, e1) := Try(s, t1, w.path1, mem(t1));
    TryKeeps(s, t1, w.path1, mem(t1), s1, e1);
    TryStaysClosed(s, t1, w.path1, mem(t1), s1);
    if e1.Some? {
      AgainIsShut(s, t1, w.path1, mem(t1));
      ShutStays(s, s1, w.path1);
    }
    if w.path2.Some? {
      var (s2, e2) := Try(s1, t2, w.path2.value, mem(t2));
      TryKeeps(s1, t2, w.path2.value, mem(t2), s2, e2);
      TryStaysClosed(s1, t2, w.path2.value, mem(t2), s2);
      if e2.Some? {
        AgainIsShut(s1, t2, w.path2.value, mem(t2));
        ShutStays(s1, s2, w.path2.value);
      } else {
        ShutStays(s1, s2, w.path1);
      }
    }
  }

  /** So does a turn that leaves a waiter behind it waiting. */
  lemma {:induction false} OtherCannot(s: Core, w: Waiter, mem: Memory)
    requires Valid(s) && Nodes(s, w) && w.Paths? && w.req < MAX_REQUESTS && HoldsNothing(s, w.req)
    requires StatusAfter(s, w, mem) == Waiting
    ensures !CanLock(s, w)
  {
    hide Valid, Shut, Starved, IsStale;
    if w.path2.Some? {
      ShutByGrant(s, w.path1, w.path2.value);
    }
  }

  /** A waiter that still waits at the end waited all the time, and behind the head it
      held nothing before its turn and holds nothing at the end. */
  lemma {:induction false} StillWaiting(s: State, k: nat, mem: Memory, s': State)
    requires Inv(s) && s' == WakeFrom(s, 0, mem) && k < |s'.queue| && s'.queue[k].Paths? && s'.queue[k].status == Waiting
    ensures k < |s.queue| && s'.queue[k] == s.queue[k]
    ensures var m, m1, w := BeforeTurn(s, k, mem), BeforeTurn(s, k + 1, mem), s.queue[k];
            && Valid(m.core) && Nodes(m.core, w) && w.req < MAX_REQUESTS
            && (w.path2 == None ==> Token(w.req, true) !in m.core.holds)
            && (m1.core, w) == Wakeup(m.core, w, k == 0, mem)
            && (k > 0 ==> HoldsNothing(m.core, w.req) && HoldsNothing(s'.core, w.req))
            && Inv(m1) && WakeFrom(m1, k + 1, mem) == s' && |m1.queue| == |s.queue|
            && forall second :: Token(w.req, second) in s'.core.holds <==> Token(w.req, second) in m1.core.holds
  {
    hide WakeFrom, BeforeTurn, Valid, GrantedOk, Wakeup;
    WakeKeepsInv(s, 0, mem, s');
    BeforeTurnKeeps(s, k, mem);
    OneTurn(s, k, mem);
    var m, m1 := BeforeTurn(s, k, mem), BeforeTurn(s, k + 1, mem);
    TurnStays(s, k, mem, s', m1.core, m1.queue[k]);
    BeforeTurnKeeps(s, k + 1, mem);
    assert WaiterOk(m.core, m.queue[k], k == 0) && WaiterOk(s'.core, s'.queue[k], k == 0);
    TurnDecides(m.core, s.queue[k], k == 0, mem, m1.core, m1.queue[k]);
  }

  /** Nobody is passed over: whoever still waits on paths after a wake-up could not lock
      them as things are then, whatever the memory. */
  lemma {:induction false} NobodyIsPassedOver(s: State, k: nat, mem: Memory, s': State)
    requires Inv(s) && s' == WakeFrom(s, 0, mem) && k < |s'.queue| && s'.queue[k].Paths? && s'.queue[k].status == Waiting
    ensures !CanLock(s'.core, s'.queue[k])
  {
    hide Inv, WakeFrom, BeforeTurn, Valid, StaysClosed, CanLock, Wakeup, StatusAfter, HeldAfter, LocksPath, Nodes;
    StillWaiting(s, k, mem, s');
    var m, m1, w := BeforeTurn(s, k, mem), BeforeTurn(s, k + 1, mem), s.queue[k];
    RestStaysClosed(m1, k + 1, mem, s');
    if k == 0 {
      HeadCannot(m.core, w, mem, m1.core);
      CannotStays(m1.core, s'.core, w);
    } else {
      TurnDecides(m.core, w, false, mem, m1.core, w);
      OtherCannot(m.core, w, mem);
      TurnStaysClosed(m.core, w, mem, m1.core);
      ClosedIsTransitive(m.core, m1.core, s'.core);
      assert forall second :: Token(w.req, second) !in s'.core.holds && Token(w.req, second) !in m.core.holds;
      CannotStays(m.core, s'.core, w);
    }
  }

  /** So when a request is finished, whoever still waits afterwards could not go on. */
  lemma {:induction false} FreePassesNobodyOver(s: State, req: nat, wake: Memory, s': State, k: nat)
    requires Inv(s) && Enabled(s, FreePath(req, wake)) && s' == Apply(s, FreePath(req, wake))
    requires k < |s'.queue| && s'.queue[k].Paths? && s'.queue[k].status == Waiting
    ensures !CanLock(s'.core, s'.queue[k])
  {
    hide Inv, ReleaseBoth, WakeFrom, CanLock;
    var s1 := State(ReleaseBoth(s.core, req), s.queue, s.granted - {req});
    FreeKeepsInvBeforeWake(s, req, s1);
    NobodyIsPassedOver(s1, k, wake, s');
  }
}
