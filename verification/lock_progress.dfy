/** When the head of the queue gets on, and what a second wake-up of a waiter
    that has failed can leave behind. */
module LockProgress {
  import opened Wrappers
  import opened PathTree
  import opened TreeLocks
  import opened LockQueue

  // ----- progress of the head of the queue

  /** The head waits, and nothing is locked except by the head itself. */
  ghost predicate HeadAlone(s: State) {
    && s.queue != [] && s.queue[0].Paths? && s.queue[0].status == Waiting
    && forall t :: t in s.core.holds ==> t.req == s.queue[0].req
  }

  ghost predicate HeadDone(s: State) {
    s.queue != [] && s.queue[0].Paths? && s.queue[0].status.Done?
  }

  ghost predicate PlentyForBoth(s: Core, w: Waiter, mem: Memory)
    requires w.Paths?
  {
    Plenty(s, w.path1, mem(Token(w.req, false))) && (w.path2.Some? ==> Plenty(s, w.path2.value, mem(Token(w.req, true))))
  }

  lemma {:induction false} WakeDecidesHeadFirst(s: State, mem: Memory, s': State)
    requires Inv(s) && s.queue != [] && s' == WakeFrom(s, 0, mem)
    ensures s'.queue != [] && s'.queue[0] == Wakeup(s.core, s.queue[0], true, mem).1
  {
    hide Wakeup;
    var (core, w) := Wakeup(s.core, s.queue[0], true, mem);
    var s1 := s.(core := core, queue := s.queue[0 := w]);
    WakeStepKeepsInv(s, 0, mem, s1);
    WakeKeepsInv(s1, 1, mem, s');
  }

  /** A head that holds one of its paths completes, granted or stale, exactly when
      its two paths do not exclude each other and no node that both go through is
      marked as waited for. */
  lemma {:induction false} HalfLockedHeadCompletes(s: State, mem: Memory, second: bool, s': State)
    requires Inv(s) && HeadAlone(s) && PlentyForBoth(s.core, s.queue[0], mem) && s' == WakeFrom(s, 0, mem)
    requires s.queue[0].path2.Some? && Token(s.queue[0].req, second) in s.core.holds
    ensures var w := s.queue[0];
            var h, p := s.core.holds[Token(w.req, second)], if second then w.path1 else w.path2.value;
            HeadDone(s') <==> !Conflict(s.core.tree, h, p) && !SharedMark(s.core, h, p)
  {
    hide WakeFrom, Conflict, SharedMark, Valid, TryGet;
    var w := s.queue[0];
    var held, missing := Token(w.req, second), Token(w.req, !second);
    assert WaiterOk(s.core, w, true);
    assert s.core.holds.Keys == {held} by {
      forall t | t in s.core.holds ensures t == held {
        assert t == held || t == missing;
      }
    }
    var p := if second then w.path1 else w.path2.value;
    AgainstOneHold(s.core, held, missing, p, mem(missing));
    var r := TryGet(s.core, missing, p, mem(missing)).1;
    assert r.Granted? || r.err == Again || r.err == Stale || r.err == NoMemory;
    var (s1, e1) := Try(s.core, Token(w.req, false), w.path1, mem(Token(w.req, false)));
    TryKeeps(s.core, Token(w.req, false), w.path1, mem(Token(w.req, false)), s1, e1);
    WakeDecidesHeadFirst(s, mem, s');
  }

  /** A head that holds nothing completes exactly when its first path is stale or
      its paths do not exclude each other; with one path, always. */
  lemma {:induction false} UnlockedHeadCompletes(s: State, mem: Memory, s': State)
    requires Inv(s) && HeadAlone(s) && PlentyForBoth(s.core, s.queue[0], mem) && s' == WakeFrom(s, 0, mem)
    requires s.core.holds == map[]
    ensures var w, t := s.queue[0], s.core.tree;
            var c := UpChain(t.links, w.path1.nodeid);
            HeadDone(s') <==>
              w.path2 == None || Top(t.links, w.path1.nodeid, c) != ROOT ||
              !Conflict(t, Hold(w.path1, WriteNode(t, w.path1), c), w.path2.value)
  {
    hide WakeFrom, Conflict, SharedMark, Valid, TryGet;
    var w := s.queue[0];
    var t1, t2 := Token(w.req, false), Token(w.req, true);
    assert WaiterOk(s.core, w, true);
    AgainstNoHold(s.core, t1, w.path1, mem(t1));
    var (s1, r1) := TryGet(s.core, t1, w.path1, mem(t1));
    if r1.Granted? && w.path2.Some? {
      FirstHoldLeavesNoMark(s.core, t1, w.path1, mem(t1), s1, w.path2.value);
      TryGetKeepsValid(s.core, t1, w.path1, mem(t1), s1);
      TryKeeps(s.core, t1, w.path1, mem(t1), s1, None);
      AgainstOneHold(s1, t1, t2, w.path2.value, mem(t2));
    }
    WakeDecidesHeadFirst(s, mem, s');
  }

  // ----- waking a waiter that has failed

  ghost predicate HasFailed(w: Waiter) {
    w.Paths? && w.status.Done? && w.status.err.Some?
  }

  /** A waiter that has failed holds nothing: when its thread leaves the queue
      with the error, no lock is left behind. */
  ghost predicate Clean(s: State) {
    forall k :: 0 <= k < |s.queue| && HasFailed(s.queue[k]) ==> HoldsNothing(s.core, s.queue[k].req)
  }

  /** An attempt on `p` would be refused with EAGAIN, or granted, if besides what the
      lock words say the nodes in `closed` were closed to readers and those in `taken`
      locked. */
  ghost predicate Refused(s: Core, p: Path, mem: nat, closed: set<Id>, taken: set<Id>) {
    !Starved(s, p, mem, closed, taken) && Shut(s, p, closed, taken)
  }

  ghost predicate Open(s: Core, p: Path, mem: nat, closed: set<Id>, taken: set<Id>) {
    !Starved(s, p, mem, closed, taken) && !Shut(s, p, closed, taken) && !IsStale(s.tree, p)
  }

  /** The tree and the lock words leave exactly one of two paths open: the second is
      shut, be it by the first, or the first is shut and does not shut the second by
      the mark it leaves. */
  ghost predicate HalfOpen(s: Core, p1: Path, p2: Path, mem1: nat, mem2: nat) {
    || (Open(s, p1, mem1, {}, {}) && Refused(s, p2, mem2, Child(s.tree, p1), Way(s.tree, p1) + Child(s.tree, p1)))
    || (Refused(s, p1, mem1, {}, {}) && Open(s, p2, mem2, NewlyMarked(s, p1), {}))
  }

  /** The head has failed, its thread has not left the queue yet, and one of its two
      paths is open. */
  ghost predicate WakeLeaks(s: State, mem: Memory) {
    && s.queue != [] && HasFailed(s.queue[0]) && s.queue[0].path2.Some?
    && var w := s.queue[0];
       HalfOpen(s.core, w.path1, w.path2.value, mem(Token(w.req, false)), mem(Token(w.req, true)))
  }

  /** The two attempts that a waiter without locks makes come out differently exactly
      if one of its paths is open. */
  lemma {:induction false} OneGrantExactly(s: Core, w: Waiter, mem: Memory)
    requires Valid(s) && Nodes(s, w) && w.Paths? && w.path2.Some? && HoldsNothing(s, w.req) && w.req < MAX_REQUESTS
    ensures var (s1, e1) := Try(s, Token(w.req, false), w.path1, mem(Token(w.req, false)));
            var e2 := Try(s1, Token(w.req, true), w.path2.value, mem(Token(w.req, true))).1;
            !Fatal(e1) && !Fatal(e2) && (e1 == None) != (e2 == None) <==>
            HalfOpen(s, w.path1, w.path2.value, mem(Token(w.req, false)), mem(Token(w.req, true)))
  {
    hide Valid, TryGet, ChildLocked, OpenFor, UpChain, Top;
    var t1, t2, p1, p2 := Token(w.req, false), Token(w.req, true), w.path1, w.path2.value;
    var (s1, r1) := TryGet(s, t1, p1, mem(t1));
    AttemptFate(s, t1, p1, mem(t1));
    TryGetKeepsValid(s, t1, p1, mem(t1), s1);
    TryKeeps(s, t1, p1, mem(t1), s1, if r1.Granted? then None else Some(r1.err));
    if r1.Granted? {
      FateAfterGrant(s, t1, p1, mem(t1), s1, p2);
      AttemptFate(s1, t2, p2, mem(t2));
    } else if r1.err == Again {
      FateAfterRefusal(s, t1, p1, mem(t1), s1, p2);
      AttemptFate(s1, t2, p2, mem(t2));
    }
  }

  /** With memory enough, read off the tree and the lock words: either path 1 is open,
      and path 2 is shut or the two exclude each other; or path 1 is shut, path 2 is
      open, and path 2 does not go through a child that path 1 would mark. */
  ghost predicate OneIsOpen(s: Core, p1: Path, p2: Path) {
    var t := s.tree;
    var h := Hold(p1, WriteNode(t, p1), UpChain(t.links, p1.nodeid));
    || (!Shut(s, p1, {}, {}) && !IsStale(t, p1) && (Shut(s, p2, {}, {}) || Conflict(t, h, p2)))
    || (Shut(s, p1, {}, {}) && !Shut(s, p2, {}, {}) && !IsStale(t, p2) && NewlyMarked(s, p1) !! Way(t, p2))
  }

  lemma {:induction false} HalfOpenWithMemory(s: Core, p1: Path, p2: Path, mem1: nat, mem2: nat)
    requires Plenty(s, p1, mem1) && Plenty(s, p2, mem2)
    ensures HalfOpen(s, p1, p2, mem1, mem2) <==> OneIsOpen(s, p1, p2)
  {
    hide Shut, IsStale, UpChain, ChildLocked, OpenFor;
    EnoughIsNotStarved(s, p1, mem1, {}, {});
    EnoughIsNotStarved(s, p2, mem2, Child(s.tree, p1), Way(s.tree, p1) + Child(s.tree, p1));
    EnoughIsNotStarved(s, p2, mem2, NewlyMarked(s, p1), {});
    ShutByGrant(s, p1, p2);
    ShutByMark(s, p1, p2);
  }

  lemma {:induction false} ShutByGrant(s: Core, p1: Path, p2: Path)
    ensures Shut(s, p2, Child(s.tree, p1), Way(s.tree, p1) + Child(s.tree, p1)) <==>
              || Shut(s, p2, {}, {})
              || Conflict(s.tree, Hold(p1, WriteNode(s.tree, p1), UpChain(s.tree.links, p1.nodeid)), p2)
  {
    hide Shut, UpChain;
    ShutMeans(s, p2, {}, {});
    ShutMeans(s, p2, Child(s.tree, p1), Way(s.tree, p1) + Child(s.tree, p1));
    var w1, w2 := WriteNode(s.tree, p1), WriteNode(s.tree, p2);
    assert w1.Some? ==> w1.value in Child(s.tree, p1);
    assert w2.Some? ==> w2.value in Child(s.tree, p2);
    assert w1.Some? ==> (w1.value in Way(s.tree, p2) <==> w1.value in UpChain(s.tree.links, p2.nodeid));
  }

  lemma {:induction false} ShutByMark(s: Core, p1: Path, p2: Path)
    ensures Shut(s, p2, NewlyMarked(s, p1), {}) <==> Shut(s, p2, {}, {}) || !(NewlyMarked(s, p1) !! Way(s.tree, p2))
  {
    hide Shut, UpChain;
    ShutMeans(s, p2, {}, {});
    ShutMeans(s, p2, NewlyMarked(s, p1), {});
  }

  lemma EnoughIsNotStarved(s: Core, p: Path, mem: nat, closed: set<Id>, taken: set<Id>)
    requires Plenty(s, p, mem)
    ensures !Starved(s, p, mem, closed, taken)
  {
  }

  /** An attempt is shut out by what it would write-lock or by a node on its way. */
  lemma {:induction false} ShutMeans(s: Core, p: Path, closed: set<Id>, taken: set<Id>)
    ensures Shut(s, p, closed, taken) <==>
              || (exists i :: i in Child(s.tree, p) && (Word(s.locks, i) != 0 || i in taken))
              || (exists i :: i in Way(s.tree, p) && (Word(s.locks, i) < 0 || i in closed))
  {
    FullyOpen(s.locks, closed, UpChain(s.tree.links, p.nodeid));
    assert forall i :: i in Way(s.tree, p) <==> i in UpChain(s.tree.links, p.nodeid);
  }

  lemma {:induction false} FullyOpen(locks: Locks, closed: set<Id>, c: seq<Id>)
    ensures OpenFor(locks, closed, c) == |c| <==> forall i :: i in c ==> Word(locks, i) >= 0 && i !in closed
  {
    if c != [] {
      assert c == [c[0]] + c[1..];
      FullyOpen(locks, closed, c[1..]);
    }
  }

  /** Behind the head, a failed waiter never holds anything. */
  lemma {:induction false} CleanIsHeadClean(s: State)
    requires Inv(s)
    ensures Clean(s) <==> s.queue != [] && HasFailed(s.queue[0]) ==> HoldsNothing(s.core, s.queue[0].req)
  {
  }

  /** The wake-up of the head decides what its paths hold after the loop. */
  lemma {:induction false} WakeOfHead(s: State, mem: Memory, s': State, core: Core, w: Waiter)
    requires Inv(s) && s.queue != [] && s' == WakeFrom(s, 0, mem) && (core, w) == Wakeup(s.core, s.queue[0], true, mem)
    ensures Inv(s') && s'.queue != [] && s'.queue[0] == w && w.req == s.queue[0].req
    ensures HoldsNothing(s'.core, w.req) <==> HoldsNothing(core, w.req)
  {
    var s1 := s.(core := core, queue := s.queue[0 := w]);
    assert s' == WakeFrom(s1, 1, mem);
    hide WakeFrom, Wakeup;
    WakeStepKeepsInv(s, 0, mem, s1);
    assert forall j :: 1 <= j < |s1.queue| ==> s1.queue[j].req != w.req by {
      hide Valid, WaiterOk;
    }
    hide Inv;
    WakeKeepsInv(s1, 1, mem, s');
    var t1, t2 := Token(w.req, false), Token(w.req, true);
    assert t1 in s'.core.holds <==> t1 in core.holds;
    assert t2 in s'.core.holds <==> t2 in core.holds;
  }

  lemma WakeOfNone(s: State, mem: Memory, s': State)
    requires s.queue == [] && s' == WakeFrom(s, 0, mem)
    ensures s' == s
  {
  }

  /** `queue_element_wakeup` does not ask whether a waiter is done. So waking keeps
      failed waiters clean exactly unless the head has failed and the tree and the lock
      words leave one of its two paths open. */
  lemma {:induction false} WakeKeepsClean(s: State, mem: Memory, s': State)
    requires Inv(s) && Clean(s) && s' == WakeFrom(s, 0, mem)
    ensures Clean(s') <==> !WakeLeaks(s, mem)
  {
    CleanIsHeadClean(s);
    if s.queue == [] {
      WakeOfNone(s, mem, s');
    } else {
      var w := s.queue[0];
      var (core, w') := Wakeup(s.core, w, true, mem);
      WakeOfHead(s, mem, s', core, w');
      CleanIsHeadClean(s');
      if w.Paths? {
        assert Valid(s.core) && WaiterOk(s.core, w, true);
        hide Valid, WaiterOk, HalfOpen, WakeFrom;
        WakeupTokens(s.core, w, mem, core, w');
        hide Wakeup, Inv, Clean, HoldsNothing;
      }
    }
  }

  /** The same with memory enough, in terms of what is open and shut. */
  lemma {:induction false} WakeKeepsCleanWithMemory(s: State, mem: Memory, s': State)
    requires Inv(s) && Clean(s) && s' == WakeFrom(s, 0, mem)
    requires s.queue != [] && s.queue[0].Paths? ==> PlentyForBoth(s.core, s.queue[0], mem)
    ensures Clean(s') <==>
              !(&& s.queue != [] && HasFailed(s.queue[0]) && s.queue[0].path2.Some?
                && OneIsOpen(s.core, s.queue[0].path1, s.queue[0].path2.value))
  {
    hide Inv, Clean, WakeFrom, HalfOpen, OneIsOpen, Plenty;
    WakeKeepsClean(s, mem, s');
    if s.queue != [] && HasFailed(s.queue[0]) && s.queue[0].path2.Some? {
      var w := s.queue[0];
      HalfOpenWithMemory(s.core, w.path1, w.path2.value, mem(Token(w.req, false)), mem(Token(w.req, true)));
    }
  }

  /** Which tokens a woken head ends up with. */
  lemma {:induction false} WakeupTokens(s: Core, w: Waiter, mem: Memory, s': Core, w': Waiter)
    requires Valid(s) && WaiterOk(s, w, true) && w.Paths? && (s', w') == Wakeup(s, w, true, mem)
    requires HasFailed(w) ==> HoldsNothing(s, w.req)
    ensures var leaks := HasFailed(w) && w.path2.Some? &&
              HalfOpen(s, w.path1, w.path2.value, mem(Token(w.req, false)), mem(Token(w.req, true)));
            && (HasFailed(w') ==> (HoldsNothing(s', w.req) <==> !leaks))
            && (!HasFailed(w') ==> !leaks)
  {
    hide Valid, TryGet, ReleaseBoth, Try, HalfOpen;
    var t1, t2 := Token(w.req, false), Token(w.req, true);
    var (s1, e1) := Try(s, t1, w.path1, mem(t1));
    TryKeeps(s, t1, w.path1, mem(t1), s1, e1);
    if HasFailed(w) && w.path2.Some? {
      OneGrantExactly(s, w, mem);
    }
    if Fatal(e1) {
      ReleaseBothKeeps(s1, w.req, s');
    } else if w.path2.Some? {
      var (s2, e2) := Try(s1, t2, w.path2.value, mem(t2));
      TryKeeps(s1, t2, w.path2.value, mem(t2), s2, e2);
      if Fatal(e2) {
        ReleaseBothKeeps(s2, w.req, s');
      }
    }
  }
}
