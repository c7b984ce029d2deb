/** Two runs in which the queue does not do what it is for: one ends with the head
    waiting for ever although only it holds locks, the other loses a lock. */
module LockDeadlock {
  import opened Wrappers
  import opened PathTree
  import opened TreeLocks
  import opened LockQueue
  import opened LockSteps
  import opened LockProgress
  import opened LockRuns
  import opened LockStuck

  // ----- the tree: directory /i with the file /i/a and the directory /i/b

  const I: Id := 2
  const A: Id := 3
  const B: Id := 4

  function Links(): map<Id, Link> {
    map[ROOT := Unlinked, I := Linked(ROOT, "i"), A := Linked(I, "a"), B := Linked(I, "b")]
  }

  function Dirs(): Tree {
    Tree(Links(), map[(ROOT, "i") := I, (I, "a") := A, (I, "b") := B])
  }

  lemma {:induction false} Ways()
    ensures UpChain(Links(), ROOT) == [] && UpChain(Links(), I) == [I]
    ensures UpChain(Links(), A) == [A, I] && UpChain(Links(), B) == [B, I]
    ensures forall n :: n in {ROOT, I, A, B} ==> Top(Links(), n, UpChain(Links(), n)) == ROOT
  {
    var l := Links();
    assert IsUp(l, ROOT, []);
    ExtendWay(l, I, []);
    assert [I] + [] == [I];
    ExtendWay(l, A, [I]);
    ExtendWay(l, B, [I]);
    assert [A] + [I] == [A, I] && [B] + [I] == [B, I];
    UpIsUnique(l, ROOT, [], UpChain(l, ROOT));
    UpIsUnique(l, I, [I], UpChain(l, I));
    UpIsUnique(l, A, [A, I], UpChain(l, A));
    UpIsUnique(l, B, [B, I], UpChain(l, B));
  }

  function Words(root: int, i: int, a: int, b: int): Locks {
    map[ROOT := root, I := i, A := a, B := b]
  }

  // ----- requests

  /** rename of /i/b to /i/c: two paths that write-lock a child. */
  const OldB: Path := PathSpec(I, Some("b"), true)
  const NewC: Path := PathSpec(I, Some("c"), true)
  /** Any operation on the root directory. */
  const OnRoot: Path := PathSpec(ROOT, None, false)
  /** link of /i/a to a new name in /i/b: two paths through /i. */
  const OnA: Path := PathSpec(A, None, false)
  const InB: Path := PathSpec(B, Some("n"), false)
  /** rename of /i to /j. */
  const OldI: Path := PathSpec(ROOT, Some("i"), true)
  const NewJ: Path := PathSpec(ROOT, Some("j"), true)

  const First0: Token := Token(0, false)
  const Second0: Token := Token(0, true)
  const First1: Token := Token(1, false)
  const First2: Token := Token(2, false)
  const Second2: Token := Token(2, true)
  const First3: Token := Token(3, false)
  const Second3: Token := Token(3, true)

  const BHeld: Hold := Hold(OldB, Some(B), [I])
  const CHeld: Hold := Hold(NewC, None, [I])
  const RootHeld: Hold := Hold(OnRoot, None, [])
  const AHeld: Hold := Hold(OnA, None, [A, I])

  const Link2: Waiter := Paths(2, OnA, Some(InB), Waiting)
  const Enough: Memory := _ => 9

  // ----- single attempts

  /** What an attempt does to this tree, in terms of the lock words only. */
  lemma {:induction false} Attempt(locks: Locks, holds: map<Token, Hold>, t: Token, p: Path)
    requires p.nodeid in Links() && t !in holds
    ensures var c, w := UpChain(Links(), p.nodeid), WriteNode(Dirs(), p);
            var (locks', r) := TryLocks(locks, c, false, p.name.Some?, w, 9);
            Try(Core(Dirs(), locks, holds), t, p, 9) ==
              if r.Granted? then (Core(Dirs(), locks', holds[t := Hold(p, w, c)]), None)
              else (Core(Dirs(), locks', holds), Some(r.err))
  {
    Ways();
  }

  lemma {:induction false} Names()
    ensures WriteNode(Dirs(), OldB) == Some(B) && WriteNode(Dirs(), OldI) == Some(I)
    ensures WriteNode(Dirs(), NewC) == WriteNode(Dirs(), NewJ) == None
    ensures WriteNode(Dirs(), OnRoot) == WriteNode(Dirs(), OnA) == WriteNode(Dirs(), InB) == None
  {
    assert "i"[0] != "b"[0] && "i"[0] != "j"[0] && "c"[0] != "a"[0] && "c"[0] != "b"[0];
  }

  /** The old name of the rename: b is write-locked, and i read-locked. */
  lemma {:induction false} OldBGranted()
    ensures Try(Core(Dirs(), Words(0, 0, 0, 0), map[]), First0, OldB, 9) ==
              (Core(Dirs(), Words(0, 1, 0, -1), map[First0 := BHeld]), None)
  {
    Attempt(Words(0, 0, 0, 0), map[], First0, OldB);
    Names();
    Ways();
    var marked := SetLock(Words(0, 0, 0, 0), Some(B), TREELOCK_WRITE);
    assert Scan(marked, [I], false, 8) == None;
    assert LockAll(marked, [I]) == Words(0, 1, 0, -1);
  }

  /** The new name: no node has it yet, and i gets a second reader. */
  lemma {:induction false} NewCGranted(holds: map<Token, Hold>)
    requires Second0 !in holds
    ensures Try(Core(Dirs(), Words(0, 1, 0, -1), holds), Second0, NewC, 9) ==
              (Core(Dirs(), Words(0, 2, 0, -1), holds[Second0 := CHeld]), None)
  {
    Attempt(Words(0, 1, 0, -1), holds, Second0, NewC);
    Names();
    Ways();
    assert Scan(Words(0, 1, 0, -1), [I], false, 8) == None;
    assert LockAll(Words(0, 1, 0, -1), [I]) == Words(0, 2, 0, -1);
  }

  const RenameHolds: map<Token, Hold> := map[First0 := BHeld, Second0 := CHeld]

  lemma {:induction false} RenameGranted()
    ensures TryGet2(Core(Dirs(), Words(0, 0, 0, 0), map[]), 0, OldB, NewC, 9, 9) ==
              (Core(Dirs(), Words(0, 2, 0, -1), RenameHolds), None)
  {
    hide Try, Words;
    OldBGranted();
    NewCGranted(map[First0 := BHeld]);
    assert map[First0 := BHeld][Second0 := CHeld] == RenameHolds;
  }

  /** The root itself is never locked. */
  lemma {:induction false} OnRootGranted(locks: Locks, holds: map<Token, Hold>, t: Token)
    requires t !in holds
    ensures Try(Core(Dirs(), locks, holds), t, OnRoot, 9) == (Core(Dirs(), locks, holds[t := RootHeld]), None)
  {
    Attempt(locks, holds, t, OnRoot);
    Names();
    Ways();
    assert LockAll(locks, []) == locks;
  }

  /** Reading a adds a reader to a and to i. */
  lemma {:induction false} OnAGranted(i: int, a: int, b: int, holds: map<Token, Hold>)
    requires First2 !in holds && i >= 0 && a >= 0
    ensures Try(Core(Dirs(), Words(0, i, a, b), holds), First2, OnA, 9) ==
              (Core(Dirs(), Words(0, i + 1, a + 1, b), holds[First2 := AHeld]), None)
  {
    var locks := Words(0, i, a, b);
    Attempt(locks, holds, First2, OnA);
    Names();
    Ways();
    assert [A, I][1..] == [I];
    assert Scan(locks, [I], false, 8) == None;
    assert Scan(locks, [A, I], false, 9) == None;
    assert LockAll(locks, [A, I]) == Words(0, i + 1, a + 1, b);
  }

  /** Going through b and i is refused while b or i is closed to readers. */
  lemma {:induction false} InBRefused(i: int, a: int, b: int, holds: map<Token, Hold>)
    requires Second2 !in holds && (b < 0 || i < 0)
    ensures Try(Core(Dirs(), Words(0, i, a, b), holds), Second2, InB, 9) ==
              (Core(Dirs(), Words(0, i, a, b), holds), Some(Again))
  {
    var locks := Words(0, i, a, b);
    Attempt(locks, holds, Second2, InB);
    Names();
    Ways();
    assert [B, I][1..] == [I];
    assert b >= 0 ==> Scan(locks, [I], false, 7) == Some(Again);
    assert Scan(locks, [B, I], false, 8) == Some(Again);
  }

  // ----- the first six steps, common to both runs

  lemma {:induction false} MakeDirs() returns (s: State)
    ensures s == State(Core(Dirs(), Words(0, 0, 0, 0), map[]), [], {})
    ensures Run(Initial(), [Find(I, ROOT, "i"), Find(A, I, "a"), Find(B, I, "b")], s)
  {
    var s0 := Initial();
    var s1 := Apply(s0, Find(I, ROOT, "i"));
    var s2 := Apply(s1, Find(A, I, "a"));
    s := Apply(s2, Find(B, I, "b"));
    assert "i" != "a" && "a" != "b" by {
      assert "i"[0] != "a"[0] && "a"[0] != "b"[0];
    }
    assert s.core.tree.links == Links();
    assert s.core.tree.names == Dirs().names;
    assert s.core.locks == Words(0, 0, 0, 0);
    RunOfThree(s0, Find(I, ROOT, "i"), Find(A, I, "a"), Find(B, I, "b"), s1, s2, s);
  }

  lemma RunOfThree(s0: State, a: Step, b: Step, c: Step, s1: State, s2: State, s3: State)
    requires Enabled(s0, a) && s1 == Apply(s0, a) && Enabled(s1, b) && s2 == Apply(s1, b) && Enabled(s2, c) && s3 == Apply(s2, c)
    ensures Run(s0, [a, b, c], s3)
  {
    assert [a, b, c][1..] == [b, c] && [b, c][1..] == [c];
    assert Run(s3, [], s3);
    assert Run(s2, [c], s3);
    assert Run(s1, [b, c], s3);
  }

  /** b is being renamed, some request works on the root, and the link waits. */
  const Waits: State :=
    State(Core(Dirs(), Words(0, 2, 0, -1), RenameHolds[First1 := RootHeld]), [Link2], {0, 1})

  lemma {:induction false} RunToWaits() returns (steps: seq<Step>)
    ensures Run(Initial(), steps, Waits)
  {
    hide Run, Words, TryGet, Initial;
    var s3 := MakeDirs();
    steps := [Find(I, ROOT, "i"), Find(A, I, "a"), Find(B, I, "b")];

    RenameGranted();
    var core4 := Core(Dirs(), Words(0, 2, 0, -1), RenameHolds);
    var s4 := State(core4, [], {0});
    ExtendRun(Initial(), steps, s3, GetPath2(0, OldB, NewC, 9, 9), s4);
    steps := steps + [GetPath2(0, OldB, NewC, 9, 9)];

    OnRootGranted(core4.locks, core4.holds, First1);
    var s5 := State(Waits.core, [], {0, 1});
    ExtendRun(Initial(), steps, s4, GetPath(1, OnRoot, 9), s5);
    steps := steps + [GetPath(1, OnRoot, 9)];

    LinkQueues(Waits.core);
    ExtendRun(Initial(), steps, s5, GetPath2(2, OnA, InB, 9, 9), Waits);
    steps := steps + [GetPath2(2, OnA, InB, 9, 9)];
  }

  /** The link gets its first path, is refused the second, and gives back the first. */
  lemma {:induction false} LinkQueues(s: Core)
    requires s == Core(Dirs(), Words(0, 2, 0, -1), s.holds) && First2 !in s.holds && Second2 !in s.holds
    ensures TryGet2(s, 2, OnA, InB, 9, 9) == (s, Some(Again))
  {
    OnAGranted(2, 0, -1, s.holds);
    var s1 := Core(Dirs(), Words(0, 3, 1, -1), s.holds[First2 := AHeld]);
    InBRefused(3, 1, -1, s1.holds);
    Ways();
    assert SetLock(s1.locks, None, 0) == s1.locks;
    assert UnlockAll(s1.locks, [A, I]) == s.locks;
    assert s1.holds - {First2} == s.holds;
  }

  // ----- the first run: the head waits for ever

  /** Someone on the root is done, so the waiters are woken: the link gets its
      first path and, heading the queue, keeps it. */
  const Half: State := State(Core(Dirs(), Words(0, 3, 1, -1), RenameHolds[First2 := AHeld]), [Link2], {0})

  lemma {:induction false} FreeRoot(s: Core, req: nat, h: map<Token, Hold>)
    requires s.tree == Dirs() && Token(req, true) !in s.holds
    requires Token(req, false) in s.holds && s.holds[Token(req, false)] == RootHeld && h == s.holds - {Token(req, false)}
    ensures ReleaseBoth(s, req) == Core(Dirs(), s.locks, h)
  {
  }

  lemma {:induction false} WakeLinkAlone(s: State, mem: Memory, core: Core, w: Waiter)
    requires |s.queue| == 1 && Wakeup(s.core, s.queue[0], true, mem) == (core, w)
    ensures WakeFrom(s, 0, mem) == State(core, [w], s.granted)
  {
  }

  lemma {:induction false} StepToHalf()
    ensures Enabled(Waits, FreePath(1, Enough)) && Apply(Waits, FreePath(1, Enough)) == Half
  {
    hide WakeFrom, ReleaseBoth, Try, Words;
    var h := RenameHolds;
    assert h == Waits.core.holds - {First1};
    FreeRoot(Waits.core, 1, h);
    OnAGranted(2, 0, -1, h);
    InBRefused(3, 1, -1, Half.core.holds);
    WakeLinkAlone(State(Core(Dirs(), Words(0, 2, 0, -1), h), [Link2], {0}), Enough, Half.core, Link2);
    assert Waits.granted - {1} == {0};
  }

  /** A request to rename /i finds it read-locked, and marks it. */
  const WaitI: Waiter := Paths(3, OldI, Some(NewJ), Waiting)
  const Marked: State := State(Half.core.(locks := Words(0, 3 + INT_MIN, 1, -1)), [Link2, WaitI], {0})

  lemma {:induction false} StepToMarked()
    ensures Enabled(Half, GetPath2(3, OldI, NewJ, 9, 9)) && Apply(Half, GetPath2(3, OldI, NewJ, 9, 9)) == Marked
  {
    Attempt(Half.core.locks, Half.core.holds, First3, OldI);
    Names();
    assert Half.core.locks[I := 3 + INT_MIN] == Marked.core.locks;
  }

  /** b has been renamed; only the link holds locks now, on its first path. */
  const ShutOut: State :=
    State(Core(Dirs(), Words(0, 1 + INT_MIN, 1, 0), map[First2 := AHeld]), [Link2, WaitI], {})

  lemma FreeRenameWords()
    ensures UnlockAll(SetLock(Words(0, 3 + INT_MIN, 1, -1), Some(B), 0), [I]) == Words(0, 2 + INT_MIN, 1, 0)
    ensures UnlockAll(SetLock(Words(0, 2 + INT_MIN, 1, 0), None, 0), [I]) == Words(0, 1 + INT_MIN, 1, 0)
  {
    assert SetLock(Words(0, 3 + INT_MIN, 1, -1), Some(B), 0) == Words(0, 3 + INT_MIN, 1, 0);
  }

  lemma TakeTwoOut(a: Token, b: Token, c: Token, x: Hold, y: Hold, z: Hold)
    requires a != b && a != c && b != c
    ensures map[a := x, b := y][c := z] - {a} == map[b := y, c := z]
    ensures map[b := y, c := z] - {b} == map[c := z]
  {
  }

  lemma {:induction false} FreeRename()
    ensures ReleaseBoth(Marked.core, 0) == ShutOut.core
  {
    hide UnlockAll, SetLock, Words, Links;
    Ways();
    FreeRenameWords();
    TakeTwoOut(First0, Second0, First2, BHeld, CHeld, AHeld);
  }

  /** The rename of /i is refused its old name, gets its new one, and gives it back. */
  lemma {:induction false} WakeOfRename()
    ensures Wakeup(ShutOut.core, WaitI, false, Enough) == (ShutOut.core, WaitI)
  {
    var s := ShutOut.core;
    Attempt(s.locks, s.holds, First3, OldI);
    Attempt(s.locks, s.holds, Second3, NewJ);
    Names();
    Ways();
    assert s.locks[I := 1 + INT_MIN] == s.locks;
    assert LockAll(s.locks, []) == s.locks;
    var s2 := Core(Dirs(), s.locks, s.holds[Second3 := Hold(NewJ, None, [])]);
    assert UnlockAll(SetLock(s.locks, None, 0), []) == s.locks;
    assert s2.holds - {Second3} == s.holds;
  }

  lemma {:induction false} WakeShutOut()
    ensures WakeFrom(ShutOut, 0, Enough) == ShutOut
  {
    InBRefused(1 + INT_MIN, 1, 0, ShutOut.core.holds);
    assert Wakeup(ShutOut.core, Link2, true, Enough) == (ShutOut.core, Link2);
    WakeOfRename();
    hide Wakeup;
    assert ShutOut.queue[0 := Link2] == ShutOut.queue && ShutOut.queue[1 := WaitI] == ShutOut.queue;
    assert WakeFrom(ShutOut, 2, Enough) == ShutOut;
    assert WakeFrom(ShutOut, 1, Enough) == ShutOut;
  }

  lemma {:induction false} StepToShutOut()
    ensures Enabled(Marked, FreePath(0, Enough)) && Apply(Marked, FreePath(0, Enough)) == ShutOut
  {
    FreeRename();
    WakeShutOut();
    assert Marked.granted - {0} == ShutOut.granted;
  }

  lemma {:induction false} ShutOutHasMark()
    ensures HeadAlone(ShutOut) && SharedMark(ShutOut.core, AHeld, InB) && !Conflict(Dirs(), AHeld, InB)
    ensures First2 in ShutOut.core.holds && Second2 !in ShutOut.core.holds && ShutOut.core.holds[First2] == AHeld
  {
    Ways();
    Names();
    assert I in [B, I] && I in [A, I] && Word(ShutOut.core.locks, I) < TREELOCK_WRITE;
  }

  lemma {:induction false} RunToShutOut() returns (steps: seq<Step>)
    ensures Run(Initial(), steps, ShutOut)
  {
    hide Run, Enabled, Apply, Initial, Words;
    steps := RunToWaits();
    StepToHalf();
    ExtendRun(Initial(), steps, Waits, FreePath(1, Enough), Half);
    steps := steps + [FreePath(1, Enough)];
    StepToMarked();
    ExtendRun(Initial(), steps, Half, GetPath2(3, OldI, NewJ, 9, 9), Marked);
    steps := steps + [GetPath2(3, OldI, NewJ, 9, 9)];
    StepToShutOut();
    ExtendRun(Initial(), steps, Marked, FreePath(0, Enough), ShutOut);
    steps := steps + [FreePath(0, Enough)];
  }

  /** Progress fails: in a reachable state the head of the queue alone holds locks, its
      two paths do not exclude each other, and yet no run that memory suffices for ever
      completes it. A waiting mark on a directory that both its paths go through shuts
      the second path out, and only the head could clear it. */
  lemma {:induction false} DeadlockIsReachable() returns (steps: seq<Step>, s: State)
    ensures Run(Initial(), steps, s) && Inv(s) && HeadAlone(s)
    ensures var w := s.queue[0];
            && Token(w.req, false) in s.core.holds && w.path2.Some?
            && !Conflict(s.core.tree, s.core.holds[Token(w.req, false)], w.path2.value)
    ensures forall more, s' :: RunWithMemory(s, false, more, s') ==> s'.queue != [] && s'.queue[0] == s.queue[0]
  {
    hide Inv, Conflict, SharedMark, Run, Initial, RunWithMemory;
    steps := RunToShutOut();
    s := ShutOut;
    InitialInv();
    RunKeepsInv(Initial(), steps, s);
    ShutOutHasMark();
    forall more, s' | RunWithMemory(s, false, more, s') ensures s'.queue != [] && s'.queue[0] == s.queue[0] {
      SharedMarkIsForEver(s, false, more, s');
    }
  }

  // ----- the second run: a lock is lost

  const NoMem: Memory := _ => 0
  const Failed2: Waiter := Paths(2, OnA, Some(InB), Done(Some(NoMemory)))

  const TwoOnRoot: State :=
    State(Core(Dirs(), Words(0, 2, 0, -1), RenameHolds[First1 := RootHeld][First3 := RootHeld]), [Link2], {0, 1, 3})
  const FailedHead: State :=
    State(Core(Dirs(), Words(0, 2, 0, -1), RenameHolds[First3 := RootHeld]), [Failed2], {0, 3})
  const HalfAgain: State := State(Half.core, [Failed2], {0})
  const Forgotten: State := State(Half.core, [], {0})

  lemma {:induction false} LinkStarves(locks: Locks, holds: map<Token, Hold>)
    requires First2 !in holds && Second2 !in holds
    ensures Wakeup(Core(Dirs(), locks, holds), Link2, true, NoMem) == (Core(Dirs(), locks, holds), Failed2)
  {
    var core := Core(Dirs(), locks, holds);
    Ways();
    Names();
    assert Scan(locks, [A, I], false, 0) == Some(NoMemory);
    assert Try(core, First2, OnA, 0) == (core, Some(NoMemory));
  }

  /** A wake-up without memory: the waiter fails and is done. */
  lemma {:induction false} StepToFailedHead()
    ensures Enabled(TwoOnRoot, FreePath(1, NoMem)) && Apply(TwoOnRoot, FreePath(1, NoMem)) == FailedHead
  {
    hide WakeFrom, ReleaseBoth, Words, Wakeup;
    var h := RenameHolds[First3 := RootHeld];
    assert h == TwoOnRoot.core.holds - {First1};
    FreeRoot(TwoOnRoot.core, 1, h);
    LinkStarves(Words(0, 2, 0, -1), h);
    WakeLinkAlone(State(Core(Dirs(), Words(0, 2, 0, -1), h), [Link2], {0, 3}), NoMem, FailedHead.core, Failed2);
    assert TwoOnRoot.granted - {1} == {0, 3};
  }

  /** The next wake-up comes before its thread has left the queue. */
  lemma {:induction false} StepToHalfAgain()
    ensures Enabled(FailedHead, FreePath(3, Enough)) && Apply(FailedHead, FreePath(3, Enough)) == HalfAgain
  {
    hide WakeFrom, ReleaseBoth, Try, Words;
    var h := RenameHolds;
    assert h == FailedHead.core.holds - {First3};
    FreeRoot(FailedHead.core, 3, h);
    OnAGranted(2, 0, -1, h);
    InBRefused(3, 1, -1, Half.core.holds);
    WakeLinkAlone(State(Core(Dirs(), Words(0, 2, 0, -1), h), [Failed2], {0}), Enough, HalfAgain.core, Failed2);
    assert FailedHead.granted - {3} == {0};
  }

  lemma {:induction false} RunToForgotten() returns (steps: seq<Step>)
    ensures Run(Initial(), steps, Forgotten)
  {
    hide Run, Words, TryGet, WakeFrom, ReleaseBoth, Initial;
    steps := RunToWaits();
    OnRootGranted(Waits.core.locks, Waits.core.holds, First3);
    ExtendRun(Initial(), steps, Waits, GetPath(3, OnRoot, 9), TwoOnRoot);
    steps := steps + [GetPath(3, OnRoot, 9)];
    StepToFailedHead();
    ExtendRun(Initial(), steps, TwoOnRoot, FreePath(1, NoMem), FailedHead);
    steps := steps + [FreePath(1, NoMem)];
    StepToHalfAgain();
    ExtendRun(Initial(), steps, FailedHead, FreePath(3, Enough), HalfAgain);
    steps := steps + [FreePath(3, Enough)];
    assert IsDone(HalfAgain.queue[0], 2);
    assert Without(HalfAgain.queue, 0) == [];
    ExtendRun(Initial(), steps, HalfAgain, Dequeue(2), Forgotten);
    steps := steps + [Dequeue(2)];
  }

  /** A read lock is lost: it belongs to no granted request and to no waiter, and no run
      from there ever releases it. */
  lemma {:induction false} LeakIsReachable() returns (steps: seq<Step>, s: State, t: Token)
    ensures Run(Initial(), steps, s) && Lost(s, t)
    ensures forall more, s' :: Run(s, more, s') ==> Lost(s', t) && s'.core.holds[t] == s.core.holds[t]
  {
    hide Run, Initial, Inv;
    steps := RunToForgotten();
    s, t := Forgotten, First2;
    InitialInv();
    RunKeepsInv(Initial(), steps, s);
    assert Lost(s, t);
    forall more, s' | Run(s, more, s') ensures Lost(s', t) && s'.core.holds[t] == s.core.holds[t] {
      LostForEver(s, more, s', t);
    }
  }
}
