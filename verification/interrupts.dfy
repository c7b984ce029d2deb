/** Matching INTERRUPT messages with requests. Each step is what happens between
    taking and dropping the session lock; `find_interrupted` drops it in the middle,
    so a request may be freed while an interrupt still refers to it. */
module Interrupts {

  /** The identity of a `struct fuse_req`. */
  type Obj = nat

  /** An ordinary request; `listed` until `fuse_free_req`. */
  datatype Request = Request(unique: nat, ctr: int, listed: bool, interrupted: bool)

  /** An interrupt whose target has not been seen yet. */
  datatype Pending = Pending(intr: Obj, target: nat)

  /** `held` are the interrupts between the two ends of `find_interrupted`, each with
      the request it has found, and `told` those that have passed its middle;
      `bounced` are those to be answered with EAGAIN. */
  datatype State = State(
    requests: map<Obj, Request>, pending: seq<Pending>, held: map<Obj, Obj>, told: set<Obj>, bounced: set<Obj>,
    destroyed: multiset<Obj>, used: set<Obj>)

  datatype Step =
    /** `check_interrupt` and joining the list of requests. */
    | Receive(o: Obj, unique: nat)
    /** `do_interrupt`, up to dropping the lock. */
    | Interrupt(i: Obj, target: nat)
    /** The middle of `find_interrupted`. */
    | Notify(i: Obj)
    /** Its end, and that of `do_interrupt`. */
    | EndInterrupt(i: Obj)
    /** `fuse_free_req` of a request, and of an interrupt answered with EAGAIN. */
    | Free(o: Obj)
    | FreeBounced(i: Obj)

  // ----- steps

  /** The list walk of `find_interrupted`: a listed request with this id. */
  ghost predicate IsTarget(s: State, o: Obj, unique: nat) {
    o in s.requests && s.requests[o].listed && s.requests[o].unique == unique
  }

  ghost predicate HasTarget(s: State, unique: nat) {
    exists o :: IsTarget(s, o, unique)
  }

  ghost function Target(s: State, unique: nat): (o: Obj)
    requires HasTarget(s, unique)
    ensures IsTarget(s, o, unique)
  {
    var o :| IsTarget(s, o, unique); o
  }

  /** The walk along the pending interrupts: where `target` is first, or the end. */
  function PendingAt(pending: seq<Pending>, target: nat): (k: nat)
    ensures k <= |pending| && (k < |pending| ==> pending[k].target == target)
    ensures forall j :: 0 <= j < k ==> pending[j].target != target
  {
    if pending == [] || pending[0].target == target then 0 else 1 + PendingAt(pending[1..], target)
  }

  /** Objects are fresh, and the kernel does not give two requests one id at a time. */
  ghost predicate CanStep(s: State, step: Step) {
    match step
    case Receive(o, unique) => o !in s.used && !HasTarget(s, unique)
    case Interrupt(i, _) => i !in s.used
    case Notify(i) => i in s.held && s.held[i] in s.requests
    case EndInterrupt(i) => i in s.held && s.held[i] in s.requests && i in s.told
    case Free(o) => o in s.requests && s.requests[o].listed
    case FreeBounced(i) => i in s.bounced
  }

  /** One reference to request `o` goes; with the last one goes the request. */
  function Drop(s: State, o: Obj): State
    requires o in s.requests
  {
    var r := s.requests[o];
    if r.ctr - 1 == 0 then s.(requests := s.requests - {o}, destroyed := s.destroyed + multiset{o})
    else s.(requests := s.requests[o := r.(ctr := r.ctr - 1)])
  }

  ghost function Stepped(s: State, step: Step): State
    requires CanStep(s, step)
  {
    match step
    case Receive(o, unique) =>
      var k := PendingAt(s.pending, unique);
      var used := s.used + {o};
      if k < |s.pending| then
        s.(requests := s.requests[o := Request(unique, 1, true, true)], pending := s.pending[..k] + s.pending[k + 1..],
           destroyed := s.destroyed + multiset{s.pending[k].intr}, used := used)
      else
        var requests := s.requests[o := Request(unique, 1, true, false)];
        if s.pending == [] then s.(requests := requests, used := used)
        else s.(requests := requests, pending := s.pending[1..], bounced := s.bounced + {s.pending[0].intr}, used := used)
    case Interrupt(i, target) =>
      var used := s.used + {i};
      if HasTarget(s, target) then
        var o := Target(s, target);
        s.(requests := s.requests[o := s.requests[o].(ctr := s.requests[o].ctr + 1)], held := s.held[i := o], used := used)
      else if PendingAt(s.pending, target) < |s.pending| then s.(destroyed := s.destroyed + multiset{i}, used := used)
      else s.(pending := s.pending + [Pending(i, target)], used := used)
    case Notify(i) =>
      var o := s.held[i];
      s.(requests := s.requests[o := s.requests[o].(interrupted := true)], told := s.told + {i})
    case EndInterrupt(i) =>
      var s1 := Drop(s, s.held[i]);
      s1.(held := s.held - {i}, destroyed := s1.destroyed + multiset{i})
    case Free(o) => Drop(s.(requests := s.requests[o := s.requests[o].(listed := false)]), o)
    case FreeBounced(i) => s.(bounced := s.bounced - {i}, destroyed := s.destroyed + multiset{i})
  }

  // ----- the invariant

  ghost function Holders(held: map<Obj, Obj>, o: Obj): set<Obj> {
    set i | i in held && held[i] == o
  }

  /** A request is referred to by the list and by the interrupts that have found it. */
  ghost predicate CountsOk(s: State) {
    forall o :: o in s.requests ==>
      s.requests[o].ctr == (if s.requests[o].listed then 1 else 0) + |Holders(s.held, o)| > 0
  }

  ghost predicate HeldOk(s: State) {
    && s.told <= s.used
    && forall i :: i in s.held ==> s.held[i] in s.requests && (i in s.told ==> s.requests[s.held[i]].interrupted)
  }

  /** Pending interrupts have different targets, and none of them is there. */
  ghost predicate PendingOk(s: State) {
    && (forall j, k :: 0 <= j < k < |s.pending| ==> s.pending[j].target != s.pending[k].target)
    && (forall k :: 0 <= k < |s.pending| ==> !HasTarget(s, s.pending[k].target))
    && forall o, p :: o in s.requests && p in s.requests && o != p && s.requests[o].listed && s.requests[p].listed ==>
         s.requests[o].unique != s.requests[p].unique
  }

  function Intrs(pending: seq<Pending>): seq<Obj> {
    seq(|pending|, k requires 0 <= k < |pending| => pending[k].intr)
  }

  /** In how many places an object is. */
  ghost function Places(s: State, i: Obj): nat {
    (if i in s.requests then 1 else 0) + (if i in s.held then 1 else 0) + (if i in s.bounced then 1 else 0)
    + multiset(Intrs(s.pending))[i] + s.destroyed[i]
  }

  /** Every object is in exactly one place, so none is destroyed twice or after that
      still referred to. */
  ghost predicate PlacesOk(s: State) {
    forall i :: Places(s, i) == if i in s.used then 1 else 0
  }

  ghost predicate Inv(s: State) {
    HeldOk(s) && CountsOk(s) && PendingOk(s) && PlacesOk(s)
  }

  lemma {:induction false} IntrsAppend(pending: seq<Pending>, p: Pending)
    ensures multiset(Intrs(pending + [p])) == multiset(Intrs(pending)) + multiset{p.intr}
  {
    assert Intrs(pending + [p]) == Intrs(pending) + [p.intr];
  }

  lemma {:induction false} IntrsRemove(pending: seq<Pending>, k: nat)
    requires k < |pending|
    ensures multiset(Intrs(pending)) == multiset(Intrs(pending[..k] + pending[k + 1..])) + multiset{pending[k].intr}
  {
    var a, b := pending[..k], pending[k + 1..];
    assert pending == a + [pending[k]] + b;
    assert Intrs(pending) == Intrs(a) + [pending[k].intr] + Intrs(b);
    assert Intrs(a + b) == Intrs(a) + Intrs(b);
  }

  /** Fewer listed requests, or fewer pending interrupts, keep the two apart. */
  lemma {:induction false} FewerKeepPending(s: State, s': State)
    requires PendingOk(s) && s'.pending == s.pending
    requires forall o :: o in s'.requests && s'.requests[o].listed ==>
               o in s.requests && s.requests[o].listed && s'.requests[o].unique == s.requests[o].unique
    ensures PendingOk(s')
  {
    forall k | 0 <= k < |s.pending| ensures !HasTarget(s', s.pending[k].target) {
      if o :| IsTarget(s', o, s.pending[k].target) {
        assert IsTarget(s, o, s.pending[k].target);
      }
    }
  }

  lemma {:induction false} DropKeeps(s: State, o: Obj, s': State)
    requires o in s.requests && s' == Drop(s, o) && HeldOk(s)
    requires s.requests[o].ctr == 1 + (if s.requests[o].listed then 1 else 0) + |Holders(s.held, o)|
    requires forall x :: x in s.requests && x != o ==>
               s.requests[x].ctr == (if s.requests[x].listed then 1 else 0) + |Holders(s.held, x)| > 0
    ensures HeldOk(s') && CountsOk(s')
  {
    forall i | i in s'.held ensures s'.held[i] in s'.requests && (i in s'.told ==> s'.requests[s'.held[i]].interrupted) {
      assert i in Holders(s.held, s.held[i]);
    }
  }

  lemma {:induction false} DropMoves(s: State, o: Obj, s': State)
    requires o in s.requests && s' == Drop(s, o)
    ensures PendingOk(s) ==> PendingOk(s')
    ensures forall i :: Places(s', i) == Places(s, i)
  {
    if PendingOk(s) {
      FewerKeepPending(s, s');
    }
  }

  /** What remains pending when a request arrives: the interrupts before and after
      the one that goes, the match or else the first. */
  lemma {:induction false} ReceivePending(s: State, o: Obj, unique: nat, s': State)
    requires PendingOk(s) && CanStep(s, Receive(o, unique)) && s' == Stepped(s, Receive(o, unique))
    ensures PendingOk(s')
  {
    var k := PendingAt(s.pending, unique);
    var gone := if k < |s.pending| then k else 0;
    forall j | 0 <= j < |s'.pending|
      ensures s'.pending[j] == s.pending[if j < gone then j else j + 1] && s'.pending[j].target != unique
      ensures !HasTarget(s', s'.pending[j].target)
    {
      var i := if j < gone then j else j + 1;
      assert s'.pending[j] == s.pending[i];
      if x :| IsTarget(s', x, s.pending[i].target) {
        assert IsTarget(s, x, s.pending[i].target);
      }
    }
    forall x | x in s.requests && s.requests[x].listed ensures s.requests[x].unique != unique {
      assert !IsTarget(s, x, unique);
    }
  }

  /** A pending interrupt that leaves the list is destroyed or bounced: it has a place still. */
  lemma {:induction false} LeavesPending(pending: seq<Pending>, k: nat, left: seq<Pending>, i: Obj)
    requires k < |pending| && left == pending[..k] + pending[k + 1..]
    ensures multiset(Intrs(pending))[i] == multiset(Intrs(left))[i] + if i == pending[k].intr then 1 else 0
  {
    IntrsRemove(pending, k);
    hide Intrs;
  }

  lemma {:induction false} ReceivePlaces(s: State, o: Obj, unique: nat, s': State, i: Obj)
    requires CanStep(s, Receive(o, unique)) && s' == Stepped(s, Receive(o, unique)) && o !in s.requests
    requires s.pending != [] ==> s.pending[0].intr !in s.bounced
    ensures Places(s', i) == Places(s, i) + if i == o then 1 else 0
  {
    hide HasTarget, Intrs;
    var k := PendingAt(s.pending, unique);
    if k < |s.pending| {
      LeavesPending(s.pending, k, s'.pending, i);
    } else if s.pending != [] {
      assert s'.pending == s.pending[..0] + s.pending[1..];
      LeavesPending(s.pending, 0, s'.pending, i);
    }
  }

  lemma {:induction false} ReceiveCounts(s: State, o: Obj, unique: nat, s': State)
    requires HeldOk(s) && CountsOk(s) && o !in s.requests
    requires CanStep(s, Receive(o, unique)) && s' == Stepped(s, Receive(o, unique))
    ensures HeldOk(s') && CountsOk(s')
  {
    NoHolders(s.held, o);
    hide Holders, HasTarget;
  }

  lemma FirstIsElsewhere(s: State)
    requires PlacesOk(s)
    ensures s.pending != [] ==> s.pending[0].intr !in s.bounced
  {
    if s.pending != [] {
      var i := s.pending[0].intr;
      assert Intrs(s.pending)[0] == i;
      assert i in Intrs(s.pending) && Places(s, i) <= 1;
    }
  }

  /** An object not used so far is nowhere. */
  lemma NewIsNowhere(s: State, i: Obj)
    requires PlacesOk(s) && i !in s.used
    ensures i !in s.requests && i !in s.held
  {
    assert Places(s, i) == 0;
  }

  lemma {:induction false} ReceiveKeepsInv(s: State, o: Obj, unique: nat, s': State)
    requires Inv(s) && CanStep(s, Receive(o, unique)) && s' == Stepped(s, Receive(o, unique))
    ensures Inv(s')
  {
    hide Holders, Places, PendingOk, HeldOk, CountsOk;
    NewIsNowhere(s, o);
    FirstIsElsewhere(s);
    ReceivePending(s, o, unique, s');
    ReceiveCounts(s, o, unique, s');
    forall i ensures Places(s', i) == Places(s, i) + if i == o then 1 else 0 {
      ReceivePlaces(s, o, unique, s', i);
    }
  }

  lemma {:induction false} NoHolders(held: map<Obj, Obj>, o: Obj)
    requires forall i :: i in held ==> held[i] != o
    ensures |Holders(held, o)| == 0
  {
    assert Holders(held, o) == {};
  }

  lemma {:induction false} HoldersChange(held: map<Obj, Obj>, i: Obj, o: Obj, x: Obj)
    requires i !in held
    ensures |Holders(held[i := o], x)| == |Holders(held, x)| + if x == o then 1 else 0
  {
    assert Holders(held[i := o], x) == if x == o then Holders(held, x) + {i} else Holders(held, x);
  }

  lemma {:induction false} InterruptPending(s: State, i: Obj, target: nat, s': State)
    requires PendingOk(s) && CanStep(s, Interrupt(i, target)) && s' == Stepped(s, Interrupt(i, target))
    ensures PendingOk(s')
  {
    if HasTarget(s, target) || PendingAt(s.pending, target) < |s.pending| {
      FewerKeepPending(s, s');
    } else {
      forall k | 0 <= k < |s'.pending| ensures !HasTarget(s', s'.pending[k].target) {
        if x :| IsTarget(s', x, s'.pending[k].target) {
          assert IsTarget(s, x, s'.pending[k].target);
        }
      }
    }
  }

  lemma {:induction false} InterruptPlaces(s: State, i: Obj, target: nat, s': State, x: Obj)
    requires CanStep(s, Interrupt(i, target)) && s' == Stepped(s, Interrupt(i, target)) && i !in s.held
    ensures Places(s', x) == Places(s, x) + if x == i then 1 else 0
  {
    IntrsAppend(s.pending, Pending(i, target));
  }

  lemma {:induction false} InterruptCounts(s: State, i: Obj, target: nat, s': State)
    requires HeldOk(s) && CountsOk(s) && i !in s.held && i !in s.used
    requires CanStep(s, Interrupt(i, target)) && s' == Stepped(s, Interrupt(i, target))
    ensures HeldOk(s') && CountsOk(s')
  {
    hide Holders;
    if HasTarget(s, target) {
      forall x | x in s'.requests
        ensures |Holders(s'.held, x)| == |Holders(s.held, x)| + if x == Target(s, target) then 1 else 0
      {
        HoldersChange(s.held, i, Target(s, target), x);
      }
    }
  }

  lemma {:induction false} InterruptKeepsInv(s: State, i: Obj, target: nat, s': State)
    requires Inv(s) && CanStep(s, Interrupt(i, target)) && s' == Stepped(s, Interrupt(i, target))
    ensures Inv(s')
  {
    hide Holders, Places, PendingOk, HeldOk, CountsOk;
    NewIsNowhere(s, i);
    InterruptPending(s, i, target, s');
    InterruptCounts(s, i, target, s');
    forall x ensures Places(s', x) == Places(s, x) + if x == i then 1 else 0 {
      InterruptPlaces(s, i, target, s', x);
    }
  }

  /** One holder less: the request is counted once too often, which `Drop` corrects. */
  lemma {:induction false} EndCounts(s: State, i: Obj, s1: State)
    requires HeldOk(s) && CountsOk(s) && i in s.held && s.held[i] in s.requests
    requires s1 == Drop(s.(held := s.held - {i}), s.held[i])
    ensures HeldOk(s1) && CountsOk(s1)
  {
    hide Holders;
    var o, s0 := s.held[i], s.(held := s.held - {i});
    assert s0.held[i := o] == s.held;
    forall x | x in s.requests ensures |Holders(s.held, x)| == |Holders(s0.held, x)| + if x == o then 1 else 0 {
      HoldersChange(s0.held, i, o, x);
    }
    DropKeeps(s0, o, s1);
  }

  /** From the interrupts being processed to the destroyed objects. */
  lemma EndMoves(s: State, i: Obj, s': State)
    requires CanStep(s, EndInterrupt(i)) && s' == Stepped(s, EndInterrupt(i))
    ensures PendingOk(s) ==> PendingOk(s')
    ensures forall x :: Places(s', x) == Places(s, x)
  {
    if PendingOk(s) {
      FewerKeepPending(s, s');
    }
  }

  lemma {:induction false} EndKeepsInv(s: State, i: Obj, s': State)
    requires Inv(s) && CanStep(s, EndInterrupt(i)) && s' == Stepped(s, EndInterrupt(i))
    ensures Inv(s')
  {
    hide Holders, PendingOk, Places;
    var s1 := Drop(s.(held := s.held - {i}), s.held[i]);
    EndCounts(s, i, s1);
    EndMoves(s, i, s');
    assert s' == s1.(destroyed := s1.destroyed + multiset{i});
  }

  lemma {:induction false} FreeKeepsInv(s: State, o: Obj, s': State)
    requires Inv(s) && CanStep(s, Free(o)) && s' == Stepped(s, Free(o))
    ensures Inv(s')
  {
    hide Holders, PendingOk;
    var s0 := s.(requests := s.requests[o := s.requests[o].(listed := false)]);
    FewerKeepPending(s, s0);
    DropKeeps(s0, o, s');
    DropMoves(s0, o, s');
  }

  lemma {:induction false} NotifyKeepsInv(s: State, i: Obj, s': State)
    requires Inv(s) && CanStep(s, Notify(i)) && s' == Stepped(s, Notify(i))
    ensures Inv(s')
  {
    FewerKeepPending(s, s');
    hide PendingOk;
  }

  lemma {:induction false} FreeBouncedKeepsInv(s: State, i: Obj, s': State)
    requires Inv(s) && CanStep(s, FreeBounced(i)) && s' == Stepped(s, FreeBounced(i))
    ensures Inv(s')
  {
    FewerKeepPending(s, s');
    hide PendingOk;
  }

  lemma {:induction false} StepKeepsInv(s: State, step: Step, s': State)
    requires Inv(s) && CanStep(s, step) && s' == Stepped(s, step)
    ensures Inv(s')
  {
    hide Inv, CanStep, Stepped;
    match step {
      case Receive(o, unique) => ReceiveKeepsInv(s, o, unique, s');
      case Interrupt(i, target) => InterruptKeepsInv(s, i, target, s');
      case Notify(i) => NotifyKeepsInv(s, i, s');
      case EndInterrupt(i) => EndKeepsInv(s, i, s');
      case Free(o) => FreeKeepsInv(s, o, s');
      case FreeBounced(i) => FreeBouncedKeepsInv(s, i, s');
    }
  }

  // ----- runs

  function Initial(): State {
    State(map[], [], map[], {}, {}, multiset{}, {})
  }

  ghost predicate Run(s: State, steps: seq<Step>, s': State)
    decreases |steps|
  {
    if steps == [] then s' == s else CanStep(s, steps[0]) && Run(Stepped(s, steps[0]), steps[1..], s')
  }

  lemma {:induction false} RunKeepsInv(s: State, steps: seq<Step>, s': State)
    requires Inv(s) && Run(s, steps, s')
    ensures Inv(s')
    decreases |steps|
  {
    hide Inv, CanStep, Stepped;
    if steps != [] {
      StepKeepsInv(s, steps[0], Stepped(s, steps[0]));
      RunKeepsInv(Stepped(s, steps[0]), steps[1..], s');
    }
  }

  /** In every reachable state: no object is destroyed twice, or destroyed while the
      list or an interrupt in progress still refers to it, so the two ends of
      `find_interrupted` never touch freed memory. */
  lemma {:induction false} DestroyedOnceAndLast(steps: seq<Step>, s: State, i: Obj)
    requires Run(Initial(), steps, s)
    ensures s.destroyed[i] <= 1
    ensures i in s.destroyed ==> i !in s.requests && i !in s.held && i !in s.bounced && forall j :: j in s.held ==> s.held[j] != i
    ensures i in s.held ==> s.held[i] in s.requests && s.requests[s.held[i]].ctr > 0
  {
    RunKeepsInv(Initial(), steps, s);
    assert Places(s, i) == if i in s.used then 1 else 0;
  }

  /** In every reachable state the targets of pending interrupts are pairwise distinct
      and none of them is a request in progress. */
  lemma {:induction false} PendingTargetsAreApart(steps: seq<Step>, s: State, j: nat, k: nat, o: Obj)
    requires Run(Initial(), steps, s) && k < |s.pending|
    ensures j < k ==> s.pending[j].target != s.pending[k].target
    ensures o in s.requests && s.requests[o].listed ==> s.requests[o].unique != s.pending[k].target
  {
    RunKeepsInv(Initial(), steps, s);
    assert !IsTarget(s, o, s.pending[k].target);
  }

  /** In every reachable state each object so far is in exactly one place: for an
      interrupt, in progress on a request it matched, pending, to be answered with
      EAGAIN, or done with. */
  lemma {:induction false} EachInOnePlace(steps: seq<Step>, s: State, i: Obj)
    requires Run(Initial(), steps, s) && i in s.used
    ensures (i in s.requests) || (i in s.held) || (i in s.bounced) || (i in Intrs(s.pending)) || i in s.destroyed
    ensures multiset(Intrs(s.pending))[i] + multiset(s.held.Keys)[i] + multiset(s.bounced)[i]
            + multiset(s.requests.Keys)[i] + s.destroyed[i] == 1
  {
    RunKeepsInv(Initial(), steps, s);
    assert Places(s, i) == 1;
    assert i in Intrs(s.pending) <==> multiset(Intrs(s.pending))[i] > 0;
  }

  /** An interrupt that has found its request leaves it marked as interrupted, and it
      frees it exactly if the request is not listed any more and no other interrupt
      refers to it. */
  lemma {:induction false} FoundRequestIsInterrupted(steps: seq<Step>, s: State, i: Obj)
    requires Run(Initial(), steps, s) && CanStep(s, EndInterrupt(i))
    ensures var o, s' := s.held[i], Stepped(s, EndInterrupt(i));
            && s.requests[o].interrupted
            && (o in s'.destroyed <==> !s.requests[o].listed && |Holders(s.held, o)| == 1)
  {
    RunKeepsInv(Initial(), steps, s);
    hide Holders, PendingOk, Run;
    var o := s.held[i];
    OneIsNotTheOther(s, i, o);
    hide PlacesOk;
    assert s.requests[o].ctr == (if s.requests[o].listed then 1 else 0) + |Holders(s.held, o)|;
    assert Stepped(s, EndInterrupt(i)).destroyed[o] == if s.requests[o].ctr - 1 == 0 then 1 else 0;
  }

  lemma OneIsNotTheOther(s: State, i: Obj, o: Obj)
    requires PlacesOk(s) && i in s.held && o in s.requests
    ensures i != o && s.destroyed[o] == 0 && |Holders(s.held, s.held[i])| > 0
  {
    assert Places(s, o) <= 1;
    assert i in Holders(s.held, s.held[i]);
  }

  /** A request that an interrupt has overtaken starts out interrupted, and exactly
      such a one does. */
  lemma {:induction false} LateRequestIsInterrupted(s: State, o: Obj, unique: nat, s': State)
    requires Inv(s) && CanStep(s, Receive(o, unique)) && s' == Stepped(s, Receive(o, unique))
    ensures s'.requests[o].interrupted <==> exists p :: p in s.pending && p.target == unique
    ensures forall p :: p in s.pending && p.target == unique ==> p.intr in s'.destroyed && p !in s'.pending
  {
    var k := PendingAt(s.pending, unique);
    forall p | p in s.pending && p.target == unique ensures k < |s.pending| && s.pending[k] == p {
      var j :| 0 <= j < |s.pending| && s.pending[j] == p;
    }
  }

  // ----- what becomes of an interrupt

  lemma {:induction false} PendingAtFinds(pending: seq<Pending>, target: nat, j: nat)
    requires j < |pending| && pending[j].target == target
    requires forall a, b :: 0 <= a < b < |pending| ==> pending[a].target != pending[b].target
    ensures PendingAt(pending, target) == j
  {
  }

  /** A request that arrives without an interrupt waiting for it bounces the one that has
      waited longest, if there is any: that one is to be answered with EAGAIN, and the
      others move up. */
  lemma {:induction false} ArrivalBounces(s: State, o: Obj, unique: nat, s': State)
    requires Inv(s) && CanStep(s, Receive(o, unique)) && s' == Stepped(s, Receive(o, unique))
    requires forall p :: p in s.pending ==> p.target != unique
    ensures s'.requests == s.requests[o := Request(unique, 1, true, false)]
    ensures s'.destroyed == s.destroyed && s'.held == s.held
    ensures if s.pending == [] then s'.pending == [] && s'.bounced == s.bounced
            else s.pending == [Pending(s.pending[0].intr, s.pending[0].target)] + s'.pending
                 && s'.bounced == s.bounced + {s.pending[0].intr}
  {
    forall j | 0 <= j < |s.pending| ensures s.pending[j].target != unique {
      assert s.pending[j] in s.pending;
    }
  }

  /** One that an interrupt waits for takes it off the list and bounces nobody. */
  lemma {:induction false} ArrivalMatches(s: State, o: Obj, unique: nat, j: nat, s': State)
    requires Inv(s) && CanStep(s, Receive(o, unique)) && s' == Stepped(s, Receive(o, unique))
    requires j < |s.pending| && s.pending[j].target == unique
    ensures s'.requests == s.requests[o := Request(unique, 1, true, true)]
    ensures s'.pending == s.pending[..j] + s.pending[j + 1..]
    ensures s'.destroyed == s.destroyed + multiset{s.pending[j].intr} && s'.bounced == s.bounced && s'.held == s.held
  {
    PendingAtFinds(s.pending, unique, j);
  }

  /** An interrupt takes hold of its request if that is in progress, is dropped if another
      one waits for the same request, and else waits behind all others. */
  lemma {:induction false} InterruptExactly(s: State, i: Obj, target: nat, s': State)
    requires Inv(s) && CanStep(s, Interrupt(i, target)) && s' == Stepped(s, Interrupt(i, target))
    ensures s'.bounced == s.bounced
    ensures forall o :: IsTarget(s, o, target) ==>
              && s'.held == s.held[i := o] && s'.pending == s.pending && s'.destroyed == s.destroyed
              && s'.requests == s.requests[o := s.requests[o].(ctr := s.requests[o].ctr + 1)]
    ensures !HasTarget(s, target) && (exists p :: p in s.pending && p.target == target) ==>
              s' == s.(destroyed := s.destroyed + multiset{i}, used := s.used + {i})
    ensures !HasTarget(s, target) && (forall p :: p in s.pending ==> p.target != target) ==>
              s' == s.(pending := s.pending + [Pending(i, target)], used := s.used + {i})
  {
    forall o | IsTarget(s, o, target) ensures HasTarget(s, target) && Target(s, target) == o {
    }
    var k := PendingAt(s.pending, target);
    assert k < |s.pending| ==> s.pending[k] in s.pending;
    if p :| p in s.pending && p.target == target {
      var j :| 0 <= j < |s.pending| && s.pending[j] == p;
      PendingAtFinds(s.pending, target, j);
    }
  }

  ghost predicate Bounces(s: State, step: Step) {
    step.Receive? && forall p :: p in s.pending ==> p.target != step.unique
  }

  /** A pending interrupt is bounced as the oldest, is matched with its request, or stays
      and moves up when an older one goes. */
  lemma {:induction false} PendingMovesUp(s: State, step: Step, s': State, k: nat)
    requires Inv(s) && CanStep(s, step) && s' == Stepped(s, step) && k < |s.pending|
    ensures var p := s.pending[k];
            || (k == 0 && Bounces(s, step) && p.intr in s'.bounced && p !in s'.pending)
            || (step.Receive? && step.unique == p.target && p.intr in s'.destroyed && p !in s'.pending
                && step.o in s'.requests && s'.requests[step.o].interrupted)
            || exists j :: 0 <= j <= k - (if Bounces(s, step) then 1 else 0) && j < |s'.pending| && s'.pending[j] == p
  {
    if step.Receive? {
      ArrivalMoves(s, step.o, step.unique, s', k);
    } else {
      hide Inv;
      assert s'.pending[k] == s.pending[k];
    }
  }

  /** After an arrival: without the one that it matched, or without the oldest. */
  lemma {:induction false} MatchedLeaves(s: State, o: Obj, unique: nat, s': State, k: nat, m: nat)
    requires Inv(s) && CanStep(s, Receive(o, unique)) && s' == Stepped(s, Receive(o, unique)) && k < |s.pending|
    requires m < |s.pending| && s.pending[m].target == unique
    ensures var p := s.pending[k];
            if k == m then p.intr in s'.destroyed && p !in s'.pending && o in s'.requests && s'.requests[o].interrupted
            else exists j :: 0 <= j <= k && j < |s'.pending| && s'.pending[j] == p
  {
    PendingIsDistinct(s);
    ArrivalMatches(s, o, unique, m, s');
    hide Inv, CanStep, Stepped;
    if k != m {
      assert s'.pending[if m < k then k - 1 else k] == s.pending[k];
    }
  }

  lemma {:induction false} OldestLeaves(s: State, o: Obj, unique: nat, s': State, k: nat)
    requires Inv(s) && CanStep(s, Receive(o, unique)) && s' == Stepped(s, Receive(o, unique)) && k < |s.pending|
    requires Bounces(s, Receive(o, unique))
    ensures var p := s.pending[k];
            if k == 0 then p.intr in s'.bounced && p !in s'.pending
            else exists j :: 0 <= j <= k - 1 && j < |s'.pending| && s'.pending[j] == p
  {
    PendingIsDistinct(s);
    ArrivalBounces(s, o, unique, s');
    hide Inv, CanStep, Stepped;
    if k > 0 {
      assert s'.pending[k - 1] == s.pending[k];
    }
  }

  lemma {:induction false} ArrivalMoves(s: State, o: Obj, unique: nat, s': State, k: nat)
    requires Inv(s) && CanStep(s, Receive(o, unique)) && s' == Stepped(s, Receive(o, unique)) && k < |s.pending|
    ensures var p, bounces := s.pending[k], Bounces(s, Receive(o, unique));
            || (k == 0 && bounces && p.intr in s'.bounced && p !in s'.pending)
            || (unique == p.target && p.intr in s'.destroyed && p !in s'.pending
                && o in s'.requests && s'.requests[o].interrupted)
            || exists j :: 0 <= j <= k - (if bounces then 1 else 0) && j < |s'.pending| && s'.pending[j] == p
  {
    if m :| 0 <= m < |s.pending| && s.pending[m].target == unique {
      assert s.pending[m] in s.pending;
      hide Inv, CanStep, Stepped;
      MatchedLeaves(s, o, unique, s', k, m);
    } else {
      assert Bounces(s, Receive(o, unique));
      hide Inv, CanStep, Stepped, Bounces;
      OldestLeaves(s, o, unique, s', k);
    }
  }

  lemma PendingIsDistinct(s: State)
    requires Inv(s)
    ensures forall j, k :: 0 <= j < k < |s.pending| ==> s.pending[j] != s.pending[k]
  {
    hide HasTarget, CountsOk, HeldOk, PlacesOk;
  }

  /** How many arrivals of a run bounce the oldest pending interrupt, if there is one. */
  ghost function Bouncing(s: State, steps: seq<Step>): nat
    decreases |steps|
  {
    if steps == [] || !CanStep(s, steps[0]) then 0
    else (if Bounces(s, steps[0]) then 1 else 0) + Bouncing(Stepped(s, steps[0]), steps[1..])
  }

  lemma {:induction false} PendingIsUsed(s: State, k: nat)
    requires Inv(s) && k < |s.pending|
    ensures s.pending[k].intr in s.used
  {
    assert Places(s, s.pending[k].intr) > 0 by {
      assert Intrs(s.pending)[k] == s.pending[k].intr;
      assert s.pending[k].intr in multiset(Intrs(s.pending));
    }
    hide Places, PendingOk, CountsOk, HeldOk;
  }

  lemma {:induction false} GoneStaysGone(s: State, steps: seq<Step>, s': State, p: Pending)
    requires Run(s, steps, s') && p.intr in s.used && p !in s.pending
    ensures p !in s'.pending
    decreases |steps|
  {
    if steps != [] {
      var s1 := Stepped(s, steps[0]);
      assert p !in s1.pending && p.intr in s1.used by {
        hide HasTarget, Run;
      }
      hide CanStep, Stepped;
      GoneStaysGone(s1, steps[1..], s', p);
    }
  }

  /** No interrupt stays pending for ever: one with `k` older ones is gone after more than
      `k` arrivals that no interrupt waited for. */
  lemma {:induction false} WaitingEnds(s: State, steps: seq<Step>, s': State, k: nat)
    requires Inv(s) && Run(s, steps, s') && k < |s.pending| && Bouncing(s, steps) > k
    ensures s.pending[k] !in s'.pending
    decreases |steps|
  {
    hide Inv, CanStep, Stepped, Bounces;
    var p, s1 := s.pending[k], Stepped(s, steps[0]);
    StepKeepsInv(s, steps[0], s1);
    PendingMovesUp(s, steps[0], s1, k);
    if p in s1.pending {
      var j :| 0 <= j <= k - (if Bounces(s, steps[0]) then 1 else 0) && j < |s1.pending| && s1.pending[j] == p;
      WaitingEnds(s1, steps[1..], s', j);
    } else {
      PendingIsUsed(s, k);
      UsedStays(s, steps[0], s1);
      GoneStaysGone(s1, steps[1..], s', p);
    }
  }

  lemma UsedStays(s: State, step: Step, s': State)
    requires CanStep(s, step) && s' == Stepped(s, step)
    ensures s.used <= s'.used
  {
  }
}
