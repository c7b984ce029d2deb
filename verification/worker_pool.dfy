/** The pool of worker threads. Each step is what a thread does while it holds the
    pool's lock, or a thread leaving its receive call. */
module WorkerPool {
  import opened Wrappers

  type Worker = nat

  /** Where a worker in the list is: in its receive call, at work on a request, at
      work on a forget, or back from its thread function. */
  datatype Place = Receiving | Busy | Forgetting | Ended

  /** `at` has the workers in the list; `released` counts how often each was freed. */
  datatype Pool = Pool(
    numworker: int, numavail: int, maxThreads: int, maxIdle: int, exit: bool,
    at: map<Worker, Place>, started: set<Worker>, released: multiset<Worker>)

  datatype Step =
    /** A request has arrived. `thread` is the thread started if one is wanted and can be. */
    | Receive(w: Worker, forget: bool, thread: Option<Worker>)
    | Finish(w: Worker)
    /** The session has ended, receiving failed, or the thread was cancelled. */
    | Stop(w: Worker)
    /** The main thread starts to shut down. */
    | Exit
    /** `fuse_join_worker`. */
    | Join(w: Worker)

  predicate IsAt(s: Pool, w: Worker, places: set<Place>) {
    w in s.at && s.at[w] in places
  }

  predicate CanStep(s: Pool, step: Step) {
    match step
    case Receive(w, _, thread) => IsAt(s, w, {Receiving}) && (thread.Some? ==> thread.value !in s.started)
    case Finish(w) => IsAt(s, w, {Busy, Forgetting})
    case Stop(w) => IsAt(s, w, {Receiving})
    case Exit => !s.exit
    case Join(w) => s.exit && IsAt(s, w, {Ended})
  }

  /** `fuse_loop_start_thread`, where it succeeds. */
  function Start(s: Pool, w: Worker): Pool {
    s.(numworker := s.numworker + 1, numavail := s.numavail + 1, at := s.at[w := Receiving], started := s.started + {w})
  }

  function Release(s: Pool, w: Worker): Pool {
    s.(at := s.at - {w}, released := s.released + multiset{w})
  }

  function Stepped(s: Pool, step: Step): Pool
    requires CanStep(s, step)
  {
    match step
    case Receive(w, forget, thread) =>
      if s.exit then s.(at := s.at[w := Ended])
      else
        var s1 := s.(at := s.at[w := if forget then Forgetting else Busy],
                     numavail := if forget then s.numavail else s.numavail - 1);
        if s1.numavail == 0 && s1.numworker < s1.maxThreads && thread.Some? then Start(s1, thread.value) else s1
    case Finish(w) =>
      var s1 := s.(numavail := if s.at[w] == Busy then s.numavail + 1 else s.numavail, at := s.at[w := Receiving]);
      if s1.maxIdle != -1 && s1.numavail > s1.maxIdle && s1.numworker > 1 then
        if s1.exit then s1.(at := s1.at[w := Ended])
        else Release(s1, w).(numavail := s1.numavail - 1, numworker := s1.numworker - 1)
      else s1
    case Stop(w) => s.(at := s.at[w := Ended])
    case Exit => s.(exit := true)
    case Join(w) => Release(s, w)
  }

  // ----- the invariant

  ghost function Those(at: map<Worker, Place>, places: set<Place>): set<Worker> {
    set w | w in at && at[w] in places
  }

  ghost predicate Inv(s: Pool) {
    && s.numavail + |Those(s.at, {Busy})| == s.numworker
    && (!s.exit ==> s.numworker == |s.at| && 1 <= s.numworker && (s.numworker <= s.maxThreads || s.numworker == 1))
    && (forall w :: w in s.at ==> w in s.started)
    && forall w :: s.released[w] + (if w in s.at then 1 else 0) == if w in s.started then 1 else 0
  }

  lemma SetSizes(a: set<Worker>, w: Worker)
    ensures |a + {w}| == |a| + if w in a then 0 else 1
    ensures |a - {w}| == |a| - if w in a then 1 else 0
  {
  }

  lemma SizeMoved(at: map<Worker, Place>, w: Worker, p: Place)
    ensures |at[w := p]| == |at| + if w in at then 0 else 1
    ensures |at - {w}| == |at| - if w in at then 1 else 0
  {
  }

  /** Putting a worker elsewhere changes the number of workers at some places by the
      difference. */
  lemma {:induction false} ThoseMoved(at: map<Worker, Place>, w: Worker, p: Place, places: set<Place>)
    ensures |Those(at[w := p], places)|
            == |Those(at, places)| - (if w in at && at[w] in places then 1 else 0) + if p in places then 1 else 0
    ensures |Those(at - {w}, places)| == |Those(at, places)| - if w in at && at[w] in places then 1 else 0
    ensures |at[w := p]| == |at| + if w in at then 0 else 1
    ensures |at - {w}| == |at| - if w in at then 1 else 0
  {
    SizeMoved(at, w, p);
    var those := Those(at, places);
    SetSizes(those, w);
    assert Those(at[w := p], places) == if p in places then those + {w} else those - {w};
    assert Those(at - {w}, places) == those - {w};
  }

  lemma {:induction false} StartKeepsInv(s: Pool, w: Worker, s': Pool)
    requires Inv(s) && w !in s.started && s.numworker < s.maxThreads && !s.exit && s' == Start(s, w)
    ensures Inv(s')
  {
    ThoseMoved(s.at, w, Receiving, {Busy});
    hide Those;
  }

  lemma {:induction false} ReceiveKeepsInv(s: Pool, w: Worker, forget: bool, thread: Option<Worker>, s': Pool)
    requires Inv(s) && CanStep(s, Receive(w, forget, thread)) && s' == Stepped(s, Receive(w, forget, thread))
    ensures Inv(s')
  {
    var p := if s.exit then Ended else if forget then Forgetting else Busy;
    ThoseMoved(s.at, w, p, {Busy});
    if !s.exit {
      var s1 := s.(at := s.at[w := p], numavail := if forget then s.numavail else s.numavail - 1);
      assert Inv(s1);
      if thread.Some? && s1.numavail == 0 && s1.numworker < s1.maxThreads {
        StartKeepsInv(s1, thread.value, s');
      }
    }
  }

  lemma {:induction false} FinishKeepsInv(s: Pool, w: Worker, s': Pool)
    requires Inv(s) && CanStep(s, Finish(w)) && s' == Stepped(s, Finish(w))
    ensures Inv(s')
  {
    ThoseMoved(s.at, w, Receiving, {Busy});
    ThoseMoved(s.at[w := Receiving], w, Ended, {Busy});
    hide Those;
  }

  lemma {:induction false} StepKeepsInv(s: Pool, step: Step, s': Pool)
    requires Inv(s) && CanStep(s, step) && s' == Stepped(s, step)
    ensures Inv(s')
  {
    match step {
      case Receive(w, forget, thread) => ReceiveKeepsInv(s, w, forget, thread, s');
      case Finish(w) => FinishKeepsInv(s, w, s');
      case Stop(w) => ThoseMoved(s.at, w, Ended, {Busy});
      case Exit =>
      case Join(w) => ThoseMoved(s.at, w, Ended, {Busy});
    }
  }

  // ----- runs

  /** After `fuse_session_loop_mt_312` has started the first worker. */
  function Initial(maxThreads: int, maxIdle: int, w: Worker): Pool {
    Start(Pool(0, 0, maxThreads, maxIdle, false, map[], {}, multiset{}), w)
  }

  ghost predicate Run(s: Pool, steps: seq<Step>, s': Pool)
    decreases |steps|
  {
    if steps == [] then s' == s else CanStep(s, steps[0]) && Run(Stepped(s, steps[0]), steps[1..], s')
  }

  lemma {:induction false} RunKeepsInv(s: Pool, steps: seq<Step>, s': Pool)
    requires Inv(s) && Run(s, steps, s')
    ensures Inv(s')
    decreases |steps|
  {
    hide Inv, CanStep, Stepped;
    if steps != [] {
      StepKeepsInv(s, steps[0], Stepped(s, steps[0]));
      RunKeepsInv(Stepped(s, steps[0]), steps[1..], s');
    }
  }

  lemma {:induction false} InitialInv(maxThreads: int, maxIdle: int, w: Worker)
    ensures Inv(Initial(maxThreads, maxIdle, w))
  {
  }

  /** In every reachable state before shutdown the counters agree with the list and
      with who is busy, and the number of workers keeps within its bounds. */
  lemma {:induction false} CountersAreRight(maxThreads: int, maxIdle: int, w: Worker, steps: seq<Step>, s: Pool)
    requires Run(Initial(maxThreads, maxIdle, w), steps, s)
    ensures s.numavail + |set x | x in s.at && s.at[x] == Busy| == s.numworker
    ensures !s.exit ==> s.numworker == |s.at| && 1 <= s.numworker && (s.numworker <= s.maxThreads || s.numworker == 1)
  {
    InitialInv(maxThreads, maxIdle, w);
    RunKeepsInv(Initial(maxThreads, maxIdle, w), steps, s);
    assert Those(s.at, {Busy}) == set x | x in s.at && s.at[x] == Busy;
  }

  /** No worker is ever released twice, or while it is in the list; and when shutdown
      has emptied the list, every worker ever started has been released once. */
  lemma {:induction false} ReleasedExactlyOnce(maxThreads: int, maxIdle: int, w: Worker, steps: seq<Step>, s: Pool, x: Worker)
    requires Run(Initial(maxThreads, maxIdle, w), steps, s)
    ensures s.released[x] <= 1 && (x in s.at ==> x !in s.released)
    ensures s.at == map[] ==> s.released[x] == if x in s.started then 1 else 0
  {
    InitialInv(maxThreads, maxIdle, w);
    RunKeepsInv(Initial(maxThreads, maxIdle, w), steps, s);
    assert s.released[x] + (if x in s.at then 1 else 0) == if x in s.started then 1 else 0;
  }

  // ----- when workers come and go

  /** The workers that are not at work on a request. */
  ghost function Idle(s: Pool): int {
    |s.at| - |Those(s.at, {Busy})|
  }

  lemma SubsetSize(a: set<Worker>, b: set<Worker>)
    requires a <= b
    ensures |a| <= |b| && (|a| == |b| ==> a == b)
  {
    var rest := b - a;
    assert b == a + rest && a !! rest;
  }

  lemma {:induction false} IdleIsNat(s: Pool)
    ensures |Those(s.at, {Busy})| <= |s.at|
    ensures |Those(s.at, {Busy})| == |s.at| <==> AllBusy(s.at)
  {
    assert |s.at| == |s.at.Keys|;
    SubsetSize(Those(s.at, {Busy}), s.at.Keys);
    if AllBusy(s.at) {
      assert Those(s.at, {Busy}) == s.at.Keys;
    }
  }

  ghost predicate AllBusy(at: map<Worker, Place>) {
    forall w :: w in at ==> at[w] == Busy
  }

  lemma AllBusyMoved(at: map<Worker, Place>, w: Worker, p: Place)
    ensures AllBusy(at[w := p]) <==> p == Busy && forall x :: x in at && x != w ==> at[x] == Busy
  {
    assert w in at[w := p] && at[w := p][w] == p;
    forall x | x in at && x != w ensures x in at[w := p] && at[w := p][x] == at[x] {
    }
  }

  /** Before shutdown a new worker is started exactly if a request other than a forget has
      made the last idle worker busy, the limit allows one more, and a thread can be had;
      and it goes to receive. */
  lemma {:induction false} StartsExactly(s: Pool, w: Worker, forget: bool, thread: Option<Worker>, s': Pool)
    requires Inv(s) && !s.exit && CanStep(s, Receive(w, forget, thread)) && s' == Stepped(s, Receive(w, forget, thread))
    ensures var wanted := !forget && (forall x :: x in s.at && x != w ==> s.at[x] == Busy) && |s.at| < s.maxThreads;
            && s'.started == s.started + (if wanted && thread.Some? then {thread.value} else {})
            && s'.at == s.at[w := if forget then Forgetting else Busy]
                        + (if wanted && thread.Some? then map[thread.value := Receiving] else map[])
  {
    var p := if forget then Forgetting else Busy;
    ThoseMoved(s.at, w, p, {Busy});
    IdleIsNat(s.(at := s.at[w := p]));
    IdleIsNat(s);
    AllBusyMoved(s.at, w, p);
    hide Those, AllBusy;
  }

  /** A worker that has finished is let go exactly if more than the wanted number are idle
      then and another one remains; else it receives again. */
  lemma {:induction false} LetGoExactly(s: Pool, w: Worker, s': Pool)
    requires Inv(s) && !s.exit && CanStep(s, Finish(w)) && s' == Stepped(s, Finish(w))
    ensures var idle := Idle(s) + if s.at[w] == Busy then 1 else 0;
            if s.maxIdle != -1 && idle > s.maxIdle && |s.at| > 1
            then s'.at == s.at - {w} && s'.released == s.released + multiset{w}
            else s'.at == s.at[w := Receiving] && s'.released == s.released
  {
    IdleIsNat(s);
    hide Those;
    assert s.at[w := Receiving] - {w} == s.at - {w};
  }

  /** Somebody is there to take the next request, unless there are as many workers as
      allowed. */
  ghost predicate Attended(s: Pool) {
    s.exit || !AllBusy(s.at) || |s.at| >= s.maxThreads
  }

  lemma {:induction false} AttendedMeans(s: Pool)
    requires Inv(s)
    ensures Attended(s) <==> s.exit || s.numavail >= 1 || s.numworker >= s.maxThreads
  {
    IdleIsNat(s);
    hide Those;
  }

  /** Threads can be had whenever one is wanted. */
  predicate ThreadsSuffice(steps: seq<Step>) {
    forall k :: 0 <= k < |steps| && steps[k].Receive? ==> steps[k].thread.Some?
  }

  lemma {:induction false} StepKeepsAttended(s: Pool, step: Step, s': Pool)
    requires Inv(s) && Attended(s) && CanStep(s, step) && s' == Stepped(s, step)
    requires (step.Receive? ==> step.thread.Some?) && (s.maxIdle == -1 || s.maxIdle >= 1 || s.maxThreads <= 1)
    ensures Attended(s') && s'.maxIdle == s.maxIdle && s'.maxThreads == s.maxThreads
  {
    AttendedMeans(s);
    StepKeepsInv(s, step, s');
    AttendedMeans(s');
    hide Attended, Those;
  }

  lemma {:induction false} RunKeepsAttended(s: Pool, steps: seq<Step>, s': Pool)
    requires Inv(s) && Attended(s) && Run(s, steps, s') && ThreadsSuffice(steps)
    requires s.maxIdle == -1 || s.maxIdle >= 1 || s.maxThreads <= 1
    ensures Attended(s')
    decreases |steps|
  {
    hide Inv, Attended, CanStep, Stepped;
    if steps != [] {
      var s1 := Stepped(s, steps[0]);
      StepKeepsAttended(s, steps[0], s1);
      StepKeepsInv(s, steps[0], s1);
      assert ThreadsSuffice(steps[1..]);
      RunKeepsAttended(s1, steps[1..], s');
    }
  }

  /** Workers 0 to `k` of which all but the last are busy. */
  ghost predicate Filled(s: Pool, k: nat) {
    && !s.exit && s.numavail == 1 && s.numworker == k + 1
    && (forall w: Worker :: w in s.at <==> w <= k) && (forall w: Worker :: w in s.started <==> w <= k)
    && (forall w: Worker :: w < k ==> s.at[w] == Busy) && s.at[k] == Receiving
  }

  lemma {:induction false} FillOne(m: Pool, k: nat, s: Pool)
    requires Filled(m, k) && k + 1 < m.maxThreads && CanStep(m, Receive(k, false, Some(k + 1)))
    requires s == Stepped(m, Receive(k, false, Some(k + 1)))
    ensures Filled(s, k + 1) && s.maxThreads == m.maxThreads && s.maxIdle == m.maxIdle
  {
    assert s.at == m.at[k := Busy][k + 1 := Receiving] && s.started == m.started + {k + 1};
  }

  /** As many requests as there may be workers, less one, arrive at the same time. */
  lemma {:induction false} FillUp(maxThreads: int, maxIdle: int, k: nat) returns (steps: seq<Step>, s: Pool)
    requires k < maxThreads
    ensures Run(Initial(maxThreads, maxIdle, 0), steps, s) && ThreadsSuffice(steps) && Filled(s, k)
    ensures s.maxThreads == maxThreads && s.maxIdle == maxIdle
  {
    if k == 0 {
      steps, s := [], Initial(maxThreads, maxIdle, 0);
      assert s.at == map[0 := Receiving] && s.started == {0};
    } else {
      var before, m := FillUp(maxThreads, maxIdle, k - 1);
      var step := Receive(k - 1, false, Some(k));
      assert CanStep(m, step);
      s := Stepped(m, step);
      FillOne(m, k - 1, s);
      steps := before + [step];
      assert Filled(s, k);
      hide CanStep, Stepped, Filled;
      AppendStep(Initial(maxThreads, maxIdle, 0), before, m, step, s);
    }
  }

  lemma {:induction false} AppendStep(s: Pool, steps: seq<Step>, m: Pool, step: Step, s': Pool)
    requires Run(s, steps, m) && CanStep(m, step) && s' == Stepped(m, step)
    ensures Run(s, steps + [step], s')
    decreases |steps|
  {
    hide CanStep, Stepped;
    if steps == [] {
      assert ([] + [step])[1..] == [] && Run(s', [], s');
    } else {
      assert (steps + [step])[0] == steps[0] && (steps + [step])[1..] == steps[1..] + [step];
      AppendStep(Stepped(s, steps[0]), steps[1..], m, step, s');
    }
  }

  lemma {:induction false} LastOneGoes(m: Pool, k: nat, full: Pool, s: Pool)
    requires Filled(m, k) && k > 0 && m.maxThreads == k + 1 && m.maxIdle == 0
    requires CanStep(m, Receive(k, false, Some(k + 1))) && full == Stepped(m, Receive(k, false, Some(k + 1)))
    requires CanStep(full, Finish(0)) && s == Stepped(full, Finish(0))
    ensures !s.exit && s.numavail == 0 && s.numworker == k < s.maxThreads
  {
  }

  lemma {:induction false} UnattendedIsReachable(maxThreads: int) returns (steps: seq<Step>, s: Pool)
    requires maxThreads > 1
    ensures Run(Initial(maxThreads, 0, 0), steps, s) && ThreadsSuffice(steps) && !Attended(s)
  {
    var first, k := Initial(maxThreads, 0, 0), maxThreads - 1;
    var before, m := FillUp(maxThreads, 0, k);
    var last := Receive(k, false, Some(k + 1));
    assert CanStep(m, last);
    var full := Stepped(m, last);
    assert CanStep(full, Finish(0));
    s := Stepped(full, Finish(0));
    LastOneGoes(m, k, full, s);
    hide CanStep, Stepped, Filled, Run, Attended;
    AppendStep(first, before, m, last, full);
    AppendStep(first, before + [last], full, Finish(0), s);
    steps := before + [last] + [Finish(0)];
    InitialInv(maxThreads, 0, 0);
    RunKeepsInv(first, steps, s);
    AttendedMeans(s);
  }

  /** If threads can be had, somebody is always there to take the next request before the
      limit is reached, exactly if the number of idle workers to keep is not zero (or the
      limit is one worker). With zero, the first to finish when all are busy goes, and the
      others are all busy. */
  lemma {:induction false} AlwaysAttendedExactly(maxThreads: int, maxIdle: int)
    requires maxIdle >= -1
    ensures (forall steps, s :: Run(Initial(maxThreads, maxIdle, 0), steps, s) && ThreadsSuffice(steps) ==> Attended(s))
            <==> maxIdle != 0 || maxThreads <= 1
  {
    var first := Initial(maxThreads, maxIdle, 0);
    if maxIdle != 0 || maxThreads <= 1 {
      InitialInv(maxThreads, maxIdle, 0);
      AttendedMeans(first);
      forall steps, s | Run(first, steps, s) && ThreadsSuffice(steps) ensures Attended(s) {
        hide Inv, Run, Attended, ThreadsSuffice;
        RunKeepsAttended(first, steps, s);
      }
    } else {
      hide *;
      var steps, s := UnattendedIsReachable(maxThreads);
    }
  }

  // ----- shutdown comes to an end

  /** What is left to do once `exit` is set. */
  ghost function Remaining(s: Pool): nat {
    |s.at| + |Those(s.at, {Receiving, Busy, Forgetting})| + |Those(s.at, {Busy, Forgetting})|
  }

  /** While workers remain, one of them can go on; and whatever happens after `exit`
      has been set brings the end nearer. */
  lemma {:induction false} ShutdownEnds(s: Pool)
    requires s.exit
    ensures s.at != map[] ==> exists step :: CanStep(s, step)
    ensures forall step :: CanStep(s, step) ==> Stepped(s, step).exit && Remaining(Stepped(s, step)) < Remaining(s)
  {
    if s.at != map[] {
      var w :| w in s.at;
      assert CanStep(s, if s.at[w] == Receiving then Stop(w) else if s.at[w] == Ended then Join(w) else Finish(w));
    }
    forall step | CanStep(s, step) ensures Stepped(s, step).exit && Remaining(Stepped(s, step)) < Remaining(s) {
      ShutdownStep(s, step);
    }
  }

  lemma {:induction false} ShutdownStep(s: Pool, step: Step)
    requires s.exit && CanStep(s, step)
    ensures Stepped(s, step).exit && Remaining(Stepped(s, step)) < Remaining(s)
  {
    var w := step.w;
    var alive, working := {Receiving, Busy, Forgetting}, {Busy, Forgetting};
    ThoseMoved(s.at, w, Ended, alive);
    ThoseMoved(s.at, w, Ended, working);
    ThoseMoved(s.at, w, Receiving, alive);
    ThoseMoved(s.at, w, Receiving, working);
    assert step.Finish? ==> s.at[w := Receiving][w := Ended] == s.at[w := Ended];
  }
}
