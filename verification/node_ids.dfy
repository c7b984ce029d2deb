/** Handing out node ids: a 32-bit counter that skips reserved ids and ids in use,
    and a generation number that goes up whenever the counter wraps. */
module NodeIds {
  import opened Wrappers
  import opened PathTree

  const UNKNOWN_INO: nat := 0xffff_ffff

  /** What the two counters show after `t` increments of `ctr`. */
  function Pair(t: nat): (nat, nat) {
    (t % TWO_32, t / TWO_32 % TWO_32)
  }

  predicate Available(live: set<nat>, id: nat) {
    id != 0 && id != UNKNOWN_INO && id < TWO_32 && id !in live
  }

  /** `t'` is the first time after `t` at which the counter shows an available id. */
  ghost predicate IsNext(live: set<nat>, t: nat, t': nat) {
    t < t' && Available(live, Pair(t').0) && forall u :: t < u < t' ==> !Available(live, Pair(u).0)
  }

  lemma PairStep(t: nat)
    ensures var (ctr, generation) := Pair(t);
            var ctr' := (ctr + 1) % TWO_32;
            Pair(t + 1) == (ctr', if ctr' == 0 then (generation + 1) % TWO_32 else generation)
  {
  }

  /** Going around from `ctr` to `target`. */
  function Distance(ctr: nat, target: nat): nat {
    (target - ctr) % TWO_32
  }

  class IdCounter {
    var ctr: nat
    var generation: nat
    ghost var time: nat

    ghost predicate Valid()
      reads this
    {
      (ctr, generation) == Pair(time)
    }

    constructor ()
      ensures Valid() && time == 0
    {
      ctr, generation, time := 0, 0, 0;
    }

    method Advance()
      requires Valid()
      modifies this
      ensures Valid() && time == old(time) + 1 && ctr < TWO_32
      ensures forall id: nat :: id < TWO_32 && id != old(ctr) ==> Distance(ctr, id) < Distance(old(ctr), id)
    {
      PairStep(time);
      ctr := (ctr + 1) % TWO_32;
      if ctr == 0 {
        generation := (generation + 1) % TWO_32;
      }
      time := time + 1;
    }

    /** `next_id`. It comes to an end because `free` is available. */
    method NextId(live: set<nat>, ghost free: nat) returns (id: nat)
      requires Valid() && Available(live, free)
      modifies this
      ensures Valid() && id == ctr && IsNext(live, old(time), time)
    {
      hide Pair, Distance;
      Advance();
      while ctr == 0 || ctr == UNKNOWN_INO || ctr in live
        invariant Valid() && old(time) < time && Pair(time).0 == ctr < TWO_32
        invariant forall u :: old(time) < u < time ==> !Available(live, Pair(u).0)
        decreases Distance(ctr, free)
      {
        Advance();
      }
      id := ctr;
    }
  }

  // ----- when an id is found

  /** Fewer than 2^32 - 2 ids in use leave one available. */
  lemma {:induction false} SomeIdIsAvailable(live: set<nat>)
    requires |live| < UNKNOWN_INO - 1
    ensures exists id :: Available(live, id)
  {
    if forall id :: 1 <= id <= UNKNOWN_INO - 1 ==> id in live {
      Pigeonhole(live, UNKNOWN_INO - 1);
    } else {
      var id :| 1 <= id <= UNKNOWN_INO - 1 && id !in live;
      assert Available(live, id);
    }
  }

  lemma {:induction false} Pigeonhole(live: set<nat>, n: nat)
    requires forall id :: 1 <= id <= n ==> id in live
    ensures |live| >= n
  {
    if n > 0 {
      Pigeonhole(live - {n}, n - 1);
    }
  }

  /** The loop ever ends if and only if an id is available. */
  lemma {:induction false} NextExistsExactly(live: set<nat>, t: nat)
    ensures (exists t' :: IsNext(live, t, t')) <==> (exists id :: Available(live, id))
  {
    if id :| Available(live, id) {
      var t' := FirstTime(live, t, t + 1, id);
    }
  }

  lemma {:induction false} FirstTime(live: set<nat>, t: nat, u: nat, id: nat) returns (t': nat)
    requires Available(live, id) && t < u && forall v :: t < v < u ==> !Available(live, Pair(v).0)
    ensures IsNext(live, t, t')
    decreases Distance(Pair(u).0, id)
  {
    if Available(live, Pair(u).0) {
      t' := u;
    } else {
      PairStep(u);
      t' := FirstTime(live, t, u + 1, id);
    }
  }

  // ----- no pair is handed out twice

  /** Two times show the same pair exactly when a multiple of 2^64 increments lies
      between them: when the generation has wrapped. */
  lemma {:induction false} PairsRepeatExactly(t: nat, t': nat)
    ensures Pair(t) == Pair(t') <==> t % (TWO_32 * TWO_32) == t' % (TWO_32 * TWO_32)
  {
    Digits(t);
    Digits(t');
  }

  lemma EarlyPairsDiffer(t: nat, t': nat)
    requires t < t' < TWO_32 * TWO_32
    ensures Pair(t) != Pair(t')
  {
    PairsRepeatExactly(t, t');
  }

  lemma Digits(t: nat)
    ensures t % (TWO_32 * TWO_32) == Pair(t).1 * TWO_32 + Pair(t).0
  {
  }

  /** The ids in use, and every (nodeid, generation) handed out so far, with the
      time at which each was. */
  datatype Ids = Ids(time: nat, live: set<nat>, issued: seq<(nat, nat)>, times: seq<nat>)

  datatype IdStep = Allocate(next: nat) | Release(id: nat)

  function InitialIds(): Ids {
    Ids(0, {ROOT}, [], [])
  }

  ghost predicate CanStep(s: Ids, step: IdStep) {
    match step
    case Allocate(next) => IsNext(s.live, s.time, next)
    case Release(id) => id in s.live && id != ROOT
  }

  function Stepped(s: Ids, step: IdStep): Ids {
    match step
    case Allocate(next) => Ids(next, s.live + {Pair(next).0}, s.issued + [Pair(next)], s.times + [next])
    case Release(id) => s.(live := s.live - {id})
  }

  ghost predicate IdRun(s: Ids, steps: seq<IdStep>, s': Ids)
    decreases |steps|
  {
    if steps == [] then s' == s else CanStep(s, steps[0]) && IdRun(Stepped(s, steps[0]), steps[1..], s')
  }

  ghost predicate IdInv(s: Ids) {
    && |s.issued| == |s.times| && ROOT in s.live
    && (forall k :: 0 <= k < |s.times| ==> s.times[k] <= s.time && s.issued[k] == Pair(s.times[k]))
    && (forall j, k :: 0 <= j < k < |s.times| ==> s.times[j] < s.times[k])
    && (forall k :: 0 <= k < |s.issued| ==> s.issued[k].0 !in {0, ROOT, UNKNOWN_INO})
    && forall id :: id in s.live && id != ROOT ==> exists k :: 0 <= k < |s.issued| && s.issued[k].0 == id
  }

  lemma {:induction false} IdStepKeepsInv(s: Ids, step: IdStep, s': Ids)
    requires IdInv(s) && CanStep(s, step) && s' == Stepped(s, step)
    ensures IdInv(s')
  {
    forall id | id in s'.live && id != ROOT ensures exists k :: 0 <= k < |s'.issued| && s'.issued[k].0 == id {
      if id in s.live {
        var k :| 0 <= k < |s.issued| && s.issued[k].0 == id;
        assert s'.issued[k] == s.issued[k];
      } else {
        assert s'.issued[|s.issued|].0 == id;
      }
    }
  }

  lemma {:induction false} IdRunKeepsInv(s: Ids, steps: seq<IdStep>, s': Ids)
    requires IdInv(s) && IdRun(s, steps, s')
    ensures IdInv(s')
    decreases |steps|
  {
    hide IdInv, CanStep;
    if steps != [] {
      IdStepKeepsInv(s, steps[0], Stepped(s, steps[0]));
      IdRunKeepsInv(Stepped(s, steps[0]), steps[1..], s');
    }
  }

  /** Over every run, until the generation itself wraps, no (nodeid, generation) is
      handed out twice; the reserved ids and the root's id never are at all. */
  lemma {:induction false} NoPairTwice(steps: seq<IdStep>, s: Ids, j: nat, k: nat)
    requires IdRun(InitialIds(), steps, s) && s.time < TWO_32 * TWO_32 && j < k < |s.issued|
    ensures s.issued[j] != s.issued[k]
    ensures s.issued[k].0 !in {0, ROOT, UNKNOWN_INO}
  {
    hide Pair, IdRun;
    IdRunKeepsInv(InitialIds(), steps, s);
    EarlyPairsDiffer(s.times[j], s.times[k]);
  }
}
