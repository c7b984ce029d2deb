/** Whole runs of the node reference counts, from the root that `fuse_new` creates.
    `remove_node`, `rename_node` and `exchange_node` are made of `Unhash` and `Hash`
    steps, so the counts are right even between these. */
module RefRuns {
  import opened PathTree
  import opened NodeRefs

  datatype RefStep =
    /** `find_node`, for a name that is not cached and for one that is. */
    | Create(i: Id, parent: Id, name: string)
    | Found(i: Id)
    /** `forget_node`. */
    | Forgotten(i: Id, nlookup: nat)
    /** LOOKUP of "." begins and ends. */
    | DotBegins(i: Id)
    | DotEnds(i: Id)
    /** `unhash_name` and `hash_name`. */
    | Unhash(i: Id)
    | Hash(i: Id, parent: Id, name: string, memory: bool)

  predicate Exists(s: Store, i: Id) {
    i in s.tree.links && i in s.refctr && i in s.nlookup
  }

  /** The kernel refers to existing nodes only and forgets no more lookups than it
      has. A node is hashed where its name is free, and not below itself. */
  ghost predicate CanStep(s: Store, step: RefStep) {
    var t := s.tree;
    match step
    case Create(i, parent, name) => i !in t.links && Exists(s, parent) && (parent, name) !in t.names
    case Found(i) => Exists(s, i)
    case Forgotten(i, k) => Exists(s, i) && 0 < k <= s.nlookup[i]
    case DotBegins(i) => Exists(s, i)
    case DotEnds(i) => i in s.dots
    case Unhash(i) => Exists(s, i)
    case Hash(i, parent, name, _) =>
      && Exists(s, i) && i != ROOT && t.links[i] == Unlinked && Exists(s, parent) && (parent, name) !in t.names
      && Top(t.links, parent, UpChain(t.links, parent)) != i
  }

  ghost function Stepped(s: Store, step: RefStep): Store
    requires CanStep(s, step)
  {
    match step
    case Create(i, parent, name) => NodeRefs.Create(s, i, parent, name)
    case Found(i) => IncLookup(s, i)
    case Forgotten(i, k) => Forget(s, i, k)
    case DotBegins(i) => HoldDot(s, i)
    case DotEnds(i) => DropDot(s, i)
    case Unhash(i) => Unlink(s, i)
    case Hash(i, parent, name, memory) => NodeRefs.Link(s, i, parent, name, memory)
  }

  lemma {:induction false} StepKeepsCounted(s: Store, step: RefStep, s': Store)
    requires Counted(s) && CanStep(s, step) && s' == Stepped(s, step)
    ensures Counted(s')
  {
    hide References, WellFormed, Unlink, NodeRefs.Link, Forget, DropDot, Top;
    match step {
      case Create(i, parent, name) => CreateKeeps(s, i, parent, name, s');
      case Found(i) => IncLookupKeeps(s, i, s');
      case Forgotten(i, k) => ForgetKeeps(s, i, k, s');
      case DotBegins(i) => HoldDotKeeps(s, i, s');
      case DotEnds(i) => DropDotKeeps(s, i, s');
      case Unhash(i) => UnlinkKeeps(s, i, s');
      case Hash(i, parent, name, memory) => LinkKeeps(s, i, parent, name, memory, s');
    }
  }

  ghost predicate RefRun(s: Store, steps: seq<RefStep>, s': Store)
    decreases |steps|
  {
    if steps == [] then s' == s
    else CanStep(s, steps[0]) && RefRun(Stepped(s, steps[0]), steps[1..], s')
  }

  /** Only the root exists, with the lookup that `fuse_new` gives it. */
  function InitialStore(): Store {
    Store(Tree(map[ROOT := Unlinked], map[]), map[ROOT := 1], map[ROOT := 1], multiset{})
  }

  lemma {:induction false} InitialIsCounted()
    ensures Counted(InitialStore())
  {
    var s := InitialStore();
    assert IsUp(s.tree.links, ROOT, []);
    NoChildKeys(s.tree, ROOT);
    assert References(s, ROOT) == 1;
  }

  lemma {:induction false} RunKeepsCounted(s: Store, steps: seq<RefStep>, s': Store)
    requires Counted(s) && RefRun(s, steps, s')
    ensures Counted(s')
    decreases |steps|
  {
    hide Counted, CanStep, Stepped;
    if steps != [] {
      StepKeepsCounted(s, steps[0], Stepped(s, steps[0]));
      RunKeepsCounted(Stepped(s, steps[0]), steps[1..], s');
    }
  }

  /** In every reachable state the count of each node is what refers to it, and that
      is something; the root exists; and a hashed node's parent exists. */
  lemma {:induction false} CountsAreReferences(steps: seq<RefStep>, s: Store, i: Id)
    requires RefRun(InitialStore(), steps, s) && i in s.tree.links
    ensures i in s.nlookup && i in s.refctr && ROOT in s.tree.links
    ensures s.refctr[i] == (if s.nlookup[i] > 0 then 1 else 0) + |set k | k in s.tree.names && k.0 == i| + s.dots[i] > 0
    ensures s.tree.links[i].Linked? ==> s.tree.links[i].parent in s.tree.links
  {
    InitialIsCounted();
    RunKeepsCounted(InitialStore(), steps, s);
    assert s.refctr[i] == References(s, i) > 0;
    assert ChildKeys(s.tree, i) == set k | k in s.tree.names && k.0 == i;
    if s.tree.links[i].Linked? {
      ParentExists(s.tree, i);
    }
  }

  // ----- what the kernel refers to, from the steps alone

  /** The lookups of node `i` that a step gives the kernel or takes from it. The root is
      never forgotten. */
  function LookupsGiven(step: RefStep, i: Id): int {
    match step
    case Create(j, _, _) => if j == i then 1 else 0
    case Found(j) => if j == i then 1 else 0
    case Forgotten(j, k) => var gone: int := k; if j == i && i != ROOT then -gone else 0
    case _ => 0
  }

  function DotsGiven(step: RefStep, i: Id): int {
    match step
    case DotBegins(j) => if j == i then 1 else 0
    case DotEnds(j) => if j == i then -1 else 0
    case _ => 0
  }

  function AllLookupsGiven(steps: seq<RefStep>, i: Id): int {
    if steps == [] then 0 else LookupsGiven(steps[0], i) + AllLookupsGiven(steps[1..], i)
  }

  function AllDotsGiven(steps: seq<RefStep>, i: Id): int {
    if steps == [] then 0 else DotsGiven(steps[0], i) + AllDotsGiven(steps[1..], i)
  }

  lemma {:induction false} StepGives(s: Store, step: RefStep, s': Store, i: Id)
    requires Counted(s) && CanStep(s, step) && s' == Stepped(s, step)
    ensures LookupsOf(s', i) == LookupsOf(s, i) + LookupsGiven(step, i)
    ensures s'.dots[i] == s.dots[i] + DotsGiven(step, i)
  {
    hide Counted, WellFormed, Unlink, NodeRefs.Link, Forget, DropDot, Top, LookupsOf;
    match step {
      case Create(j, parent, name) => CreateExactly(s, j, parent, name, s');
      case Found(j) => IncLookupKeeps(s, j, s');
      case Forgotten(j, k) => ForgetKeeps(s, j, k, s');
      case DotBegins(j) =>
        HoldDotKeeps(s, j, s');
        SameLookups(s, s', i);
      case DotEnds(j) => DropDotKeeps(s, j, s');
      case Unhash(j) => UnlinkKeepsLookups(s, j, s');
      case Hash(j, parent, name, memory) =>
        LinkKeeps(s, j, parent, name, memory, s');
        SameLookups(s, s', i);
    }
  }

  lemma SameLookups(s: Store, s': Store, i: Id)
    requires s'.nlookup == s.nlookup
    ensures LookupsOf(s', i) == LookupsOf(s, i)
  {
  }

  lemma {:induction false} RunGives(s: Store, steps: seq<RefStep>, s': Store, i: Id)
    requires Counted(s) && RefRun(s, steps, s')
    ensures LookupsOf(s', i) == LookupsOf(s, i) + AllLookupsGiven(steps, i)
    ensures s'.dots[i] == s.dots[i] + AllDotsGiven(steps, i)
    decreases |steps|
  {
    hide Counted, CanStep, Stepped, LookupsOf;
    if steps != [] {
      var s1 := Stepped(s, steps[0]);
      StepKeepsCounted(s, steps[0], s1);
      StepGives(s, steps[0], s1, i);
      RunGives(s1, steps[1..], s', i);
    }
  }

  /** `nlookup` is what the kernel has: in every reachable state the lookups of a node are
      those of all replies that named it, less all that the kernel has forgotten. So a node
      that the kernel still refers to exists. */
  lemma {:induction false} LookupsAreThoseGiven(steps: seq<RefStep>, s: Store, i: Id)
    requires RefRun(InitialStore(), steps, s)
    ensures var given := AllLookupsGiven(steps, i) + if i == ROOT then 1 else 0;
            && given >= 0
            && (i in s.tree.links ==> i in s.nlookup && s.nlookup[i] == given)
            && (given > 0 ==> i in s.tree.links)
    ensures s.dots[i] == AllDotsGiven(steps, i)
  {
    InitialIsCounted();
    RunKeepsCounted(InitialStore(), steps, s);
    CountedIsConsistent(s);
    hide RefRun, Counted, WellFormed;
    RunGives(InitialStore(), steps, s, i);
  }
}
