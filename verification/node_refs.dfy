/** Reference counts of nodes: the kernel's lookups, the children hashed below a
    node, and short-lived holds each keep a node alive; dropping the last one frees
    it and lets go of its parent, and so on up the tree. */
module NodeRefs {
  import opened Wrappers
  import opened PathTree
  import opened TreeLocks

  /** `nlookup` and `refctr` of every node; `dots` are the transient holds that
      LOOKUP of "." takes. */
  datatype Store = Store(tree: Tree, refctr: map<Id, int>, nlookup: map<Id, nat>, dots: multiset<Id>)

  // ----- counting

  ghost function ChildKeys(t: Tree, i: Id): set<(Id, string)> {
    set k | k in t.names && k.0 == i
  }

  ghost function NumChildren(t: Tree, i: Id): nat {
    |ChildKeys(t, i)|
  }

  /** What `refctr` should be. */
  ghost function References(s: Store, i: Id): nat
    requires i in s.nlookup
  {
    (if s.nlookup[i] > 0 then 1 else 0) + NumChildren(s.tree, i) + s.dots[i]
  }

  ghost predicate Consistent(s: Store) {
    && WellFormed(s.tree) && s.refctr.Keys == s.tree.links.Keys == s.nlookup.Keys
    && (forall i :: i in s.dots ==> i in s.tree.links)
    && s.nlookup[ROOT] > 0
  }

  /** Every node is counted, and only referenced nodes exist. */
  ghost predicate Counted(s: Store) {
    Consistent(s) && forall i :: i in s.tree.links ==> s.refctr[i] == References(s, i) > 0
  }

  /** As `Counted`, but one reference to `n` has just gone and is still counted. */
  ghost predicate CountedBut(s: Store, n: Id) {
    && Consistent(s) && n in s.tree.links && s.refctr[n] == References(s, n) + 1
    && forall i :: i in s.tree.links && i != n ==> s.refctr[i] == References(s, i) > 0
  }

  /** A node that the kernel has looked up and not forgotten. */
  ghost predicate Known(s: Store, i: Id) {
    i in s.tree.links && i in s.nlookup && s.nlookup[i] > 0
  }

  /** The lookups that the kernel holds on a node, if there is one. */
  ghost function LookupsOf(s: Store, i: Id): nat {
    if i in s.nlookup then s.nlookup[i] else 0
  }

  // ----- freeing

  /** `delete_node` of `n` alone. */
  function Free(s: Store, n: Id): Store {
    s.(tree := DropNode(s.tree, n), refctr := s.refctr - {n}, nlookup := s.nlookup - {n})
  }

  /** `way` lists the nodes from one upwards, ending at the root or an unlinked node. */
  ghost predicate IsWay(links: map<Id, Link>, way: seq<Id>) {
    way != [] && IsUp(links, way[0], way[..|way| - 1]) && Top(links, way[0], way[..|way| - 1]) == way[|way| - 1]
  }

  ghost function WayFrom(links: map<Id, Link>, i: Id): seq<Id> {
    UpChain(links, i) + [Top(links, i, UpChain(links, i))]
  }

  /** `unref_node` of the first node on the way: freeing it lets go of the next. */
  function Unref(s: Store, way: seq<Id>): Store
    decreases |way|
  {
    if way == [] then s
    else if way[0] in s.refctr && s.refctr[way[0]] > 1 then s.(refctr := s.refctr[way[0] := s.refctr[way[0]] - 1])
    else Unref(Free(s, way[0]), way[1..])
  }

  lemma {:induction false} WayIsDistinct(links: map<Id, Link>, way: seq<Id>)
    requires IsWay(links, way)
    ensures Distinct(way) && forall i :: i in way ==> i in links
  {
    var c := way[..|way| - 1];
    UpIsDistinct(links, way[0], c);
    OnWayIsLinked(links, way[0], c);
    assert way == c + [way[|way| - 1]];
  }

  lemma {:induction false} WayFromIsWay(links: map<Id, Link>, i: Id)
    requires Grounded(links, i)
    ensures IsWay(links, WayFrom(links, i)) && WayFrom(links, i)[0] == i
  {
  }

  /** The rest of a way is a way, also once its first node is gone. */
  lemma {:induction false} WayGoesOn(t: Tree, way: seq<Id>)
    requires IsWay(t.links, way) && |way| > 1 && Childless(t.links, way[0])
    ensures t.links[way[0]].Linked? && t.links[way[0]].parent == way[1] && way[0] != ROOT
    ensures IsWay(DropNode(t, way[0]).links, way[1..])
  {
    var c := way[..|way| - 1];
    var rest := way[1..];
    assert rest[..|rest| - 1] == c[1..];
    OnWayIsLinked(t.links, way[0], c);
    WayIsDistinct(t.links, way);
    UpFromHere(t.links, way[0], c, 0);
    assert t.links[way[0]].parent == rest[0] by {
      if |c| > 1 {
        assert c[1] == way[1];
      }
    }
    DropKeepsWay(t, way[0], rest[0], c[1..]);
  }

  /** Freeing one node: if nothing refers to it any more, the count of its parent
      is the only one that is now off, by one. */
  lemma {:induction false} FreeKeeps(s: Store, n: Id, s': Store)
    requires CountedBut(s, n) && s.refctr[n] == 1 && s' == Free(s, n)
    ensures n != ROOT && s.nlookup[n] == 0 && n !in s.dots && Childless(s.tree.links, n)
    ensures if s.tree.links[n].Linked? then CountedBut(s', s.tree.links[n].parent) else Counted(s')
  {
    hide WellFormed, NumChildren;
    NoChildKeys(s.tree, n);
    assert References(s, n) == 0;
    RootIsUnlinked(s.tree);
    if s.tree.links[n].Linked? {
      ParentExists(s.tree, n);
    }
    DropKeepsWellFormed(s.tree, n);
    forall i | i in s'.tree.links
      ensures References(s', i) == References(s, i) - if s.tree.links[n].Linked? && s.tree.links[n].parent == i then 1 else 0
    {
      FreedChildKeys(s.tree, n, i);
    }
  }

  lemma RootIsUnlinked(t: Tree)
    requires WellFormed(t)
    ensures ROOT in t.links && t.links[ROOT] == Unlinked
  {
  }

  lemma ParentExists(t: Tree, n: Id)
    requires WellFormed(t) && n in t.links && t.links[n].Linked?
    ensures t.links[n].parent in t.links && t.links[n].parent != n
  {
    var c := UpChain(t.links, n)[1..];
    assert IsUp(t.links, t.links[n].parent, c);
    ChildIsOffWay(t.links, n, c);
  }

  lemma {:induction false} NoChildKeys(t: Tree, n: Id)
    requires WellFormed(t)
    ensures NumChildren(t, n) == 0 <==> Childless(t.links, n)
  {
    if !Childless(t.links, n) {
      var c :| c in t.links && t.links[c].Linked? && t.links[c].parent == n;
      assert (n, t.links[c].name) in ChildKeys(t, n);
    } else {
      assert ChildKeys(t, n) == {};
    }
  }

  lemma {:induction false} FreedChildKeys(t: Tree, n: Id, i: Id)
    requires WellFormed(t) && n in t.links
    ensures NumChildren(DropNode(t, n), i) ==
              NumChildren(t, i) - if t.links[n].Linked? && t.links[n].parent == i then 1 else 0
  {
    var l := t.links[n];
    if l.Linked? && l.parent == i {
      assert ChildKeys(DropNode(t, n), i) == ChildKeys(t, i) - {(i, l.name)};
      assert (i, l.name) in ChildKeys(t, i);
    } else {
      assert ChildKeys(DropNode(t, n), i) == ChildKeys(t, i);
    }
  }

  /** What the cascade leaves: the rest of the store is untouched, and what it
      freed was referenced by nothing but nodes that it freed as well. */
  ghost predicate Trimmed(s: Store, s': Store, way: seq<Id>) {
    && s'.dots == s.dots && s'.tree.links.Keys <= s.tree.links.Keys && s'.nlookup.Keys <= s.nlookup.Keys
    && (forall i :: i in s'.tree.links ==> s'.tree.links[i] == s.tree.links[i])
    && (forall i :: i in s'.nlookup ==> s'.nlookup[i] == s.nlookup[i])
    && forall i :: i in s.tree.links && i !in s'.tree.links ==>
         && i in way && i in s.nlookup && s.nlookup[i] == 0 && i !in s.dots
         && forall c :: c in s.tree.links && s.tree.links[c].Linked? && s.tree.links[c].parent == i ==> c !in s'.tree.links
  }

  /** `unref_node` frees a node exactly when its last reference goes, and then its
      parents as far as they depend on it: afterwards all counts are right again and
      positive, so every node left is referenced. The root is never freed. */
  lemma {:induction false} UnrefKeepsCounted(s: Store, way: seq<Id>, s': Store)
    requires way != [] && IsWay(s.tree.links, way) && CountedBut(s, way[0]) && s' == Unref(s, way)
    ensures Counted(s') && Trimmed(s, s', way)
    decreases |way|
  {
    hide WellFormed, References, IsUp, Top, Trimmed, IsWay;
    var n := way[0];
    if s.refctr[n] == 1 {
      var s1 := Free(s, n);
      FreeKeeps(s, n, s1);
      WayEnds(s.tree, way);
      FreeTrims(s, n, s1);
      if |way| > 1 {
        WayGoesOn(s.tree, way);
        UnrefKeepsCounted(s1, way[1..], s');
        TrimmedOnwards(s, s1, s', way);
      } else {
        TrimmedOnwards(s, s1, s1, way);
      }
    } else {
      OneLess(s, n, s', way);
    }
  }

  /** The kernel holds no lookup on what is freed. */
  lemma {:induction false} TrimmedKeepsLookups(s: Store, s': Store, way: seq<Id>)
    requires Trimmed(s, s', way) && Consistent(s) && Consistent(s')
    ensures forall i :: LookupsOf(s', i) == LookupsOf(s, i)
  {
    hide WellFormed;
  }

  lemma TrimmedKeepsDots(s: Store, s': Store, way: seq<Id>)
    requires Trimmed(s, s', way)
    ensures s'.dots == s.dots
  {
  }

  lemma WayEnds(t: Tree, way: seq<Id>)
    requires IsWay(t.links, way) && way[0] != ROOT
    ensures way[0] in t.links && (t.links[way[0]].Linked? <==> |way| > 1)
    ensures |way| == 1 ==> way[1..] == []
  {
    assert |way| == 1 ==> way[..0] == [];
  }

  /** Another reference remains. */
  lemma {:induction false} OneLess(s: Store, n: Id, s': Store, way: seq<Id>)
    requires CountedBut(s, n) && s.refctr[n] > 1 && s' == s.(refctr := s.refctr[n := s.refctr[n] - 1])
    ensures Counted(s') && Trimmed(s, s', way)
  {
  }

  lemma FreeTrims(s: Store, n: Id, s1: Store)
    requires CountedBut(s, n) && s1 == Free(s, n) && s.nlookup[n] == 0 && n !in s.dots && Childless(s.tree.links, n)
    ensures Trimmed(s, s1, [n])
  {
  }

  lemma TrimmedOnwards(s: Store, s1: Store, s': Store, way: seq<Id>)
    requires way != [] && Consistent(s) && s1 == Free(s, way[0]) && Trimmed(s, s1, [way[0]])
    requires Trimmed(s1, s', way[1..]) || s' == s1
    ensures Trimmed(s, s', way)
  {
    assert way == [way[0]] + way[1..];
  }

  /** Among the children that `n` is not one of, a parent never goes first. */
  ghost predicate ParentsOutlive(links: map<Id, Link>, links': map<Id, Link>, n: Id) {
    forall c :: c in links && c in links' && c != n && links[c].Linked? && links[c].parent in links ==> links[c].parent in links'
  }

  /** So whoever survives keeps its whole way up. */
  lemma {:induction false} AncestorsSurvive(links: map<Id, Link>, links': map<Id, Link>, n: Id, id: Id, c: seq<Id>)
    requires IsUp(links, id, c) && id in links' && n !in c && ParentsOutlive(links, links', n)
    ensures (forall i :: i in c ==> i in links') && Top(links, id, c) in links'
    decreases |c|
  {
    if c != [] {
      assert c == [c[0]] + c[1..];
      assert links[id].parent in links;
      AncestorsSurvive(links, links', n, links[id].parent, c[1..]);
    }
  }

  // ----- the assertion in delete_node

  /** The kernel holds a lookup on every node that a request names, and it forgets
      a node only while the node is not locked. */
  ghost predicate Pinned(s: Store, holds: map<Token, Hold>) {
    forall t :: t in holds ==>
      && holds[t].path.nodeid in s.nlookup && s.nlookup[holds[t].path.nodeid] > 0
      && (holds[t].wnode.Some? ==> holds[t].wnode.value in s.nlookup && s.nlookup[holds[t].wnode.value] > 0)
  }

  /** No node that the cascade frees is locked: `delete_node` never finds a lock
      word other than zero. */
  lemma {:induction false} FreedNodesAreUnlocked(core: Core, s: Store, s': Store, way: seq<Id>, i: Id)
    requires Valid(core) && core.tree == s.tree && Consistent(s) && Counted(s') && Trimmed(s, s', way) && Pinned(s, core.holds)
    requires i in s.tree.links && i !in s'.tree.links
    ensures i in core.locks && core.locks[i] == 0
  {
    WordsCountHolds(core, i);
    forall t | t in core.holds ensures i !in core.holds[t].chain && core.holds[t].wnode != Some(i) {
      var h := core.holds[t];
      WayIsAsRecorded(core, t);
      hide Valid;
      assert h.path.nodeid in s'.tree.links;
      assert ROOT !in h.chain;
      AncestorsSurvive(s.tree.links, s'.tree.links, ROOT, h.path.nodeid, h.chain);
    }
    hide Valid, Counted, Consistent, Trimmed, Pinned;
    UnheldIsUncounted(core.holds, i);
  }

  // ----- the operations

  /** `inc_nlookup`. */
  function IncLookup(s: Store, i: Id): Store
    requires i in s.nlookup && i in s.refctr
  {
    s.(nlookup := s.nlookup[i := s.nlookup[i] + 1],
       refctr := if s.nlookup[i] == 0 then s.refctr[i := s.refctr[i] + 1] else s.refctr)
  }

  /** `forget_node` of `k` lookups, once the node is not locked. */
  ghost function Forget(s: Store, i: Id, k: nat): Store
    requires i in s.nlookup && k <= s.nlookup[i]
  {
    var s1 := s.(nlookup := s.nlookup[i := s.nlookup[i] - k]);
    if i == ROOT then s
    else if s1.nlookup[i] == 0 then Unref(s1, WayFrom(s.tree.links, i)) else s1
  }

  /** LOOKUP of ".", and its end. */
  function HoldDot(s: Store, i: Id): Store
    requires i in s.refctr
  {
    s.(refctr := s.refctr[i := s.refctr[i] + 1], dots := s.dots + multiset{i})
  }

  ghost function DropDot(s: Store, i: Id): Store {
    Unref(s.(dots := s.dots - multiset{i}), WayFrom(s.tree.links, i))
  }

  /** `find_node` for a name that is not cached. */
  function Create(s: Store, i: Id, parent: Id, name: string): Store
    requires parent in s.refctr
  {
    Store(AddLinked(s.tree, i, parent, name), s.refctr[parent := s.refctr[parent] + 1][i := 1], s.nlookup[i := 1], s.dots)
  }

  /** `unhash_name`: the parent loses a reference. */
  ghost function Unlink(s: Store, n: Id): Store {
    if n in s.tree.links && s.tree.links[n].Linked? then
      var t := UnhashName(s.tree, n);
      Unref(s.(tree := t), WayFrom(t.links, s.tree.links[n].parent))
    else s
  }

  /** `hash_name`: the parent gains one. */
  function Link(s: Store, n: Id, parent: Id, name: string, memory: bool): Store
    requires parent in s.refctr
  {
    if memory then
      s.(tree := HashName(s.tree, n, parent, name, true), refctr := s.refctr[parent := s.refctr[parent] + 1])
    else s
  }

  lemma {:induction false} IncLookupKeeps(s: Store, i: Id, s': Store)
    requires Counted(s) && i in s.tree.links && s' == IncLookup(s, i)
    ensures Counted(s') && s'.tree == s.tree && s'.dots == s.dots
    ensures forall j :: LookupsOf(s', j) == LookupsOf(s, j) + if j == i then 1 else 0
  {
    hide WellFormed, NumChildren;
  }

  lemma {:induction false} HoldDotKeeps(s: Store, i: Id, s': Store)
    requires Counted(s) && i in s.tree.links && s' == HoldDot(s, i)
    ensures Counted(s') && s'.tree == s.tree && s'.nlookup == s.nlookup
    ensures forall j :: s'.dots[j] == s.dots[j] + if j == i then 1 else 0
  {
    hide WellFormed, NumChildren;
  }

  lemma {:induction false} ForgetKeeps(s: Store, i: Id, k: nat, s': Store)
    requires Counted(s) && i in s.tree.links && 0 < k <= s.nlookup[i] && s' == Forget(s, i, k)
    ensures Counted(s') && s'.dots == s.dots
    ensures forall j :: LookupsOf(s', j) == LookupsOf(s, j) - if j == i && i != ROOT then k else 0
  {
    hide WellFormed, NumChildren, WayFrom, Unref, Trimmed;
    var s1 := s.(nlookup := s.nlookup[i := s.nlookup[i] - k]);
    if i != ROOT && s1.nlookup[i] == 0 {
      ForgetByUnref(s, i, k);
      UnrefKeepsCounted(s1, WayFrom(s.tree.links, i), s');
      TrimmedKeepsLookups(s1, s', WayFrom(s.tree.links, i));
      TrimmedKeepsDots(s1, s', WayFrom(s.tree.links, i));
    }
  }

  /** Forgetting all lookups takes away the reference that they stand for. */
  lemma {:induction false} ForgetByUnref(s: Store, i: Id, k: nat)
    requires Counted(s) && i in s.tree.links && i != ROOT && 0 < k == s.nlookup[i]
    ensures var s1 := s.(nlookup := s.nlookup[i := 0]);
            var way := WayFrom(s1.tree.links, i);
            CountedBut(s1, i) && way != [] && IsWay(s1.tree.links, way) && way[0] == i
  {
    hide WellFormed, NumChildren, WayFrom;
    WellFormedGrounds(s.tree, i);
    WayFromIsWay(s.tree.links, i);
  }

  lemma {:induction false} DotEndByUnref(s: Store, i: Id)
    requires Counted(s) && i in s.dots
    ensures var s1 := s.(dots := s.dots - multiset{i});
            var way := WayFrom(s1.tree.links, i);
            CountedBut(s1, i) && way != [] && IsWay(s1.tree.links, way) && way[0] == i
  {
    hide WellFormed, NumChildren, WayFrom;
    WellFormedGrounds(s.tree, i);
    WayFromIsWay(s.tree.links, i);
  }

  lemma {:induction false} DropDotKeeps(s: Store, i: Id, s': Store)
    requires Counted(s) && i in s.dots && s' == DropDot(s, i)
    ensures Counted(s') && forall j :: s'.dots[j] == s.dots[j] - if j == i then 1 else 0
    ensures forall j :: LookupsOf(s', j) == LookupsOf(s, j)
  {
    hide Consistent, References, WayFrom, Unref, Trimmed, IsWay;
    var s1 := s.(dots := s.dots - multiset{i});
    var way := WayFrom(s1.tree.links, i);
    DotEndByUnref(s, i);
    UnrefKeepsCounted(s1, way, s');
    TrimmedKeepsLookups(s1, s', way);
    TrimmedKeepsDots(s1, s', way);
  }

  lemma {:induction false} UnhashedChildKeys(t: Tree, n: Id, i: Id)
    requires WellFormed(t) && n in t.links && t.links[n].Linked?
    ensures NumChildren(UnhashName(t, n), i) == NumChildren(t, i) - if t.links[n].parent == i then 1 else 0
  {
    FreedChildKeys(t, n, i);
    assert ChildKeys(UnhashName(t, n), i) == ChildKeys(DropNode(t, n), i);
  }

  /** `unhash_name` may free the parent and more, but not the node it unlinks. */
  lemma {:induction false} UnlinkKeeps(s: Store, n: Id, s': Store)
    requires Counted(s) && n in s.tree.links && s' == Unlink(s, n)
    ensures Counted(s') && n in s'.tree.links && s'.tree.links[n] == Unlinked
    ensures ParentsOutlive(s.tree.links, s'.tree.links, n)
    ensures forall i :: i in s.tree.links && i !in s'.tree.links ==>
              s.tree.links[n].Linked? && i in WayFrom(s.tree.links, s.tree.links[n].parent)
    ensures forall i :: i in s.tree.links && i !in s'.tree.links ==> s.nlookup[i] == 0 && i !in s.dots
    ensures forall i :: i in s'.tree.links ==> i in s.tree.links && s'.nlookup[i] == s.nlookup[i]
    ensures forall i :: i in s'.tree.links && i != n ==> s'.tree.links[i] == s.tree.links[i]
  {
    hide WellFormed, NumChildren, WayFrom, Unref, IsUp, Top;
    if s.tree.links[n].Linked? {
      var p, t := s.tree.links[n].parent, UnhashName(s.tree, n);
      var s1 := s.(tree := t);
      UnlinkByUnref(s, n);
      UnlinkedIsOffParentsWay(s.tree, n);
      UnrefKeepsCounted(s1, WayFrom(t.links, p), s');
    }
  }

  lemma {:induction false} UnrefKeepsDots(s: Store, way: seq<Id>)
    ensures Unref(s, way).dots == s.dots
    decreases |way|
  {
    if way != [] && !(way[0] in s.refctr && s.refctr[way[0]] > 1) {
      UnrefKeepsDots(Free(s, way[0]), way[1..]);
    }
  }

  /** No lookup and no hold comes or goes with a name. */
  lemma {:induction false} UnlinkKeepsLookups(s: Store, n: Id, s': Store)
    requires Counted(s) && n in s.tree.links && s' == Unlink(s, n)
    ensures s'.dots == s.dots && forall i :: LookupsOf(s', i) == LookupsOf(s, i)
  {
    if s.tree.links[n].Linked? {
      var t := UnhashName(s.tree, n);
      UnrefKeepsDots(s.(tree := t), WayFrom(t.links, s.tree.links[n].parent));
    }
    hide Unlink, WellFormed, References, ParentsOutlive, WayFrom;
    UnlinkKeeps(s, n, s');
  }

  /** Unlinking a node takes away one reference to its parent. */
  lemma {:induction false} UnlinkByUnref(s: Store, n: Id)
    requires Counted(s) && n in s.tree.links && s.tree.links[n].Linked?
    ensures var p, s1 := s.tree.links[n].parent, s.(tree := UnhashName(s.tree, n));
            var way := WayFrom(s1.tree.links, p);
            CountedBut(s1, p) && way != [] && IsWay(s1.tree.links, way) && way[0] == p
  {
    hide WellFormed, NumChildren, WayFrom, IsUp, Top;
    var p, t := s.tree.links[n].parent, UnhashName(s.tree, n);
    UnhashKeepsWellFormed(s.tree, n);
    ParentExists(s.tree, n);
    forall i | i in s.tree.links ensures NumChildren(t, i) == NumChildren(s.tree, i) - if p == i then 1 else 0 {
      UnhashedChildKeys(s.tree, n, i);
    }
    WellFormedGrounds(t, p);
    WayFromIsWay(t.links, p);
  }

  lemma CountedIsConsistent(s: Store)
    requires Counted(s)
    ensures Consistent(s)
  {
  }

  /** Unlinking a node below a directory that the kernel knows frees nothing. */
  lemma {:induction false} UnlinkFreesNothing(s: Store, n: Id, s': Store)
    requires Counted(s) && n in s.tree.links && s' == Unlink(s, n)
    requires s.tree.links[n].Linked? ==> s.tree.links[n].parent in s.nlookup && s.nlookup[s.tree.links[n].parent] > 0
    ensures s'.tree.links.Keys == s.tree.links.Keys
  {
    hide Unlink, References, NumChildren, Counted;
    CountedIsConsistent(s);
    UnlinkKeeps(s, n, s');
    if s.tree.links[n].Linked? {
      var p := s.tree.links[n].parent;
      var c := UpChain(s.tree.links, p);
      ParentExists(s.tree, n);
      ChildIsOffWay(s.tree.links, n, c);
      AncestorsSurvive(s.tree.links, s'.tree.links, n, p, c);
    }
  }

  lemma {:induction false} UnlinkedIsOffParentsWay(t: Tree, n: Id)
    requires WellFormed(t) && n in t.links && t.links[n].Linked?
    ensures WayFrom(UnhashName(t, n).links, t.links[n].parent) == WayFrom(t.links, t.links[n].parent)
    ensures n !in WayFrom(t.links, t.links[n].parent)
  {
    var p, t' := t.links[n].parent, UnhashName(t, n);
    ParentExists(t, n);
    var c := UpChain(t.links, p);
    ChildIsOffWay(t.links, n, c);
    UnhashKeepsWay(t, n, p, c);
    UpIsUnique(t'.links, p, c, UpChain(t'.links, p));
    OnWayIsLinked(t.links, p, c);
  }

  lemma {:induction false} HashedChildKeys(t: Tree, n: Id, parent: Id, name: string, i: Id)
    requires (parent, name) !in t.names
    ensures NumChildren(HashName(t, n, parent, name, true), i) == NumChildren(t, i) + if parent == i then 1 else 0
  {
    if parent == i {
      assert ChildKeys(HashName(t, n, parent, name, true), i) == ChildKeys(t, i) + {(parent, name)};
    } else {
      assert ChildKeys(HashName(t, n, parent, name, true), i) == ChildKeys(t, i);
    }
  }

  lemma {:induction false} LinkKeeps(s: Store, n: Id, parent: Id, name: string, memory: bool, s': Store)
    requires Counted(s) && n in s.tree.links && n != ROOT && s.tree.links[n] == Unlinked
    requires parent in s.tree.links && (parent, name) !in s.tree.names && s' == Link(s, n, parent, name, memory)
    requires Top(s.tree.links, parent, UpChain(s.tree.links, parent)) != n
    ensures Counted(s') && s'.nlookup == s.nlookup && s'.dots == s.dots
    ensures if memory then s'.tree.links == s.tree.links[n := Linked(parent, name)] && Lookup(s'.tree, parent, name) == Some(n)
            else s' == s
  {
    hide WellFormed, NumChildren, Top;
    HashKeepsWellFormed(s.tree, n, parent, name, memory);
    forall i | i in s.tree.links && memory
      ensures NumChildren(s'.tree, i) == NumChildren(s.tree, i) + if parent == i then 1 else 0
    {
      HashedChildKeys(s.tree, n, parent, name, i);
    }
  }

  lemma {:induction false} AddedChildKeys(t: Tree, n: Id, parent: Id, name: string, i: Id)
    requires (parent, name) !in t.names
    ensures NumChildren(AddLinked(t, n, parent, name), i) == NumChildren(t, i) + if parent == i then 1 else 0
    ensures AddLinked(t, n, parent, name).links.Keys == t.links.Keys + {n}
  {
    HashedChildKeys(t, n, parent, name, i);
    assert ChildKeys(AddLinked(t, n, parent, name), i) == ChildKeys(HashName(t, n, parent, name, true), i);
  }

  /** The new node has no children yet. */
  lemma FreshHasNoChildren(t: Tree, i: Id)
    requires WellFormed(t) && i !in t.links
    ensures NumChildren(t, i) == 0
  {
    forall n | n in t.links && t.links[n].Linked? ensures t.links[n].parent != i {
      ParentExists(t, n);
    }
    NoChildKeys(t, i);
  }

  lemma {:induction false} CreateKeeps(s: Store, i: Id, parent: Id, name: string, s': Store)
    requires Counted(s) && i !in s.tree.links && parent in s.tree.links && (parent, name) !in s.tree.names
    requires s' == Create(s, i, parent, name)
    ensures Counted(s')
  {
    hide WellFormed, NumChildren, AddLinked;
    AddKeepsWellFormed(s.tree, i, parent, name);
    FreshHasNoChildren(s.tree, i);
    forall x ensures NumChildren(s'.tree, x) == NumChildren(s.tree, x) + if parent == x then 1 else 0 {
      AddedChildKeys(s.tree, i, parent, name, x);
    }
    AddedChildKeys(s.tree, i, parent, name, i);
    assert s'.tree.links.Keys == s.tree.links.Keys + {i};
    assert Consistent(s');
    forall x | x in s'.tree.links ensures s'.refctr[x] == References(s', x) > 0 {
      if x == i {
        assert i != parent && s'.dots[i] == 0;
      } else {
        assert s.refctr[x] == References(s, x) > 0;
      }
    }
    hide References, Consistent;
  }

  /** The new node has its name, and the one lookup that the reply gives the kernel. */
  lemma {:induction false} CreateExactly(s: Store, i: Id, parent: Id, name: string, s': Store)
    requires Counted(s) && i !in s.tree.links && parent in s.tree.links && s' == Create(s, i, parent, name)
    ensures i in s'.tree.links && s'.tree.links[i] == Linked(parent, name) && s'.dots == s.dots
    ensures s'.tree.links.Keys == s.tree.links.Keys + {i} && forall j :: j in s.tree.links ==> s'.tree.links[j] == s.tree.links[j]
    ensures forall d: Id, x :: Lookup(s'.tree, d, x) == if (d, x) == (parent, name) then Some(i) else Lookup(s.tree, d, x)
    ensures forall j :: LookupsOf(s', j) == LookupsOf(s, j) + if j == i then 1 else 0
  {
    hide WellFormed, References;
  }

  /** `rename_node` on reference counts: the replaced node and the moved one are
      unlinked, then the moved one is linked again. */
  ghost function RenameRefs(s: Store, olddir: Id, oldname: string, newdir: Id, newname: string, memory: bool): Store {
    match Lookup(s.tree, olddir, oldname)
    case None => s
    case Some(n) =>
      var m := Lookup(s.tree, newdir, newname);
      var s2 := Unlink(if m.Some? then Unlink(s, m.value) else s, n);
      if newdir in s2.refctr then Link(s2, n, newdir, newname, memory) else s2
  }

  /** Unlinking a node leaves the way up from a directory that the kernel knows. */
  lemma {:induction false} UnlinkKeepsWay(s: Store, n: Id, s': Store, dir: Id)
    requires Counted(s) && n in s.tree.links && s' == Unlink(s, n) && dir in s.nlookup && s.nlookup[dir] > 0
    requires n !in UpChain(s.tree.links, dir)
    ensures Counted(s') && dir in s'.nlookup && s'.nlookup[dir] == s.nlookup[dir]
    ensures UpChain(s'.tree.links, dir) == UpChain(s.tree.links, dir)
    ensures Top(s'.tree.links, dir, UpChain(s.tree.links, dir)) == Top(s.tree.links, dir, UpChain(s.tree.links, dir))
  {
    hide NumChildren, Unlink, References;
    var c := UpChain(s.tree.links, dir);
    UnlinkKeeps(s, n, s');
    AncestorsSurvive(s.tree.links, s'.tree.links, n, dir, c);
    OnWayIsLinked(s.tree.links, dir, c);
    UpUnchanged(s.tree.links, s'.tree.links, dir, c);
    UpIsUnique(s'.tree.links, dir, c, UpChain(s'.tree.links, dir));
  }

  /** `rename_node` keeps all counts, given that the moved node is not above its new
      directory (which the path locks see to) and that the kernel knows that
      directory (so that losing its last child does not free it). */
  lemma {:induction false} RenameKeepsCounted(
      s: Store, olddir: Id, oldname: string, newdir: Id, newname: string, memory: bool, s': Store)
    requires Counted(s) && newdir in s.nlookup && s.nlookup[newdir] > 0
    requires var n := Lookup(s.tree, olddir, oldname); n.Some? ==> n.value !in UpChain(s.tree.links, newdir)
    requires s' == RenameRefs(s, olddir, oldname, newdir, newname, memory)
    ensures Counted(s')
  {
    hide NumChildren, Unlink, References, Link, IsUp;
    var n, m := Lookup(s.tree, olddir, oldname), Lookup(s.tree, newdir, newname);
    if n.Some? {
      var up := UpChain(s.tree.links, newdir);
      OnWayIsLinked(s.tree.links, newdir, up);
      var s1 := if m.Some? then Unlink(s, m.value) else s;
      if m.Some? {
        ChildIsOffWay(s.tree.links, m.value, up);
        UnlinkKeeps(s, m.value, s1);
        UnlinkKeepsWay(s, m.value, s1, newdir);
        assert n.value !in WayFrom(s.tree.links, newdir);
      }
      MoveKeepsCounted(s1, n.value, newdir, newname, memory, s');
    }
  }

  /** `unhash_name` and `hash_name` of one node. */
  lemma {:induction false} MoveKeepsCounted(s: Store, n: Id, dir: Id, name: string, memory: bool, s': Store)
    requires Counted(s) && n in s.tree.links && n != ROOT && dir in s.nlookup && s.nlookup[dir] > 0
    requires n !in UpChain(s.tree.links, dir) && Top(s.tree.links, dir, UpChain(s.tree.links, dir)) != n
    requires (dir, name) in s.tree.names ==> s.tree.names[(dir, name)] == n
    requires s' == var s2 := Unlink(s, n); if dir in s2.refctr then Link(s2, n, dir, name, memory) else s2
    ensures Counted(s')
  {
    hide NumChildren, Unlink, References, Link, IsUp, Top;
    var s2 := Unlink(s, n);
    UnlinkKeeps(s, n, s2);
    UnlinkKeepsWay(s, n, s2, dir);
    LinkKeeps(s2, n, dir, name, memory, s');
  }

  /** What is freed stays freed. */
  lemma {:induction false} UnrefOnlyFrees(s: Store, way: seq<Id>)
    ensures Unref(s, way).tree.links.Keys <= s.tree.links.Keys
    decreases |way|
  {
    if way != [] && !(way[0] in s.refctr && s.refctr[way[0]] > 1) {
      UnrefOnlyFrees(Free(s, way[0]), way[1..]);
    }
  }
}
