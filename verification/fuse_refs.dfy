/** Reference counting on node objects: `unref_node` and `delete_node` calling each
    other up the tree, `unhash_name`, `inc_nlookup` and `forget_node`, shown to do
    what the functions on counts say. */
module FuseRefs {
  import opened Wrappers
  import NodeIds
  import opened PathTree
  import opened FusePaths
  import opened NodeRefs

  ghost function Counts(f: Fuse): map<Id, int>
    requires f.Owned()
    reads f`idTable, f`nodes, f.nodes`refctr
  {
    map i | i in f.idTable :: f.idTable[i].refctr
  }

  ghost function Lookups(f: Fuse): map<Id, nat>
    requires f.Owned()
    reads f`idTable, f`nodes, f.nodes`nlookup
  {
    map i | i in f.idTable :: f.idTable[i].nlookup
  }

  ghost function StoreOf(f: Fuse, dots: multiset<Id>): Store
    requires f.Owned()
    reads f`idTable, f`nameTable, f`nodes, f.nodes
  {
    Store(f.NodeTree(), Counts(f), Lookups(f), dots)
  }

  /** The nodes that will be freed are not locked. */
  ghost predicate FreesUnlocked(f: Fuse, s: Store, way: seq<Id>)
    requires f.Owned()
    reads f`idTable, f`nodes, f.nodes`treelock
  {
    forall i :: i in f.idTable && i !in Unref(s, way).tree.links ==> f.idTable[i].treelock == 0
  }

  /** No node object has taken the place of another. */
  ghost predicate OnlyLost(before: map<Id, Node>, now: map<Id, Node>) {
    forall i :: i in now ==> i in before && now[i] == before[i]
  }

  /** `unref_node`. */
  method UnrefNode(f: Fuse, n: Node, ghost way: seq<Id>, ghost dots: multiset<Id>)
    requires f.Owned() && f.Shape() && f.Has(n)
    requires way != [] && way[0] == n.nodeid && IsWay(f.Links(), way)
    requires CountedBut(StoreOf(f, dots), n.nodeid) && FreesUnlocked(f, StoreOf(f, dots), way)
    modifies f`idTable, f`nameTable, f.nodes`refctr, f.nodes`parent, f.nodes`name
    ensures f.Owned() && f.Shape() && f.nodes == old(f.nodes) && OnlyLost(old(f.idTable), f.idTable)
    ensures StoreOf(f, dots) == Unref(old(StoreOf(f, dots)), way)
    decreases |way|, 1
  {
    hide CountedBut, IsWay, Unref, FreesUnlocked, Fuse.Shape, Fuse.Links, Fuse.Names, Counts, Lookups;
    ghost var s := StoreOf(f, dots);
    NodeCounts(f, n, s);
    UnrefCases(s, way);
    LowerCount(f, n);
    if n.refctr == 0 {
      DeleteNode(f, n, s, way, dots);
    }
  }

  lemma NodeCounts(f: Fuse, n: Node, s: Store)
    requires f.Owned() && f.Has(n) && s == StoreOf(f, s.dots) && CountedBut(s, n.nodeid)
    ensures n.nodeid in s.refctr && s.refctr[n.nodeid] == n.refctr > 0
  {
    hide Consistent, References;
  }

  method LowerCount(f: Fuse, n: Node)
    requires f.Owned() && f.Shape() && f.Has(n)
    modifies n`refctr
    ensures n.refctr == old(n.refctr) - 1 && Counts(f) == old(Counts(f))[n.nodeid := n.refctr]
  {
    n.refctr := n.refctr - 1;
  }

  /** `delete_node`: the reference count of `n` is zero, and `s` is the store while
      it still was one. (Here `n` leaves both tables before its parent is let go of.) */
  method DeleteNode(f: Fuse, n: Node, ghost s: Store, ghost way: seq<Id>, ghost dots: multiset<Id>)
    requires f.Owned() && f.Shape() && f.Has(n) && n.refctr == 0
    requires way != [] && way[0] == n.nodeid && IsWay(s.tree.links, way) && FreesUnlocked(f, s, way)
    requires CountedBut(s, n.nodeid) && n.nodeid in s.refctr && s.refctr[n.nodeid] == 1
    requires StoreOf(f, dots) == s.(refctr := s.refctr[n.nodeid := 0])
    modifies f`idTable, f`nameTable, f.nodes`refctr, f.nodes`parent, f.nodes`name
    ensures f.Owned() && f.Shape() && f.nodes == old(f.nodes) && OnlyLost(old(f.idTable), f.idTable)
    ensures StoreOf(f, dots) == Unref(s, way)
    decreases |way|, 0
  {
    hide CountedBut, IsWay, Unref, Fuse.Shape, Fuse.Links, Fuse.Names, Counts, Lookups, Childless;
    UnlockedIfFreed(f, n, s, way);
    assert n.treelock == 0;
    ghost var s1 := Free(s, n.nodeid);
    DeletingOne(s, n.nodeid, way, s1);
    f.Member(n.nodeid);
    var parent := n.parent;
    TakeOut(f, n);
    assert StoreOf(f, dots) == s1;
    if parent != null {
      UnlockedStays(f, s, s1, way);
      UnrefNode(f, parent, way[1..], dots);
    }
  }

  /** Takes a node without children out of both tables. */
  method TakeOut(f: Fuse, n: Node)
    requires f.Owned() && f.Shape() && f.Has(n) && NamesAgree(f.NodeTree()) && Childless(f.Links(), n.nodeid)
    modifies f`idTable, f`nameTable, n`parent, n`name
    ensures f.Owned() && f.Shape() && f.idTable == old(f.idTable) - {n.nodeid}
    ensures f.NodeTree() == DropNode(old(f.NodeTree()), n.nodeid)
    ensures Counts(f) == old(Counts(f)) - {n.nodeid} && Lookups(f) == old(Lookups(f)) - {n.nodeid}
  {
    hide NamesAgree, Childless, Fuse.Shape, Fuse.Links, Fuse.Names, Counts, Lookups;
    ghost var t := f.NodeTree();
    f.Member(n.nodeid);
    f.UnhashName(n);
    NothingRefers(t, n.nodeid);
    DropId(f, n);
    assert t.links[n.nodeid := Unlinked] - {n.nodeid} == t.links - {n.nodeid};
  }

  lemma NothingRefers(t: Tree, i: Id)
    requires NamesAgree(t) && i in t.links && Childless(t.links, i)
    ensures var t' := PathTree.UnhashName(t, i); Childless(t'.links, i) && forall k :: k in t'.names ==> t'.names[k] != i
  {
  }

  /** `unhash_id`. */
  /** The node leaves the id table and with it the tree. */
  method LeaveTable(f: Fuse, n: Node)
    requires f.Owned() && f.Shape() && f.Has(n) && Childless(f.Links(), n.nodeid)
    requires forall k :: k in f.Names() ==> f.Names()[k] != n.nodeid
    modifies f`idTable
    ensures f.Owned() && f.Shape() && f.idTable == old(f.idTable) - {n.nodeid}
    ensures f.Links() == old(f.Links()) - {n.nodeid}
  {
    forall i | i in f.idTable ensures f.idTable[i].parent != n {
      assert f.Links()[i] == LinkOf(f.idTable[i]);
    }
    forall k | k in f.nameTable ensures f.nameTable[k] != n {
      assert f.Names()[k] == f.nameTable[k].nodeid;
    }
    f.idTable := f.idTable - {n.nodeid};
  }

  method DropId(f: Fuse, n: Node)
    requires f.Owned() && f.Shape() && f.Has(n) && Childless(f.Links(), n.nodeid)
    requires forall k :: k in f.Names() ==> f.Names()[k] != n.nodeid
    modifies f`idTable
    ensures f.Owned() && f.Shape() && f.idTable == old(f.idTable) - {n.nodeid}
    ensures f.Links() == old(f.Links()) - {n.nodeid}
    ensures Counts(f) == old(Counts(f)) - {n.nodeid} && Lookups(f) == old(Lookups(f)) - {n.nodeid}
  {
    hide Fuse.Shape, Fuse.Links, Fuse.Names, Childless;
    LeaveTable(f, n);
    assert Counts(f) == old(Counts(f)) - {n.nodeid} by {
      hide Lookups;
    }
    hide Counts;
  }

  lemma UnlockedIfFreed(f: Fuse, n: Node, s: Store, way: seq<Id>)
    requires f.Owned() && f.Has(n) && FreesUnlocked(f, s, way) && way != [] && way[0] == n.nodeid
    requires n.nodeid in s.refctr && s.refctr[n.nodeid] == 1
    ensures n.treelock == 0
  {
    UnrefCases(s, way);
  }

  lemma UnlockedStays(f: Fuse, s: Store, s1: Store, way: seq<Id>)
    requires f.Owned() && way != [] && Unref(s1, way[1..]) == Unref(s, way)
    requires forall i :: i in f.idTable && i !in Unref(s, way).tree.links ==> f.idTable[i].treelock == 0
    ensures FreesUnlocked(f, s1, way[1..])
  {
  }

  /** What freeing one node leaves to do. */
  lemma DeletingOne(s: Store, n: Id, way: seq<Id>, s1: Store)
    requires CountedBut(s, n) && s.refctr[n] == 1 && s1 == Free(s, n)
    requires way != [] && way[0] == n && IsWay(s.tree.links, way)
    ensures NamesAgree(s.tree) && Childless(s.tree.links, n) && n in s.tree.links
    ensures Unref(s, way) == Unref(s1, way[1..])
    ensures s.tree.links[n].Linked? <==> |way| > 1
    ensures if |way| == 1 then Unref(s1, way[1..]) == s1
            else way[1] == s.tree.links[n].parent != n && CountedBut(s1, way[1]) && IsWay(s1.tree.links, way[1..])
  {
    hide References, IsUp, Top, Unref, Counted;
    UnrefCases(s, way);
    UnrefCases(s1, way[1..]);
    FreeKeeps(s, n, s1);
    WayEnds(s.tree, way);
    if |way| > 1 {
      WayGoesOn(s.tree, way);
    }
  }

  lemma UnrefCases(s: Store, way: seq<Id>)
    ensures way == [] ==> Unref(s, way) == s
    ensures way != [] && way[0] in s.refctr ==>
              if s.refctr[way[0]] > 1 then Unref(s, way) == s.(refctr := s.refctr[way[0] := s.refctr[way[0]] - 1])
              else Unref(s, way) == Unref(Free(s, way[0]), way[1..]) && way[0] !in Unref(s, way).tree.links
  {
    if way != [] && way[0] in s.refctr && s.refctr[way[0]] <= 1 {
      UnrefOnlyFrees(Free(s, way[0]), way[1..]);
    }
  }

  /** `unhash_name`: the parent loses a reference, which may free it. */
  method UnhashName(f: Fuse, n: Node, ghost dots: multiset<Id>)
    requires f.Owned() && f.Shape() && f.Has(n) && Counted(StoreOf(f, dots))
    requires NothingLockedGoes(f, Unlink(StoreOf(f, dots), n.nodeid))
    modifies f`idTable, f`nameTable, f.nodes`refctr, f.nodes`parent, f.nodes`name
    ensures f.Owned() && f.Shape() && f.nodes == old(f.nodes) && OnlyLost(old(f.idTable), f.idTable)
    ensures StoreOf(f, dots) == Unlink(old(StoreOf(f, dots)), n.nodeid)
  {
    hide Counted, CountedBut, IsWay, Unref, WayFrom, Fuse.Shape, Fuse.Links, Fuse.Names, Counts, Lookups;
    ghost var s := StoreOf(f, dots);
    f.Member(n.nodeid);
    var parent := n.parent;
    f.UnhashName(n);
    if parent != null {
      ghost var way := WayFrom(f.Links(), parent.nodeid);
      UnlinkByUnref(s, n.nodeid);
      UnrefNode(f, parent, way, dots);
    }
  }

  /** No node missing from `s'` is locked. */
  ghost predicate NothingLockedGoes(f: Fuse, s': Store)
    requires f.Owned()
    reads f`idTable, f`nodes, f.nodes`treelock
  {
    forall i :: i in f.idTable && i !in s'.tree.links ==> f.idTable[i].treelock == 0
  }

  /** `inc_nlookup`. */
  method IncNlookup(f: Fuse, n: Node, ghost dots: multiset<Id>)
    requires f.Owned() && f.Shape() && f.Has(n)
    modifies n`nlookup, n`refctr
    ensures f.Shape() && StoreOf(f, dots) == IncLookup(old(StoreOf(f, dots)), n.nodeid)
  {
    hide Fuse.Shape, Fuse.Links, Fuse.Names;
    RaiseLookup(f, n);
  }

  method RaiseNlookup(f: Fuse, n: Node)
    requires f.Owned() && f.Shape() && f.Has(n)
    modifies n`nlookup
    ensures n.nlookup == old(n.nlookup) + 1 && Lookups(f) == old(Lookups(f))[n.nodeid := n.nlookup]
  {
    n.nlookup := n.nlookup + 1;
  }

  method RaiseLookup(f: Fuse, n: Node)
    requires f.Owned() && f.Shape() && f.Has(n)
    modifies n`nlookup, n`refctr
    ensures n.nlookup == old(n.nlookup) + 1 && Lookups(f) == old(Lookups(f))[n.nodeid := n.nlookup]
    ensures Counts(f) == if old(n.nlookup) == 0 then old(Counts(f))[n.nodeid := old(n.refctr) + 1] else old(Counts(f))
  {
    if n.nlookup == 0 {
      RaiseCount(f, n);
    }
    hide Fuse.Shape, Counts;
    RaiseNlookup(f, n);
  }

  /** `forget_node`, once the wait for the node to be unlocked is over. */
  method ForgetNode(f: Fuse, nodeid: Id, nlookup: nat, ghost dots: multiset<Id>)
    requires f.Owned() && f.Shape() && nodeid in f.idTable && Counted(StoreOf(f, dots))
    requires 0 < nlookup <= f.idTable[nodeid].nlookup
    requires NothingLockedGoes(f, NodeRefs.Forget(StoreOf(f, dots), nodeid, nlookup))
    modifies f`idTable, f`nameTable, f.nodes`refctr, f.nodes`parent, f.nodes`name, f.nodes`nlookup
    ensures f.Owned() && f.Shape() && f.nodes == old(f.nodes) && OnlyLost(old(f.idTable), f.idTable)
    ensures StoreOf(f, dots) == NodeRefs.Forget(old(StoreOf(f, dots)), nodeid, nlookup)
  {
    hide Counted, CountedBut, IsWay, Unref, WayFrom, Fuse.Shape, Fuse.Links, Fuse.Names, Counts;
    if nodeid == ROOT {
      return;
    }
    ghost var s := StoreOf(f, dots);
    f.Member(nodeid);
    var node := f.idTable[nodeid];
    LowerLookup(f, node, nlookup);
    if node.nlookup == 0 {
      ForgetByUnref(s, nodeid, nlookup);
      UnrefNode(f, node, WayFrom(f.Links(), nodeid), dots);
    }
  }

  method LowerLookup(f: Fuse, n: Node, k: nat)
    requires f.Owned() && f.Shape() && f.Has(n) && k <= n.nlookup
    modifies n`nlookup
    ensures n.nlookup == old(n.nlookup) - k && Lookups(f) == old(Lookups(f))[n.nodeid := n.nlookup]
  {
    n.nlookup := n.nlookup - k;
  }

  // ----- names and counts together

  /** `hash_name`: the parent gains a reference. */
  method HashName(f: Fuse, n: Node, parentid: Id, name: string, memory: bool, ghost dots: multiset<Id>) returns (ok: bool)
    requires f.Owned() && f.Shape() && f.Has(n) && parentid in f.idTable && n.parent == null && n.name == None
    modifies f`nameTable, f.nodes`refctr, n`parent, n`name
    ensures f.Shape() && ok == memory
    ensures StoreOf(f, dots) == NodeRefs.Link(old(StoreOf(f, dots)), n.nodeid, parentid, name, memory)
  {
    hide Fuse.Shape, Fuse.Links, Fuse.Names, Lookups, Counts;
    ok := f.HashName(n, parentid, name, memory);
    if ok {
      f.Member(parentid);
      RaiseCount(f, f.idTable[parentid]);
    }
  }

  method RaiseCount(f: Fuse, n: Node)
    requires f.Owned() && f.Shape() && f.Has(n)
    modifies n`refctr
    ensures old(n.nodeid in Counts(f) && Counts(f)[n.nodeid] == n.refctr)
    ensures Counts(f) == old(Counts(f))[n.nodeid := old(n.refctr) + 1]
  {
    n.refctr := n.refctr + 1;
  }

  /** The node under a name in a known directory. */
  lemma FoundBelow(f: Fuse, s: Store, dir: Id, name: string, n: Node)
    requires f.Owned() && f.Shape() && s == StoreOf(f, s.dots) && Counted(s) && Known(s, dir)
    requires Lookup(s.tree, dir, name) == Some(n.nodeid)
    ensures n.nodeid in s.tree.links && s.tree.links[n.nodeid] == Linked(dir, name) && n.nodeid != ROOT
    ensures Unlink(s, n.nodeid).tree.links.Keys == s.tree.links.Keys == f.idTable.Keys
  {
    hide References;
    UnlinkFreesNothing(s, n.nodeid, Unlink(s, n.nodeid));
  }

  /** `remove_node`, in a directory that the kernel knows. */
  method RemoveNode(f: Fuse, dir: Id, name: string, ghost dots: multiset<Id>)
    requires f.Owned() && f.Shape() && Counted(StoreOf(f, dots))
    requires var s := StoreOf(f, dots);
             var n := Lookup(s.tree, dir, name);
             n.Some? ==> NothingLockedGoes(f, Unlink(s, n.value))
    modifies f`idTable, f`nameTable, f.nodes`refctr, f.nodes`parent, f.nodes`name
    ensures f.Owned() && f.Shape() && f.nodes == old(f.nodes) && OnlyLost(old(f.idTable), f.idTable)
    ensures var s := old(StoreOf(f, dots));
            var n := Lookup(s.tree, dir, name);
            StoreOf(f, dots) == if n.Some? then Unlink(s, n.value) else s
  {
    hide Counted, Fuse.Shape, Fuse.Links, Fuse.Names, Counts, Lookups;
    var n := f.LookupNode(dir, name);
    if n != null {
      UnhashName(f, n, dots);
    }
  }

  /** What a rename unlinks frees nothing, as the kernel knows both directories. */
  lemma {:induction false} RenameFreesNothing(
      s: Store, olddir: Id, oldname: string, newdir: Id, newname: string, n: Id, s1: Store)
    requires Counted(s) && Known(s, olddir) && Known(s, newdir) && Lookup(s.tree, olddir, oldname) == Some(n)
    requires var m := Lookup(s.tree, newdir, newname); s1 == if m.Some? then Unlink(s, m.value) else s
    ensures Counted(s1) && n in s1.tree.links && s1.tree.links.Keys == s.tree.links.Keys
    ensures var s2 := Unlink(s1, n);
            && s2.tree.links.Keys == s.tree.links.Keys && s2.tree.links[n] == Unlinked
            && newdir in s2.tree.links && newdir in s2.refctr
  {
    hide Unlink, References, Acyclic;
    var m := Lookup(s.tree, newdir, newname);
    if m.Some? {
      UnlinkKeeps(s, m.value, s1);
      UnlinkFreesNothing(s, m.value, s1);
    }
    UnlinkKeeps(s1, n, Unlink(s1, n));
    UnlinkFreesNothing(s1, n, Unlink(s1, n));
  }

  /** Unlinking the node frees nothing. */
  ghost predicate OnlyUnlinks(s: Store, n: Id) {
    var s' := Unlink(s, n);
    s'.tree.links.Keys == s.tree.links.Keys && n in s'.tree.links && s'.tree.links[n] == Unlinked
  }

  ghost function Moved(s: Store, n: Id, dir: Id, name: string, memory: bool): Store {
    var s2 := Unlink(s, n);
    if dir in s2.refctr then NodeRefs.Link(s2, n, dir, name, memory) else s2
  }

  /** The part of `rename_node` that gives a node its new name. */
  method MoveNode(f: Fuse, n: Node, dir: Id, name: string, memory: bool, ghost dots: multiset<Id>) returns (ok: bool)
    requires f.Owned() && f.Shape() && f.Has(n) && Counted(StoreOf(f, dots))
    requires OnlyUnlinks(StoreOf(f, dots), n.nodeid) && dir in f.idTable
    modifies f`idTable, f`nameTable, f.nodes`refctr, f.nodes`parent, f.nodes`name
    ensures f.Owned() && f.Shape() && f.nodes == old(f.nodes) && ok == memory
    ensures StoreOf(f, dots) == Moved(old(StoreOf(f, dots)), n.nodeid, dir, name, memory)
  {
    hide Counted, Fuse.Shape, Fuse.Links, Fuse.Names, Counts, Lookups, Unlink, NodeRefs.Link;
    f.Keys();
    UnhashName(f, n, dots);
    StoreKeys(f, StoreOf(f, dots));
    f.Keys();
    f.Member(dir);
    f.Member(n.nodeid);
    ok := HashName(f, n, dir, name, memory, dots);
  }

  /** `rename_node` between two directories that the kernel knows. */
  method RenameNode(
      f: Fuse, olddir: Id, oldname: string, newdir: Id, newname: string, hidden: bool, memory: bool, ghost dots: multiset<Id>)
    returns (err: RenameError)
    requires f.Owned() && f.Shape() && Counted(StoreOf(f, dots))
    requires Known(StoreOf(f, dots), olddir) && Known(StoreOf(f, dots), newdir)
    requires var s := StoreOf(f, dots);
             var n := Lookup(s.tree, olddir, oldname);
             n.Some? ==> n.value !in UpChain(s.tree.links, newdir)
    modifies f`idTable, f`nameTable, f.nodes`refctr, f.nodes`parent, f.nodes`name
    ensures f.Owned() && f.Shape() && f.nodes == old(f.nodes) && Counted(StoreOf(f, dots))
    ensures var s := old(StoreOf(f, dots));
            var found, taken := Lookup(s.tree, olddir, oldname).Some?, Lookup(s.tree, newdir, newname).Some?;
            && err == (if found && taken && hidden then Busy else if found && !memory then NoNameMemory else NoError)
            && StoreOf(f, dots) == if err == Busy then s else RenameRefs(s, olddir, oldname, newdir, newname, memory)
  {
    hide Counted, Fuse.Shape, Fuse.Links, Fuse.Names, Counts, Lookups, Unlink, NodeRefs.Link, IsUp;
    ghost var s := StoreOf(f, dots);
    RenameKeepsCounted(s, olddir, oldname, newdir, newname, memory, RenameRefs(s, olddir, oldname, newdir, newname, memory));
    var node := f.LookupNode(olddir, oldname);
    var newnode := f.LookupNode(newdir, newname);
    if node == null {
      return NoError;
    }
    ghost var s1 := s;
    if newnode != null {
      if hidden {
        return Busy;
      }
      FoundBelow(f, s, newdir, newname, newnode);
      UnhashName(f, newnode, dots);
      s1 := StoreOf(f, dots);
    }
    f.Keys();
    RenameFreesNothing(s, olddir, oldname, newdir, newname, node.nodeid, s1);
    var ok := MoveNode(f, node, newdir, newname, memory, dots);
    err := if ok then NoError else NoNameMemory;
  }

  // ----- new nodes

  /** A new node object; no table refers to it yet. */
  method Own(f: Fuse, n: Node)
    requires f.Owned() && f.Shape()
    modifies f`nodes
    ensures f.Owned() && f.Shape() && f.nodes == old(f.nodes) + {n}
    ensures f.Links() == old(f.Links()) && Counts(f) == old(Counts(f)) && Lookups(f) == old(Lookups(f))
  {
    f.nodes := f.nodes + {n};
  }

  /** The node joins the id table and with it the tree. */
  method JoinTable(f: Fuse, n: Node)
    requires f.Owned() && f.Shape() && n.nodeid !in f.idTable && n in f.nodes
    requires n.parent == null && n.name == None
    modifies f`idTable
    ensures f.Owned() && f.Shape() && f.Has(n) && f.idTable == old(f.idTable)[n.nodeid := n]
    ensures f.Links() == old(f.Links())[n.nodeid := Unlinked]
  {
    f.idTable := f.idTable[n.nodeid := n];
    assert f.Shape() by {
      hide Fuse.Links;
    }
    hide Fuse.Shape;
  }

  /** `hash_id`. */
  method HashId(f: Fuse, n: Node)
    requires f.Owned() && f.Shape() && n.nodeid !in f.idTable && n in f.nodes
    requires n.parent == null && n.name == None
    modifies f`idTable
    ensures f.Owned() && f.Shape() && f.Has(n) && f.idTable == old(f.idTable)[n.nodeid := n]
    ensures f.Links() == old(f.Links())[n.nodeid := Unlinked]
    ensures Counts(f) == old(Counts(f))[n.nodeid := n.refctr] && Lookups(f) == old(Lookups(f))[n.nodeid := n.nlookup]
  {
    hide Fuse.Shape, Fuse.Links;
    JoinTable(f, n);
    assert Counts(f) == old(Counts(f))[n.nodeid := n.refctr] by {
      hide Lookups;
    }
    hide Counts;
  }

  /** The new node on the store of counts: it has no links, lookups or references yet. */
  method AddNode(f: Fuse, n: Node, ghost dots: multiset<Id>)
    requires f.Owned() && f.Shape() && n.nodeid !in f.idTable && n !in f.nodes
    requires n.parent == null && n.name == None && n.refctr == 0 && n.nlookup == 0
    modifies f`idTable, f`nodes
    ensures f.Owned() && f.Shape() && f.Has(n) && f.idTable == old(f.idTable)[n.nodeid := n] && f.nodes == old(f.nodes) + {n}
    ensures StoreOf(f, dots) == Added(old(StoreOf(f, dots)), n.nodeid)
  {
    hide Fuse.Shape, Fuse.Links, Fuse.Names, Lookups, Counts;
    Own(f, n);
    HashId(f, n);
  }

  ghost function Added(s: Store, i: Id): Store {
    s.(tree := Tree(s.tree.links[i := Unlinked], s.tree.names), refctr := s.refctr[i := 0], nlookup := s.nlookup[i := 0])
  }

  lemma CreateInSteps(s: Store, i: Id, parent: Id, name: string, s2: Store)
    requires i !in s.tree.links && parent in s.refctr && i !in s.refctr && i !in s.nlookup
    requires s2 == NodeRefs.Link(Added(s, i), i, parent, name, true)
    ensures i in s2.nlookup && i in s2.refctr && IncLookup(s2, i) == NodeRefs.Create(s, i, parent, name)
  {
    assert s2.tree.links == s.tree.links[i := Linked(parent, name)];
  }

  /** The new node joins the tables and gets its first lookup. */
  method LinkNewNode(f: Fuse, n: Node, parent: Id, name: string, ghost dots: multiset<Id>)
    requires f.Owned() && f.Shape() && parent in f.idTable && Lookup(f.NodeTree(), parent, name) == None
    requires n.nodeid !in f.idTable && n !in f.nodes
    requires n.parent == null && n.name == None && n.refctr == 0 && n.nlookup == 0
    modifies f`idTable, f`nameTable, f`nodes, f.nodes`refctr, n
    ensures f.Owned() && f.Shape() && f.Has(n)
    ensures StoreOf(f, dots) == NodeRefs.Create(old(StoreOf(f, dots)), n.nodeid, parent, name)
  {
    hide Fuse.Shape, Fuse.Links, Fuse.Names, Lookups, Counts, NodeRefs.Link, IncLookup, NodeRefs.Create;
    ghost var s := StoreOf(f, dots);
    f.Keys();
    StoreKeys(f, s);
    AddNode(f, n, dots);
    var ok := HashName(f, n, parent, name, true, dots);
    CreateInSteps(s, n.nodeid, parent, name, StoreOf(f, dots));
    IncNlookup(f, n, dots);
  }

  /** The part of `find_node` for a name that is not cached. (Here the node joins the
      id table before it is linked, and a name that cannot be copied is noticed first.) */
  method NewNode(
      f: Fuse, ids: NodeIds.IdCounter, parent: Id, name: string, memory: (bool, bool), ghost free: nat, ghost dots: multiset<Id>)
    returns (node: Node?)
    requires f.Owned() && f.Shape() && parent in f.idTable && Counted(StoreOf(f, dots))
    requires Lookup(f.NodeTree(), parent, name) == None
    requires ids.Valid() && NodeIds.Available(f.idTable.Keys, free)
    modifies f`idTable, f`nameTable, f`nodes, f.nodes`refctr, ids
    ensures f.Owned() && f.Shape() && ids.Valid()
    ensures node == null <==> !memory.0 || !memory.1
    ensures node == null ==> StoreOf(f, dots) == old(StoreOf(f, dots))
    ensures node != null ==>
              && fresh(node) && f.Has(node) && (node.nodeid, node.generation) == NodeIds.Pair(ids.time)
              && NodeIds.IsNext(old(f.idTable.Keys), old(ids.time), ids.time)
              && StoreOf(f, dots) == NodeRefs.Create(old(StoreOf(f, dots)), node.nodeid, parent, name)
  {
    hide Counted, Fuse.Shape, Fuse.Links, Fuse.Names, Lookups, Counts, NodeIds.Pair, NodeIds.IsNext;
    hide Added, NodeRefs.Link, IncLookup, NodeRefs.Create;
    ghost var s := StoreOf(f, dots);
    f.Keys();
    StoreKeys(f, s);
    if !memory.0 {
      return null;
    }
    var id := ids.NextId(f.idTable.Keys, free);
    NextIsUnused(f.idTable.Keys, old(ids.time), ids.time);
    if !memory.1 {
      return null;
    }
    node := new Node(id, ids.generation);
    LinkNewNode(f, node, parent, name, dots);
  }

  lemma StoreKeys(f: Fuse, s: Store)
    requires f.Owned() && s == StoreOf(f, s.dots)
    ensures s.refctr.Keys == s.nlookup.Keys == s.tree.links.Keys == f.idTable.Keys
  {
  }

  lemma NextIsUnused(live: set<nat>, t: nat, t': nat)
    requires NodeIds.IsNext(live, t, t')
    ensures NodeIds.Pair(t').0 !in live
  {
  }

  /** `find_node`. */
  method FindNode(
      f: Fuse, ids: NodeIds.IdCounter, parent: Id, name: Option<string>, memory: (bool, bool), ghost free: nat, ghost dots: multiset<Id>)
    returns (node: Node?)
    requires f.Owned() && f.Shape() && parent in f.idTable && Counted(StoreOf(f, dots))
    requires ids.Valid() && NodeIds.Available(f.idTable.Keys, free)
    modifies f`idTable, f`nameTable, f`nodes, f.nodes`refctr, f.nodes`nlookup, ids
    ensures f.Owned() && f.Shape() && ids.Valid() && Counted(StoreOf(f, dots))
    ensures var s := old(StoreOf(f, dots));
            var found := if name == None then Some(parent) else Lookup(s.tree, parent, name.value);
            if found.Some? then
              node != null && node.nodeid == found.value && StoreOf(f, dots) == IncLookup(s, found.value)
            else if node == null then
              (!memory.0 || !memory.1) && StoreOf(f, dots) == s
            else
              && node.nodeid !in s.tree.links && (node.nodeid, node.generation) == NodeIds.Pair(ids.time)
              && StoreOf(f, dots) == NodeRefs.Create(s, node.nodeid, parent, name.value)
  {
    hide Counted, Fuse.Shape, Fuse.Links, Fuse.Names, Lookups, Counts, NodeIds.Pair, NodeIds.IsNext;
    ghost var s := StoreOf(f, dots);
    StoreKeys(f, s);
    f.Member(parent);
    if name == None {
      node := f.idTable[parent];
    } else {
      node := f.LookupNode(parent, name.value);
    }
    if node == null {
      node := NewNode(f, ids, parent, name.value, memory, free, dots);
      if node != null {
        NextIsUnused(old(f.idTable.Keys), old(ids.time), ids.time);
        CreateKeeps(s, node.nodeid, parent, name.value, StoreOf(f, dots));
      }
    } else {
      IncNlookup(f, node, dots);
      IncLookupKeeps(s, node.nodeid, StoreOf(f, dots));
    }
  }
}
