/** Renaming, exchanging and removing below directories that the kernel knows: the
    counts follow the names, nothing is freed, and the tree is what the names alone
    make it. */
module RelinkRefs {
  import opened Wrappers
  import opened PathTree
  import opened NodeRefs

  /** The counts on tree `t`, with the same lookups and holds. */
  ghost predicate CountsFollow(s: Store, s': Store, t: Tree) {
    Counted(s') && s'.tree == t && s'.nlookup == s.nlookup && s'.dots == s.dots
  }

  lemma {:induction false} ChildCounts(t: Tree, n: Id)
    requires WellFormed(t) && n in t.links && t.links[n].Linked?
    ensures NumChildren(t, t.links[n].parent) > 0
  {
    assert (t.links[n].parent, t.links[n].name) in ChildKeys(t, t.links[n].parent);
  }

  lemma {:induction false} ParentIsShared(s: Store, n: Id)
    requires Counted(s) && n in s.tree.links && s.tree.links[n].Linked? && Known(s, s.tree.links[n].parent)
    ensures var p := s.tree.links[n].parent; p in s.refctr && s.refctr[p] > 1
  {
    ChildCounts(s.tree, n);
    hide NumChildren, WellFormed;
  }

  lemma UnrefOfShared(s: Store, way: seq<Id>)
    requires way != [] && way[0] in s.refctr && s.refctr[way[0]] > 1
    ensures Unref(s, way) == s.(refctr := s.refctr[way[0] := s.refctr[way[0]] - 1])
  {
  }

  lemma UnlinkOfShared(s: Store, n: Id, way: seq<Id>)
    requires n in s.tree.links && s.tree.links[n].Linked?
    requires way == WayFrom(UnhashName(s.tree, n).links, s.tree.links[n].parent)
    ensures Unlink(s, n) == Unref(s.(tree := UnhashName(s.tree, n)), way)
  {
  }

  /** The parent keeps the reference that its lookups are. */
  lemma {:induction false} UnlinkFollows(s: Store, n: Id, s': Store)
    requires Counted(s) && n in s.tree.links && s' == Unlink(s, n)
    requires s.tree.links[n].Linked? ==> Known(s, s.tree.links[n].parent)
    ensures CountsFollow(s, s', UnhashName(s.tree, n))
  {
    UnlinkKeeps(s, n, s');
    if s.tree.links[n].Linked? {
      hide Counted, Unref, WayFrom, UnhashName, IsWay, CountedBut, Unlink;
      var s1 := s.(tree := UnhashName(s.tree, n));
      var way := WayFrom(s1.tree.links, s.tree.links[n].parent);
      ParentIsShared(s, n);
      UnlinkByUnref(s, n);
      UnrefOfShared(s1, way);
      UnlinkOfShared(s, n, way);
    }
  }

  ghost function UnlinkFound(s: Store, n: Option<Id>): Store {
    if n.Some? then Unlink(s, n.value) else s
  }

  function LinkFound(s: Store, n: Option<Id>, dir: Id, name: string, memory: bool): Store {
    if n.Some? && dir in s.refctr then NodeRefs.Link(s, n.value, dir, name, memory) else s
  }

  /** A node that is cached below one of two known directories, or has no name any more. */
  ghost predicate BelowKnown(s: Store, n: Id) {
    n in s.tree.links && (s.tree.links[n].Linked? ==> Known(s, s.tree.links[n].parent))
  }

  lemma FoundIsBelow(s: Store, dir: Id, name: string, n: Id)
    requires WellFormed(s.tree) && Known(s, dir) && Lookup(s.tree, dir, name) == Some(n)
    ensures BelowKnown(s, n) && s.tree.links[n] == Linked(dir, name) && n != ROOT
  {
  }

  lemma {:induction false} UnlinkKeepsBelow(s: Store, m: Id, s': Store, n: Id)
    requires BelowKnown(s, n) && CountsFollow(s, s', UnhashName(s.tree, m)) && m in s.tree.links
    ensures BelowKnown(s', n)
  {
  }

  lemma {:induction false} LinkFollows(s: Store, n: Id, dir: Id, name: string, memory: bool, s': Store)
    requires Counted(s) && n in s.tree.links && n != ROOT && s.tree.links[n] == Unlinked
    requires dir in s.tree.links && (dir, name) !in s.tree.names && s' == LinkFound(s, Some(n), dir, name, memory)
    requires Top(s.tree.links, dir, UpChain(s.tree.links, dir)) != n
    ensures CountsFollow(s, s', HashName(s.tree, n, dir, name, memory))
  {
    CountedIsConsistent(s);
    hide Counted, Top;
    LinkKeeps(s, n, dir, name, memory, s');
  }

  // ----- the three operations

  lemma {:induction false} RemoveFollows(s: Store, dir: Id, name: string, s': Store)
    requires Counted(s) && Known(s, dir) && s' == UnlinkFound(s, Lookup(s.tree, dir, name))
    ensures CountsFollow(s, s', UnhashFound(s.tree, Lookup(s.tree, dir, name)))
  {
    var n := Lookup(s.tree, dir, name);
    if n.Some? {
      FoundIsBelow(s, dir, name, n.value);
      hide Unlink, CountsFollow;
      UnlinkFollows(s, n.value, s');
    }
  }

  /** The moved node is not above its new directory. */
  lemma {:induction false} RenameFollows(
      s: Store, olddir: Id, oldname: string, newdir: Id, newname: string, memory: bool, s': Store)
    requires Counted(s) && Known(s, olddir) && Known(s, newdir)
    requires var n := Lookup(s.tree, olddir, oldname); n.Some? ==> n.value !in UpChain(s.tree.links, newdir)
    requires s' == RenameRefs(s, olddir, oldname, newdir, newname, memory)
    ensures CountsFollow(s, s', RenameNode(s.tree, olddir, oldname, newdir, newname, memory))
  {
    RenameKeepsCounted(s, olddir, oldname, newdir, newname, memory, s');
    CountedIsConsistent(s);
    var n, m := Lookup(s.tree, olddir, oldname), Lookup(s.tree, newdir, newname);
    if n.Some? {
      var s1 := UnlinkFound(s, m);
      RemoveFollows(s, newdir, newname, s1);
      FoundIsBelow(s, olddir, oldname, n.value);
      if m.Some? {
        FoundIsBelow(s, newdir, newname, m.value);
        UnlinkKeepsBelow(s, m.value, s1, n.value);
      }
      UnlinkFollows(s1, n.value, Unlink(s1, n.value));
      hide Counted, Unlink, UpChain;
    }
  }

  /** Neither node is above either directory. */
  ghost predicate Away(t: Tree, x: Option<Id>, olddir: Id, newdir: Id) {
    x.Some? ==> x.value !in UpChain(t.links, olddir) && x.value !in UpChain(t.links, newdir)
  }

  ghost function ExchangeRefs(
      s: Store, olddir: Id, oldname: string, newdir: Id, newname: string, memory: (bool, bool)): Store {
    var a, b := Lookup(s.tree, olddir, oldname), Lookup(s.tree, newdir, newname);
    var s3 := LinkFound(UnlinkFound(UnlinkFound(s, a), b), a, newdir, newname, memory.0);
    if a.Some? && !memory.0 then s3 else LinkFound(s3, b, olddir, oldname, memory.1)
  }

  /** Node `x` has no name now, and is at the top of neither directory's way. */
  ghost predicate Cut(t: Tree, x: Option<Id>, olddir: Id, newdir: Id) {
    x.Some? ==>
      && x.value in t.links && x.value != ROOT && t.links[x.value] == Unlinked
      && Top(t.links, olddir, UpChain(t.links, olddir)) != x.value
      && Top(t.links, newdir, UpChain(t.links, newdir)) != x.value
  }

  lemma {:induction false} BothCut(t: Tree, olddir: Id, oldname: string, newdir: Id, newname: string, t2: Tree)
    requires WellFormed(t) && olddir in t.links && newdir in t.links
    requires var a, b := Lookup(t, olddir, oldname), Lookup(t, newdir, newname);
             && (a.Some? ==> a != b) && Away(t, a, olddir, newdir) && Away(t, b, olddir, newdir)
             && t2 == UnhashFound(UnhashFound(t, a), b)
    ensures var a, b := Lookup(t, olddir, oldname), Lookup(t, newdir, newname);
            && Lookup(UnhashFound(t, a), newdir, newname) == b
            && WellFormed(t2) && Cut(t2, a, olddir, newdir) && Cut(t2, b, olddir, newdir)
            && (olddir, oldname) !in t2.names && (newdir, newname) !in t2.names
  {
    var a, b := Lookup(t, olddir, oldname), Lookup(t, newdir, newname);
    var t1 := UnhashFound(t, a);
    UnhashAway(t, a, olddir);
    UnhashAway(t, a, newdir);
    UnhashAway(t1, b, olddir);
    UnhashAway(t1, b, newdir);
    hide Acyclic, Top;
  }

  lemma {:induction false} ExchangeFollows(
      s: Store, olddir: Id, oldname: string, newdir: Id, newname: string, memory: (bool, bool), s': Store)
    requires Counted(s) && Known(s, olddir) && Known(s, newdir)
    requires var a, b := Lookup(s.tree, olddir, oldname), Lookup(s.tree, newdir, newname);
             (a.Some? ==> a != b) && Away(s.tree, a, olddir, newdir) && Away(s.tree, b, olddir, newdir)
    requires s' == ExchangeRefs(s, olddir, oldname, newdir, newname, memory)
    ensures CountsFollow(s, s', ExchangeNode(s.tree, olddir, oldname, newdir, newname, memory))
  {
    CountedIsConsistent(s);
    var a, b := Lookup(s.tree, olddir, oldname), Lookup(s.tree, newdir, newname);
    var s1 := UnlinkFound(s, a);
    var s2 := UnlinkFound(s1, b);
    RemoveFollows(s, olddir, oldname, s1);
    BothCut(s.tree, olddir, oldname, newdir, newname, UnhashFound(s1.tree, b));
    RemoveFollows(s1, newdir, newname, s2);
    var s3 := LinkFound(s2, a, newdir, newname, memory.0);
    hide WellFormed, Counted, Top, UnlinkFound, UnhashFound, LinkFound, HashName;
    if a.Some? {
      LinkFollows(s2, a.value, newdir, newname, memory.0, s3);
      if b.Some? && memory.0 {
        SecondIsCut(s2.tree, a.value, newdir, newname, b.value, olddir, oldname, s3.tree);
        LinkFollows(s3, b.value, olddir, oldname, memory.1, s');
      }
    } else if b.Some? {
      LinkFollows(s2, b.value, olddir, oldname, memory.1, s');
    }
  }

  lemma {:induction false} SecondIsCut(
      t: Tree, a: Id, newdir: Id, newname: string, b: Id, olddir: Id, oldname: string, t': Tree)
    requires WellFormed(t) && Cut(t, Some(a), olddir, newdir) && Cut(t, Some(b), olddir, newdir) && a != b
    requires olddir in t.links && (olddir, oldname) !in t.names && (olddir, oldname) != (newdir, newname)
    requires t' == HashName(t, a, newdir, newname, true) && WellFormed(t')
    ensures b in t'.links && t'.links[b] == Unlinked && b != ROOT && (olddir, oldname) !in t'.names
    ensures olddir in t'.links && Top(t'.links, olddir, UpChain(t'.links, olddir)) != b
  {
    HashAway(t, a, newdir, newname, olddir);
    hide WellFormed, Top;
  }
}
