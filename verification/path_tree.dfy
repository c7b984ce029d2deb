/** The node tree as the name table links it: every node has at most one
    (parent, name) link, a name occurs once per directory, and following parents
    from any node ends at the root or at an unlinked node. */
module PathTree {
  import opened Wrappers

  type Id = nat

  /** FUSE_ROOT_ID. */
  const ROOT: Id := 1

  /** A node's `parent` and `name`, which are set and cleared together. */
  datatype Link = Unlinked | Linked(parent: Id, name: string)

  /** `names` is the name table, seen as the plain map that it refines. */
  datatype Tree = Tree(links: map<Id, Link>, names: map<(Id, string), Id>)

  // ----- the way up

  /** `c` lists the nodes from `id` upwards, up to and excluding the root or the
      first unlinked node. */
  ghost predicate IsUp(links: map<Id, Link>, id: Id, c: seq<Id>)
    decreases |c|
  {
    id in links &&
    if id == ROOT || links[id].Unlinked? then c == []
    else c != [] && c[0] == id && IsUp(links, links[id].parent, c[1..])
  }

  ghost predicate Grounded(links: map<Id, Link>, id: Id) {
    exists c :: IsUp(links, id, c)
  }

  /** Where the way up from `id` along `c` ends. */
  function Top(links: map<Id, Link>, id: Id, c: seq<Id>): Id
    decreases |c|
  {
    if c == [] || id !in links || links[id].Unlinked? then id else Top(links, links[id].parent, c[1..])
  }

  /** The way up from a grounded node. */
  ghost function UpChain(links: map<Id, Link>, id: Id): (c: seq<Id>)
    ensures Grounded(links, id) ==> IsUp(links, id, c)
  {
    if Grounded(links, id) then var c :| IsUp(links, id, c); c else []
  }

  lemma {:induction false} UpIsUnique(links: map<Id, Link>, id: Id, c: seq<Id>, c': seq<Id>)
    requires IsUp(links, id, c) && IsUp(links, id, c')
    ensures c == c'
    decreases |c|
  {
    if c != [] {
      UpIsUnique(links, links[id].parent, c[1..], c'[1..]);
      assert c == [c[0]] + c[1..] && c' == [c'[0]] + c'[1..];
    }
  }

  /** From any node on the way up, the rest of the way is its own way up. */
  lemma {:induction false} UpFromHere(links: map<Id, Link>, id: Id, c: seq<Id>, k: nat)
    requires IsUp(links, id, c) && k < |c|
    ensures IsUp(links, c[k], c[k..]) && Top(links, c[k], c[k..]) == Top(links, id, c)
    ensures c[k] != ROOT && c[k] in links && links[c[k]].Linked?
    ensures k + 1 < |c| ==> links[c[k]].parent == c[k + 1]
    ensures k + 1 == |c| ==> links[c[k]].parent == Top(links, id, c)
    decreases |c|
  {
    if k > 0 {
      UpFromHere(links, links[id].parent, c[1..], k - 1);
      assert c[1..][k - 1..] == c[k..];
    } else {
      assert c[0..] == c;
      assert |c| > 1 ==> c[1..] != [] && c[1..][0] == c[1];
    }
  }

  /** What is on a way up is linked; in particular it is not the root. */
  lemma {:induction false} OnWayIsLinked(links: map<Id, Link>, id: Id, c: seq<Id>)
    requires IsUp(links, id, c)
    ensures forall i :: i in c ==> i in links && i != ROOT && links[i].Linked?
    ensures Top(links, id, c) in links
    ensures Top(links, id, c) == ROOT || links[Top(links, id, c)].Unlinked?
    decreases |c|
  {
    if c != [] {
      OnWayIsLinked(links, links[id].parent, c[1..]);
      assert c == [c[0]] + c[1..];
    }
  }

  /** Following parents never meets a node twice. */
  lemma {:induction false} UpIsDistinct(links: map<Id, Link>, id: Id, c: seq<Id>)
    requires IsUp(links, id, c)
    ensures Distinct(c)
  {
    forall j, k | 0 <= j < k < |c| ensures c[j] != c[k] {
      UpFromHere(links, id, c, j);
      UpFromHere(links, id, c, k);
      assert |c[j..]| != |c[k..]|;
      if c[j] == c[k] {
        UpIsUnique(links, c[j], c[j..], c[k..]);
      }
    }
  }

  /** The way up depends only on the nodes on it and on where it ends. */
  lemma {:induction false} UpUnchanged(links: map<Id, Link>, links': map<Id, Link>, id: Id, c: seq<Id>)
    requires IsUp(links, id, c)
    requires forall i :: i in c ==> i in links && i in links' && links'[i] == links[i]
    requires var top := Top(links, id, c); top in links' && (top == ROOT || links'[top].Unlinked?)
    ensures IsUp(links', id, c) && Top(links', id, c) == Top(links, id, c)
    decreases |c|
  {
    if c != [] {
      UpUnchanged(links, links', links[id].parent, c[1..]);
      assert c[0] in c;
    }
  }

  // ----- linking and unlinking

  ghost predicate NamesAgree(t: Tree) {
    && (forall k :: k in t.names ==> t.names[k] in t.links && t.links[t.names[k]] == Linked(k.0, k.1))
    && (forall i :: i in t.links && t.links[i].Linked? ==>
          var l := t.links[i]; (l.parent, l.name) in t.names && t.names[(l.parent, l.name)] == i)
  }

  ghost predicate Acyclic(links: map<Id, Link>) {
    forall i :: i in links ==> Grounded(links, i)
  }

  ghost predicate WellFormed(t: Tree) {
    ROOT in t.links && t.links[ROOT] == Unlinked && NamesAgree(t) && Acyclic(t.links)
  }

  lemma WellFormedGrounds(t: Tree, i: Id)
    requires WellFormed(t) && i in t.links
    ensures Grounded(t.links, i)
  {
  }

  /** `lookup_node`. */
  function Lookup(t: Tree, parent: Id, name: string): Option<Id> {
    if (parent, name) in t.names then Some(t.names[(parent, name)]) else None
  }

  /** `unhash_name`: nothing to do for a node without a name. */
  function UnhashName(t: Tree, i: Id): Tree {
    if i in t.links && t.links[i].Linked? then
      Tree(t.links[i := Unlinked], t.names - {(t.links[i].parent, t.links[i].name)})
    else t
  }

  function UnhashFound(t: Tree, n: Option<Id>): Tree {
    if n.Some? then UnhashName(t, n.value) else t
  }

  /** `hash_name`; when the name cannot be copied the node stays unlinked. */
  function HashName(t: Tree, i: Id, parent: Id, name: string, memory: bool): Tree {
    if memory then Tree(t.links[i := Linked(parent, name)], t.names[(parent, name) := i]) else t
  }

  /** `rename_node`, apart from the error for a hidden name that is taken. */
  function RenameNode(t: Tree, olddir: Id, oldname: string, newdir: Id, newname: string, memory: bool): Tree {
    match Lookup(t, olddir, oldname)
    case None => t
    case Some(node) =>
      HashName(UnhashName(UnhashFound(t, Lookup(t, newdir, newname)), node), node, newdir, newname, memory)
  }

  /** `exchange_node`; `memory` says which of the two names can be copied. */
  function ExchangeNode(t: Tree, olddir: Id, oldname: string, newdir: Id, newname: string, memory: (bool, bool)): Tree {
    var a, b := Lookup(t, olddir, oldname), Lookup(t, newdir, newname);
    var t2 := UnhashFound(UnhashFound(t, a), b);
    var t3 := if a.Some? then HashName(t2, a.value, newdir, newname, memory.0) else t2;
    if b.Some? && (a.Some? ==> memory.0) then HashName(t3, b.value, olddir, oldname, memory.1) else t3
  }

  // ----- what names mean afterwards

  /** All names but two mean what they meant, and all nodes but two are linked as they were. */
  ghost predicate SameButFor(t: Tree, t': Tree, names: set<(Id, string)>, x: Option<Id>, y: Option<Id>) {
    && t'.links.Keys == t.links.Keys
    && (forall d: Id, name: string :: (d, name) !in names ==> Lookup(t', d, name) == Lookup(t, d, name))
    && forall i :: i in t.links && Some(i) != x && Some(i) != y ==> t'.links[i] == t.links[i]
  }

  /** After `rename_node` the new name means the node that the old one meant, the old name
      means nothing, and a node that had the new name has none. Without memory for the
      name neither node has one. */
  lemma {:induction false} RenameMoves(
      t: Tree, olddir: Id, oldname: string, newdir: Id, newname: string, memory: bool, t': Tree)
    requires NamesAgree(t) && t' == RenameNode(t, olddir, oldname, newdir, newname, memory)
    ensures var n, m := Lookup(t, olddir, oldname), Lookup(t, newdir, newname);
            if n == None then t' == t
            else
              && SameButFor(t, t', {(olddir, oldname), (newdir, newname)}, n, m)
              && n.value in t'.links && (m.Some? ==> m.value in t'.links)
              && Lookup(t', newdir, newname) == (if memory then n else None)
              && ((olddir, oldname) != (newdir, newname) ==> Lookup(t', olddir, oldname) == None)
              && t'.links[n.value] == (if memory then Linked(newdir, newname) else Unlinked)
              && (m.Some? && m != n ==> t'.links[m.value] == Unlinked)
  {
  }

  /** After `exchange_node` each of the two names means what the other one meant. If the
      name of the first node cannot be copied, neither node has one; if that of the second
      cannot, the first has moved and the second has none. */
  lemma {:induction false} ExchangeSwaps(
      t: Tree, olddir: Id, oldname: string, newdir: Id, newname: string, memory: (bool, bool), t': Tree)
    requires NamesAgree(t) && t' == ExchangeNode(t, olddir, oldname, newdir, newname, memory)
    requires var a, b := Lookup(t, olddir, oldname), Lookup(t, newdir, newname); a.Some? ==> a != b
    ensures var a, b := Lookup(t, olddir, oldname), Lookup(t, newdir, newname);
            var moves := a.Some? ==> memory.0;
            && SameButFor(t, t', {(olddir, oldname), (newdir, newname)}, a, b)
            && (a.Some? ==> a.value in t'.links) && (b.Some? ==> b.value in t'.links)
            && Lookup(t', newdir, newname) == (if moves then a else None)
            && Lookup(t', olddir, oldname) == (if moves && memory.1 then b else None)
            && (a.Some? ==> t'.links[a.value] == if moves then Linked(newdir, newname) else Unlinked)
            && (b.Some? ==> t'.links[b.value] == if moves && memory.1 then Linked(olddir, oldname) else Unlinked)
  {
  }

  /** After `remove_node` the name means nothing, and the node that had it has none. */
  lemma {:induction false} RemoveUnlinks(t: Tree, dir: Id, name: string, t': Tree)
    requires NamesAgree(t) && t' == UnhashFound(t, Lookup(t, dir, name))
    ensures var n := Lookup(t, dir, name);
            && SameButFor(t, t', {(dir, name)}, n, n) && Lookup(t', dir, name) == None
            && (n.Some? ==> n.value in t'.links && t'.links[n.value] == Unlinked)
  {
  }

  lemma {:induction false} UnhashKeepsWellFormed(t: Tree, i: Id)
    requires WellFormed(t) && i in t.links
    ensures WellFormed(UnhashName(t, i))
  {
    if t.links[i].Linked? {
      forall n | n in t.links ensures Grounded(t.links[i := Unlinked], n) {
        UnhashCutsWay(t.links, i, n, UpChain(t.links, n));
      }
    }
  }

  /** Ways up through an unlinked node now end there. */
  lemma {:induction false} UnhashCutsWay(links: map<Id, Link>, i: Id, n: Id, c: seq<Id>)
    requires IsUp(links, n, c) && i in links && i != ROOT
    ensures Grounded(links[i := Unlinked], n)
    decreases |c|
  {
    var links' := links[i := Unlinked];
    if n == i || c == [] {
      assert IsUp(links', n, []);
    } else {
      UnhashCutsWay(links, i, links[n].parent, c[1..]);
      ExtendWay(links', n, UpChain(links', links[n].parent));
    }
  }

  lemma {:induction false} ExtendWay(links: map<Id, Link>, n: Id, d: seq<Id>)
    requires n in links && n != ROOT && links[n].Linked? && IsUp(links, links[n].parent, d)
    ensures IsUp(links, n, [n] + d) && Top(links, n, [n] + d) == Top(links, links[n].parent, d)
  {
    assert ([n] + d)[1..] == d;
  }

  /** Linking an unlinked node keeps the tree acyclic if the new parent does not
      lie below it. */
  lemma {:induction false} HashKeepsAcyclic(links: map<Id, Link>, i: Id, parent: Id, name: string)
    requires Acyclic(links) && i in links && i != ROOT && links[i] == Unlinked && parent in links
    requires Top(links, parent, UpChain(links, parent)) != i
    ensures Acyclic(links[i := Linked(parent, name)])
  {
    var links' := links[i := Linked(parent, name)];
    var up := UpChain(links, parent);
    OnWayIsLinked(links, parent, up);
    UpUnchanged(links, links', parent, up);
    ExtendWay(links', i, up);
    forall n | n in links ensures Grounded(links', n) {
      HashExtendsWay(links, links', i, [i] + up, n, UpChain(links, n));
    }
  }

  /** Ways up that ended at `i` now go on from there. */
  lemma {:induction false} HashExtendsWay(links: map<Id, Link>, links': map<Id, Link>, i: Id, way: seq<Id>, n: Id, c: seq<Id>)
    requires IsUp(links, n, c) && IsUp(links', i, way)
    requires links'.Keys == links.Keys && forall x :: x in links && x != i ==> links'[x] == links[x]
    ensures Grounded(links', n)
    decreases |c|
  {
    if n == i {
      assert IsUp(links', n, way);
    } else if c == [] {
      assert IsUp(links', n, []);
    } else {
      HashExtendsWay(links, links', i, way, links[n].parent, c[1..]);
      ExtendWay(links', n, UpChain(links', links[n].parent));
    }
  }

  lemma {:induction false} HashKeepsWellFormed(t: Tree, i: Id, parent: Id, name: string, memory: bool)
    requires WellFormed(t) && i in t.links && i != ROOT && t.links[i] == Unlinked
    requires parent in t.links && (parent, name) !in t.names
    requires Top(t.links, parent, UpChain(t.links, parent)) != i
    ensures WellFormed(HashName(t, i, parent, name, memory))
  {
    HashKeepsAcyclic(t.links, i, parent, name);
  }

  /** A node is not on the way up from its own directory. */
  lemma {:induction false} ChildIsOffWay(links: map<Id, Link>, i: Id, c: seq<Id>)
    requires i in links && i != ROOT && links[i].Linked? && IsUp(links, links[i].parent, c)
    ensures i !in c
  {
    ExtendWay(links, i, c);
    UpIsDistinct(links, i, [i] + c);
    forall k | 0 <= k < |c| ensures c[k] != i {
      assert ([i] + c)[k + 1] == c[k];
    }
  }

  /** Taking nodes off the tree leaves ways up that avoid them. */
  lemma {:induction false} UnhashKeepsWay(t: Tree, i: Id, id: Id, c: seq<Id>)
    requires i in t.links && IsUp(t.links, id, c) && i !in c
    ensures IsUp(UnhashName(t, i).links, id, c)
    ensures Top(UnhashName(t, i).links, id, c) == Top(t.links, id, c)
  {
    OnWayIsLinked(t.links, id, c);
    UpUnchanged(t.links, UnhashName(t, i).links, id, c);
  }

  /** `unhash_name` followed by `hash_name` into a directory that is not below. */
  lemma {:induction false} MoveKeepsWellFormed(t: Tree, i: Id, parent: Id, name: string, memory: bool)
    requires WellFormed(t) && i in t.links && t.links[i].Linked? && parent in t.links
    requires (parent, name) in t.names ==> t.names[(parent, name)] == i
    requires i !in UpChain(t.links, parent)
    ensures WellFormed(HashName(UnhashName(t, i), i, parent, name, memory))
  {
    var t', up := UnhashName(t, i), UpChain(t.links, parent);
    UnhashKeepsWellFormed(t, i);
    UnhashKeepsWay(t, i, parent, up);
    OnWayIsLinked(t.links, parent, up);
    UpIsUnique(t'.links, parent, up, UpChain(t'.links, parent));
    HashKeepsWellFormed(t', i, parent, name, memory);
  }

  /** `rename_node` keeps the tree well formed if the moved node is not on the
      way up from its new directory. */
  lemma {:induction false} RenameKeepsWellFormed(t: Tree, olddir: Id, oldname: string, newdir: Id, newname: string, memory: bool)
    requires WellFormed(t) && newdir in t.links
    requires var n := Lookup(t, olddir, oldname); n.Some? ==> n.value !in UpChain(t.links, newdir)
    ensures WellFormed(RenameNode(t, olddir, oldname, newdir, newname, memory))
  {
    var n, m := Lookup(t, olddir, oldname), Lookup(t, newdir, newname);
    if n.Some? && m.Some? {
      var up := UpChain(t.links, newdir);
      ChildIsOffWay(t.links, m.value, up);
      UnhashKeepsWellFormed(t, m.value);
      var t' := UnhashName(t, m.value);
      UnhashKeepsWay(t, m.value, newdir, up);
      UpIsUnique(t'.links, newdir, up, UpChain(t'.links, newdir));
      if n == m {
        OnWayIsLinked(t.links, newdir, up);
        HashKeepsWellFormed(t', n.value, newdir, newname, memory);
      } else {
        MoveKeepsWellFormed(t', n.value, newdir, newname, memory);
      }
    } else if n.Some? {
      MoveKeepsWellFormed(t, n.value, newdir, newname, memory);
    }
  }

  /** `exchange_node` keeps the tree well formed if neither node is on the way up
      from either directory. */
  lemma {:induction false} ExchangeKeepsWellFormed(
      t: Tree, olddir: Id, oldname: string, newdir: Id, newname: string, memory: (bool, bool))
    requires WellFormed(t) && olddir in t.links && newdir in t.links
    requires var a, b := Lookup(t, olddir, oldname), Lookup(t, newdir, newname);
             && (a.Some? ==> a != b)
             && (forall x :: x in {a, b} && x.Some? ==>
                   x.value !in UpChain(t.links, olddir) && x.value !in UpChain(t.links, newdir))
    ensures WellFormed(ExchangeNode(t, olddir, oldname, newdir, newname, memory))
  {
    var a, b := Lookup(t, olddir, oldname), Lookup(t, newdir, newname);
    var t1 := UnhashFound(t, a);
    var t2 := UnhashFound(t1, b);
    UnhashAway(t, a, olddir);
    UnhashAway(t, a, newdir);
    UnhashAway(t1, b, olddir);
    UnhashAway(t1, b, newdir);
    if a.Some? {
      var t3 := HashName(t2, a.value, newdir, newname, memory.0);
      HashKeepsWellFormed(t2, a.value, newdir, newname, memory.0);
      if b.Some? && memory.0 {
        HashAway(t2, a.value, newdir, newname, olddir);
        HashKeepsWellFormed(t3, b.value, olddir, oldname, memory.1);
      }
    } else if b.Some? {
      HashKeepsWellFormed(t2, b.value, olddir, oldname, memory.1);
    }
  }

  /** Unlinking a node off the way up from `dir` leaves that way alone. */
  lemma {:induction false} UnhashAway(t: Tree, x: Option<Id>, dir: Id)
    requires WellFormed(t) && dir in t.links
    requires x.Some? ==> x.value in t.links && x.value !in UpChain(t.links, dir)
    ensures var t' := UnhashFound(t, x);
            && WellFormed(t') && UpChain(t'.links, dir) == UpChain(t.links, dir)
            && Top(t'.links, dir, UpChain(t'.links, dir)) == Top(t.links, dir, UpChain(t.links, dir))
            && (x.Some? && t.links[x.value].Linked? ==> Top(t'.links, dir, UpChain(t'.links, dir)) != x.value)
  {
    var up := UpChain(t.links, dir);
    OnWayIsLinked(t.links, dir, up);
    if x.Some? {
      UnhashKeepsWellFormed(t, x.value);
      UnhashKeepsWay(t, x.value, dir, up);
      UpIsUnique(UnhashName(t, x.value).links, dir, up, UpChain(UnhashName(t, x.value).links, dir));
    }
  }

  /** So does linking one. */
  lemma {:induction false} HashAway(t: Tree, x: Id, parent: Id, name: string, dir: Id)
    requires WellFormed(t) && x in t.links && WellFormed(HashName(t, x, parent, name, true)) && dir in t.links
    requires t.links[x].Unlinked? && Top(t.links, dir, UpChain(t.links, dir)) != x
    ensures var t' := HashName(t, x, parent, name, true);
            && UpChain(t'.links, dir) == UpChain(t.links, dir)
            && Top(t'.links, dir, UpChain(t'.links, dir)) == Top(t.links, dir, UpChain(t.links, dir))
  {
    var up, t' := UpChain(t.links, dir), HashName(t, x, parent, name, true);
    OnWayIsLinked(t.links, dir, up);
    UpUnchanged(t.links, t'.links, dir, up);
    UpIsUnique(t'.links, dir, up, UpChain(t'.links, dir));
  }

  /** Only the nodes found are relinked. */
  lemma RenameRelinks(t: Tree, olddir: Id, oldname: string, newdir: Id, newname: string, memory: bool)
    requires WellFormed(t)
    ensures var links' := RenameNode(t, olddir, oldname, newdir, newname, memory).links;
            && links'.Keys == t.links.Keys
            && forall i :: i in t.links && links'[i] != t.links[i] ==>
                 Some(i) in {Lookup(t, olddir, oldname), Lookup(t, newdir, newname)}
  {
  }

  lemma ExchangeRelinks(t: Tree, olddir: Id, oldname: string, newdir: Id, newname: string, memory: (bool, bool))
    requires WellFormed(t)
    ensures var links' := ExchangeNode(t, olddir, oldname, newdir, newname, memory).links;
            && links'.Keys == t.links.Keys
            && forall i :: i in t.links && links'[i] != t.links[i] ==>
                 Some(i) in {Lookup(t, olddir, oldname), Lookup(t, newdir, newname)}
  {
  }

  // ----- nodes come and go

  /** A fresh node, linked below an existing one. */
  function AddLinked(t: Tree, i: Id, parent: Id, name: string): Tree {
    Tree(t.links[i := Linked(parent, name)], t.names[(parent, name) := i])
  }

  lemma {:induction false} AddKeepsWay(t: Tree, i: Id, parent: Id, name: string, n: Id, c: seq<Id>)
    requires i !in t.links && IsUp(t.links, n, c)
    ensures var links' := AddLinked(t, i, parent, name).links;
            IsUp(links', n, c) && Top(links', n, c) == Top(t.links, n, c)
  {
    OnWayIsLinked(t.links, n, c);
    UpUnchanged(t.links, AddLinked(t, i, parent, name).links, n, c);
  }

  lemma {:induction false} AddKeepsWellFormed(t: Tree, i: Id, parent: Id, name: string)
    requires WellFormed(t) && i !in t.links && parent in t.links && (parent, name) !in t.names
    ensures WellFormed(AddLinked(t, i, parent, name))
  {
    var links' := AddLinked(t, i, parent, name).links;
    forall n | n in links' ensures Grounded(links', n) {
      if n == i {
        AddKeepsWay(t, i, parent, name, parent, UpChain(t.links, parent));
        ExtendWay(links', i, UpChain(t.links, parent));
      } else {
        AddKeepsWay(t, i, parent, name, n, UpChain(t.links, n));
      }
    }
  }

  /** `unhash_name` and `unhash_id`: the node is gone. */
  function DropNode(t: Tree, i: Id): Tree {
    Tree(t.links - {i}, UnhashName(t, i).names)
  }

  ghost predicate Childless(links: map<Id, Link>, i: Id) {
    forall n :: n in links && links[n].Linked? ==> links[n].parent != i
  }

  /** A node without children is on no way up but its own. */
  lemma {:induction false} ChildlessIsOffWay(links: map<Id, Link>, n: Id, c: seq<Id>, i: Id)
    requires IsUp(links, n, c) && n != i && Childless(links, i)
    ensures i !in c && Top(links, n, c) != i
    decreases |c|
  {
    if c != [] {
      ChildlessIsOffWay(links, links[n].parent, c[1..], i);
      assert c == [c[0]] + c[1..];
    }
  }

  lemma {:induction false} DropKeepsWay(t: Tree, i: Id, n: Id, c: seq<Id>)
    requires i in t.links && Childless(t.links, i) && n != i && IsUp(t.links, n, c)
    ensures var links' := DropNode(t, i).links; IsUp(links', n, c) && Top(links', n, c) == Top(t.links, n, c)
  {
    ChildlessIsOffWay(t.links, n, c, i);
    OnWayIsLinked(t.links, n, c);
    UpUnchanged(t.links, DropNode(t, i).links, n, c);
  }

  lemma {:induction false} DropKeepsWellFormed(t: Tree, i: Id)
    requires WellFormed(t) && i in t.links && i != ROOT && Childless(t.links, i)
    ensures WellFormed(DropNode(t, i))
  {
    forall n | n in t.links && n != i ensures Grounded(DropNode(t, i).links, n) {
      DropKeepsWay(t, i, n, UpChain(t.links, n));
    }
  }

  // ----- the condition is exact

  /** Moving a node below itself really makes a cycle: from it, following parents
      would never end. */
  lemma {:induction false} RenameBelowItselfIsCyclic(t: Tree, olddir: Id, oldname: string, newdir: Id, newname: string)
    requires WellFormed(t) && newdir in t.links
    requires var n := Lookup(t, olddir, oldname); n.Some? && n.value in UpChain(t.links, newdir)
    ensures var t' := RenameNode(t, olddir, oldname, newdir, newname, true);
            !Grounded(t'.links, Lookup(t, olddir, oldname).value)
  {
    var n, m := Lookup(t, olddir, oldname).value, Lookup(t, newdir, newname);
    var links' := RenameNode(t, olddir, oldname, newdir, newname, true).links;
    var up := UpChain(t.links, newdir);
    if m.Some? {
      ChildIsOffWay(t.links, m.value, up);
    }
    OnWayIsLinked(t.links, newdir, up);
    if Grounded(links', n) {
      ParentIsGrounded(links', n);
      var c := UpChain(links', newdir);
      MeetsAgain(t.links, links', newdir, up, c, n);
      ChildIsOffWay(links', n, c);
    }
  }

  lemma {:induction false} ParentIsGrounded(links: map<Id, Link>, i: Id)
    requires Grounded(links, i) && i != ROOT && links[i].Linked?
    ensures Grounded(links, links[i].parent)
  {
    assert IsUp(links, links[i].parent, UpChain(links, i)[1..]);
  }

  /** The way up to `n` is as it was, so `n` is still on it. */
  lemma {:induction false} MeetsAgain(links: map<Id, Link>, links': map<Id, Link>, id: Id, c: seq<Id>, c': seq<Id>, n: Id)
    requires IsUp(links, id, c) && IsUp(links', id, c') && n in c
    requires n in links' && links'[n].Linked?
    requires forall i :: i in c && i != n ==> i in links && i in links' && links'[i] == links[i]
    ensures n in c'
    decreases |c|
  {
    assert c == [c[0]] + c[1..];
    if id != n {
      MeetsAgain(links, links', links[id].parent, c[1..], c'[1..], n);
    }
  }
}
