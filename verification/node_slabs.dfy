/** The slab allocator for nodes: pages cut into nodes, each page on the list of
    partly used or of full slabs, found again from a node by masking its address. */
module NodeSlabs {
  import opened Wrappers
  import opened Arithmetic

  /** sizeof(struct node_slab). */
  const HEADER: nat := 40

  datatype Geometry = Geometry(pagesize: nat, nodeSize: nat) {
    predicate Valid() {
      nodeSize > 0 && HEADER + nodeSize <= pagesize
    }

    /** Nodes per slab. */
    function Num(): (n: nat)
      requires Valid()
    {
      (pagesize - HEADER) / nodeSize
    }

    /** The address of node `i` of the slab at `base`. */
    function Node(base: nat, i: nat): int
      requires Valid()
    {
      base + pagesize - Num() * nodeSize + i * nodeSize
    }

    /** `node_to_slab`: for a page size that is a power of two, clearing the low bits. */
    function SlabOf(node: nat): nat
      requires Valid()
    {
      node / pagesize * pagesize
    }
  }

  lemma {:induction false} NodesFit(g: Geometry, base: nat, i: nat)
    requires g.Valid() && i < g.Num() && base % g.pagesize == 0
    ensures g.Num() > 0
    ensures base + HEADER <= g.Node(base, i) && g.Node(base, i) + g.nodeSize <= base + g.pagesize
    ensures g.SlabOf(g.Node(base, i)) == base
  {
    var n, size := g.Num(), g.nodeSize;
    DivisionBounds(g.pagesize - HEADER, size);
    MulMonotone(i + 1, n, size);
    MulMonotone(0, i, size);
    var off := g.Node(base, i) - base;
    assert 0 <= off < g.pagesize;
    var q := base / g.pagesize;
    assert base == g.pagesize * q;
    RoundDown(q, off, g.pagesize);
  }

  lemma DivisionBounds(x: nat, d: nat)
    requires d > 0
    ensures x / d * d <= x < x / d * d + d && (x >= d ==> x / d > 0)
  {
  }

  lemma MulMonotone(a: nat, b: nat, d: nat)
    requires a <= b
    ensures a * d <= b * d && (a + 1) * d == a * d + d
  {
    assert b * d == a * d + (b - a) * d;
  }

  /** Different nodes of a slab do not overlap. */
  lemma {:induction false} NodesApart(g: Geometry, base: nat, i: nat, j: nat)
    requires g.Valid() && i < j
    ensures g.Node(base, i) + g.nodeSize <= g.Node(base, j)
  {
    MulMonotone(i + 1, j, g.nodeSize);
    MulMonotone(i, j, g.nodeSize);
  }

  datatype Slab = Slab(freelist: seq<nat>, used: int)

  ghost predicate IsNode(g: Geometry, base: nat, node: nat)
    requires g.Valid()
  {
    exists i: nat :: i < g.Num() && g.Node(base, i) == node
  }

  /** Between two calls: some node is in use, and the free ones are on the list. */
  ghost predicate SlabOk(g: Geometry, base: nat, s: Slab)
    requires g.Valid()
  {
    && base % g.pagesize == 0 && 0 < s.used && s.used + |s.freelist| == g.Num()
    && Distinct(s.freelist) && forall a :: a in s.freelist ==> IsNode(g, base, a)
  }

  /** The nodes of a slab as a set, counted. */
  ghost function Nodes(g: Geometry, base: nat, n: nat): set<nat>
    requires g.Valid() && n <= g.Num() && base % g.pagesize == 0
  {
    if n == 0 then {} else NodesFit(g, base, n - 1); Nodes(g, base, n - 1) + {g.Node(base, n - 1)}
  }

  lemma {:induction false} NodesCount(g: Geometry, base: nat, n: nat)
    requires g.Valid() && n <= g.Num() && base % g.pagesize == 0
    ensures |Nodes(g, base, n)| == n
    ensures forall a :: a in Nodes(g, base, n) <==> exists i: nat :: i < n && g.Node(base, i) == a
  {
    if n > 0 {
      NodesCount(g, base, n - 1);
      forall i: nat | i < n - 1 ensures g.Node(base, i) != g.Node(base, n - 1) {
        NodesApart(g, base, i, n - 1);
      }
      forall a | exists i: nat :: i < n && g.Node(base, i) == a ensures a in Nodes(g, base, n) {
        var i: nat :| i < n && g.Node(base, i) == a;
        assert i == n - 1 || a in Nodes(g, base, n - 1);
      }
      assert forall a :: a in Nodes(g, base, n) ==> exists i: nat :: i < n && g.Node(base, i) == a by {
        forall a | a in Nodes(g, base, n) ensures exists i: nat :: i < n && g.Node(base, i) == a {
          if a == g.Node(base, n - 1) {
            assert n - 1 < n && g.Node(base, n - 1) == a;
          } else {
            var i: nat :| i < n - 1 && g.Node(base, i) == a;
            assert i < n && g.Node(base, i) == a;
          }
        }
      }
    }
  }

  ghost function Elements<T>(s: seq<T>): set<T> {
    set x | x in s
  }

  lemma {:induction false} DistinctCount<T>(s: seq<T>)
    requires Distinct(s)
    ensures |Elements(s)| == |s|
  {
    if s != [] {
      DistinctCount(s[1..]);
      assert s == [s[0]] + s[1..];
      assert Elements(s) == Elements(s[1..]) + {s[0]};
    }
  }

  lemma SubsetOfSameSize<T>(a: set<T>, b: set<T>)
    requires a <= b && |a| == |b|
    ensures a == b
  {
    if x :| x in b && x !in a {
      assert a <= b - {x};
      SubsetIsSmaller(a, b - {x});
    }
  }

  lemma SubsetIsSmaller<T>(a: set<T>, b: set<T>)
    requires a <= b
    ensures |a| <= |b|
  {
    if a != {} {
      var x :| x in a;
      SubsetIsSmaller(a - {x}, b - {x});
    }
  }

  /** If a single node of the slab is in use, all others are on the free list; and
      some node that is not on it exists. */
  lemma {:induction false} FreeListIsRest(g: Geometry, base: nat, s: Slab, node: nat)
    requires g.Valid() && SlabOk(g, base, s) && IsNode(g, base, node) && node !in s.freelist
    ensures s.used == 1 ==> forall a :: IsNode(g, base, a) <==> a in s.freelist || a == node
  {
    var n := g.Num();
    NodesCount(g, base, n);
    DistinctCount(s.freelist);
    if s.used == 1 {
      assert Elements(s.freelist) <= Nodes(g, base, n) - {node};
      SubsetOfSameSize(Elements(s.freelist), Nodes(g, base, n) - {node});
      forall a ensures IsNode(g, base, a) <==> a in s.freelist || a == node {
        assert a in Elements(s.freelist) <==> a in s.freelist;
      }
    }
  }

  lemma {:induction false} SomeNodeInUse(g: Geometry, base: nat, s: Slab)
    requires g.Valid() && SlabOk(g, base, s)
    ensures exists a :: IsNode(g, base, a) && a !in s.freelist
  {
    var n := g.Num();
    NodesCount(g, base, n);
    DistinctCount(s.freelist);
    if Nodes(g, base, n) <= Elements(s.freelist) {
      SubsetIsSmaller(Nodes(g, base, n), Elements(s.freelist));
    } else {
      var a :| a in Nodes(g, base, n) && a !in Elements(s.freelist);
      assert IsNode(g, base, a);
    }
  }

  // ----- the allocator

  /** The mapped pages by address, and the two lists of them. */
  datatype Pages = Pages(slabs: map<nat, Slab>, partial: seq<nat>, full: seq<nat>)

  ghost predicate ListsOk(p: Pages) {
    && Distinct(p.partial) && Distinct(p.full)
    && (forall b :: b in p.partial <==> b in p.slabs && p.slabs[b].freelist != [])
    && forall b :: b in p.full <==> b in p.slabs && p.slabs[b].freelist == []
  }

  ghost predicate InUse(g: Geometry, slabs: map<nat, Slab>, b: nat, a: nat)
    requires g.Valid()
  {
    b in slabs && IsNode(g, b, a) && a !in slabs[b].freelist
  }

  /** `out` are the nodes handed out and not yet freed. */
  ghost predicate OutOk(g: Geometry, slabs: map<nat, Slab>, out: set<nat>)
    requires g.Valid()
  {
    forall a :: a in out <==> exists b :: InUse(g, slabs, b, a)
  }

  ghost predicate SlabsOk(g: Geometry, slabs: map<nat, Slab>)
    requires g.Valid()
  {
    forall b :: b in slabs ==> SlabOk(g, b, slabs[b])
  }

  ghost predicate PagesOk(g: Geometry, p: Pages, out: set<nat>) {
    g.Valid() && ListsOk(p) && SlabsOk(g, p.slabs) && OutOk(g, p.slabs, out)
  }

  lemma {:induction false} NodeNamesSlab(g: Geometry, b: nat, a: nat)
    requires g.Valid() && b % g.pagesize == 0 && IsNode(g, b, a)
    ensures g.SlabOf(a) == b && b + HEADER <= a && a + g.nodeSize <= b + g.pagesize
  {
    var i: nat :| i < g.Num() && g.Node(b, i) == a;
    NodesFit(g, b, i);
  }

  /** The slab that a node handed out belongs to is the one its address names. */
  lemma {:induction false} OwnSlab(g: Geometry, p: Pages, out: set<nat>, a: nat)
    requires PagesOk(g, p, out) && a in out
    ensures InUse(g, p.slabs, g.SlabOf(a), a)
  {
    var b :| InUse(g, p.slabs, b, a);
    NodeNamesSlab(g, b, a);
  }

  lemma {:induction false} SameSlabApart(g: Geometry, base: nat, a: nat, b: nat)
    requires g.Valid() && IsNode(g, base, a) && IsNode(g, base, b) && a < b
    ensures a + g.nodeSize <= b
  {
    var i: nat :| i < g.Num() && g.Node(base, i) == a;
    var j: nat :| j < g.Num() && g.Node(base, j) == b;
    if j < i {
      NodesApart(g, base, j, i);
    } else if i < j {
      NodesApart(g, base, i, j);
    }
  }

  /** Nodes in use overlap neither each other nor the header of a slab. */
  lemma {:induction false} NodesInUseApart(g: Geometry, p: Pages, out: set<nat>, a: nat, b: nat)
    requires PagesOk(g, p, out) && a in out && b in out && a < b
    ensures a + g.nodeSize <= b
    ensures forall page :: page in p.slabs ==> a >= page + HEADER || a + g.nodeSize <= page
  {
    hide IsNode, ListsOk, OutOk, Geometry.SlabOf, Geometry.Num;
    OwnSlab(g, p, out, a);
    OwnSlab(g, p, out, b);
    var x, y := g.SlabOf(a), g.SlabOf(b);
    NodeNamesSlab(g, x, a);
    NodeNamesSlab(g, y, b);
    forall page | page in p.slabs ensures page <= x || page >= x + g.pagesize {
      SlabApart(g, p.slabs, x, page);
    }
    if x == y {
      SameSlabApart(g, x, a, b);
    } else {
      SlabApart(g, p.slabs, x, y);
      SlabApart(g, p.slabs, y, x);
    }
  }

  lemma SlabApart(g: Geometry, slabs: map<nat, Slab>, x: nat, y: nat)
    requires g.Valid() && SlabsOk(g, slabs) && x in slabs && y in slabs
    ensures x < y ==> x + g.pagesize <= y
  {
    assert SlabOk(g, x, slabs[x]) && SlabOk(g, y, slabs[y]);
    if x < y {
      MultiplesApart(x, y, g.pagesize);
    }
  }

  lemma MultiplesApart(x: nat, y: nat, d: nat)
    requires d > 0 && x % d == 0 && y % d == 0 && x < y
    ensures x + d <= y
  {
    var i, j := x / d, y / d;
    assert x == i * d && y == j * d;
    if j <= i {
      MulMonotone(j, i, d);
    } else {
      MulMonotone(i + 1, j, d);
    }
  }

  lemma {:induction false} SlabIsUsed(g: Geometry, p: Pages, out: set<nat>, b: nat)
    requires PagesOk(g, p, out) && b in p.slabs
    ensures out != {}
  {
    SomeNodeInUse(g, b, p.slabs[b]);
    var a :| IsNode(g, b, a) && a !in p.slabs[b].freelist;
    assert InUse(g, p.slabs, b, a);
    assert a in out;
  }

  /** When every node has been freed, both lists are empty, as `fuse_destroy` asserts. */
  lemma {:induction false} AllFreedLeavesNothing(g: Geometry, p: Pages, out: set<nat>)
    requires PagesOk(g, p, out)
    ensures out == {} <==> p.partial == [] && p.full == []
  {
    hide SlabOk, IsNode, SlabsOk, InUse;
    if out != {} {
      var a :| a in out;
      OwnSlab(g, p, out, a);
      assert g.SlabOf(a) in p.slabs by {
        UseNeedsSlab(g, p.slabs, g.SlabOf(a), a);
      }
    } else if p.partial != [] {
      assert p.partial[0] in p.partial;
      SlabIsUsed(g, p, out, p.partial[0]);
    } else if p.full != [] {
      assert p.full[0] in p.full;
      SlabIsUsed(g, p, out, p.full[0]);
    }
  }

  lemma UseNeedsSlab(g: Geometry, slabs: map<nat, Slab>, b: nat, a: nat)
    requires g.Valid() && InUse(g, slabs, b, a)
    ensures b in slabs
  {
  }

  /** `list_del`. */
  function Without(s: seq<nat>, x: nat): (r: seq<nat>)
    ensures forall y :: y in r <==> y in s && y != x
  {
    if s == [] then [] else if s[0] == x then Without(s[1..], x) else [s[0]] + Without(s[1..], x)
  }

  lemma {:induction false} WithoutIsDistinct(s: seq<nat>, x: nat)
    requires Distinct(s)
    ensures Distinct(Without(s, x))
  {
    if s != [] {
      assert s[0] !in s[1..];
      WithoutIsDistinct(s[1..], x);
    }
  }

  /** The first free node of the first slab on the partial list is handed out. */
  function Take(p: Pages): Pages
    requires p.partial != [] && p.partial[0] in p.slabs && p.slabs[p.partial[0]].freelist != []
  {
    var b := p.partial[0];
    var s := p.slabs[b];
    var slabs := p.slabs[b := Slab(s.freelist[1..], s.used + 1)];
    if s.freelist[1..] == [] then Pages(slabs, p.partial[1..], p.full + [b]) else p.(slabs := slabs)
  }

  /** The slab of a freed node goes on, moves to the partial list, or is unmapped. */
  function Give(g: Geometry, p: Pages, a: nat): Pages
    requires g.Valid() && g.SlabOf(a) in p.slabs
  {
    var b := g.SlabOf(a);
    var s := p.slabs[b];
    if s.used - 1 == 0 then Pages(p.slabs - {b}, Without(p.partial, b), Without(p.full, b))
    else
      var slabs := p.slabs[b := Slab([a] + s.freelist, s.used - 1)];
      if s.freelist == [] then Pages(slabs, p.partial + [b], Without(p.full, b)) else p.(slabs := slabs)
  }

  /** As `SlabOk`, for a slab whose nodes may all be free. */
  ghost predicate NewSlabOk(g: Geometry, base: nat, s: Slab)
    requires g.Valid()
  {
    && base % g.pagesize == 0 && 0 <= s.used && s.used + |s.freelist| == g.Num()
    && Distinct(s.freelist) && forall a :: a in s.freelist ==> IsNode(g, base, a)
  }

  lemma DistinctRest(s: seq<nat>)
    requires Distinct(s) && s != []
    ensures Distinct(s[1..]) && forall x :: x in s[1..] <==> x in s && x != s[0]
  {
    assert s == [s[0]] + s[1..];
  }

  lemma DistinctMore(s: seq<nat>, x: nat)
    requires Distinct(s) && x !in s
    ensures Distinct(s + [x])
  {
  }

  lemma {:induction false} TakeKeepsLists(p: Pages, p': Pages)
    requires ListsOk(p) && p.partial != [] && p.partial[0] in p.slabs && p.slabs[p.partial[0]].freelist != []
    requires p' == Take(p)
    ensures ListsOk(p')
  {
    var b := p.partial[0];
    DistinctRest(p.partial);
    if p.slabs[b].freelist[1..] == [] {
      DistinctMore(p.full, b);
    }
    hide Distinct;
  }

  lemma {:induction false} TakeKeepsOut(g: Geometry, slabs: map<nat, Slab>, out: set<nat>, b: nat, slabs': map<nat, Slab>)
    requires g.Valid() && OutOk(g, slabs, out) && b in slabs && slabs[b].freelist != [] && NewSlabOk(g, b, slabs[b])
    requires forall x :: x in slabs && x != b ==> SlabOk(g, x, slabs[x])
    requires slabs' == slabs[b := Slab(slabs[b].freelist[1..], slabs[b].used + 1)]
    ensures var a := slabs[b].freelist[0]; a !in out && SlabsOk(g, slabs') && OutOk(g, slabs', out + {a})
  {
    hide IsNode;
    var f := slabs[b].freelist;
    var a := f[0];
    assert f == [a] + f[1..] && a !in f[1..];
    forall x, y | x in slabs && IsNode(g, x, y) ensures g.SlabOf(y) == x {
      NodeNamesSlab(g, x, y);
    }
    assert InUse(g, slabs', b, a);
    forall y ensures y in out + {a} <==> exists x :: InUse(g, slabs', x, y) {
      if y in out {
        var x :| InUse(g, slabs, x, y);
        assert InUse(g, slabs', x, y);
      } else if x :| InUse(g, slabs', x, y) {
        assert y == a || InUse(g, slabs, x, y);
      }
    }
  }

  lemma {:induction false} GiveKeepsLists(g: Geometry, p: Pages, a: nat, p': Pages)
    requires g.Valid() && ListsOk(p) && g.SlabOf(a) in p.slabs && p' == Give(g, p, a)
    ensures ListsOk(p')
  {
    WithoutIsDistinct(p.full, g.SlabOf(a));
    WithoutIsDistinct(p.partial, g.SlabOf(a));
  }

  lemma {:induction false} GiveKeepsOut(g: Geometry, p: Pages, out: set<nat>, a: nat, p': Pages)
    requires PagesOk(g, p, out) && a in out && g.SlabOf(a) in p.slabs && p' == Give(g, p, a)
    ensures SlabsOk(g, p'.slabs) && OutOk(g, p'.slabs, out - {a})
  {
    hide IsNode, ListsOk;
    OwnSlab(g, p, out, a);
    var b := g.SlabOf(a);
    FreeListIsRest(g, b, p.slabs[b], a);
    forall x, y | x in p.slabs && IsNode(g, x, y) ensures g.SlabOf(y) == x {
      NodeNamesSlab(g, x, y);
    }
    forall y | y in out && y != a ensures exists x :: InUse(g, p'.slabs, x, y) {
      var x :| InUse(g, p.slabs, x, y);
      assert InUse(g, p'.slabs, x, y);
    }
    forall x, y | InUse(g, p'.slabs, x, y) ensures y != a && InUse(g, p.slabs, x, y) {
    }
  }

  class Allocator {
    const g: Geometry
    var slabs: map<nat, Slab>
    var partial: seq<nat>
    var full: seq<nat>
    ghost var out: set<nat>

    ghost function All(): Pages
      reads this
    {
      Pages(slabs, partial, full)
    }

    ghost predicate Valid()
      reads this
    {
      PagesOk(g, All(), out)
    }

    constructor (g: Geometry)
      requires g.Valid()
      ensures Valid() && this.g == g && out == {}
    {
      this.g, slabs, partial, full, out := g, map[], [], [], {};
    }

    /** `alloc_slab`, given a fresh page: its nodes are all free. */
    method AllocSlab(page: nat)
      requires g.Valid() && page % g.pagesize == 0
      modifies this`slabs, this`partial
      ensures page in slabs && slabs == old(slabs)[page := slabs[page]] && partial == old(partial) + [page]
      ensures slabs[page].used == 0 && NewSlabOk(g, page, slabs[page])
      ensures forall a :: a in slabs[page].freelist <==> IsNode(g, page, a)
    {
      var freelist: seq<nat> := [];
      for i := 0 to g.Num()
        invariant |freelist| == i && forall k :: 0 <= k < i ==> freelist[k] == g.Node(page, k)
        invariant Distinct(freelist) && slabs == old(slabs) && partial == old(partial)
      {
        NodesFit(g, page, i);
        forall k | 0 <= k < i ensures freelist[k] != g.Node(page, i) {
          NodesApart(g, page, k, i);
        }
        freelist := freelist + [g.Node(page, i)];
      }
      forall a | IsNode(g, page, a) ensures a in freelist {
        var i: nat :| i < g.Num() && g.Node(page, i) == a;
        assert freelist[i] == a;
      }
      slabs := slabs[page := Slab(freelist, 0)];
      partial := partial + [page];
    }

    /** The part of `alloc_node` that takes a node from the first slab of the partial list. */
    method TakeNode() returns (node: nat)
      requires g.Valid() && OutOk(g, slabs, out) && ListsOk(All()) && partial != []
      requires var b := partial[0]; b in slabs && slabs[b].freelist != [] && NewSlabOk(g, b, slabs[b])
      requires forall x :: x in slabs && x != partial[0] ==> SlabOk(g, x, slabs[x])
      modifies this
      ensures Valid() && node !in old(out) && out == old(out) + {node}
    {
      hide OutOk, SlabsOk, SlabOk, NewSlabOk, IsNode, ListsOk;
      ghost var p := All();
      var b := partial[0];
      var s := slabs[b];
      slabs := slabs[b := Slab(s.freelist[1..], s.used + 1)];
      if s.freelist[1..] == [] {
        partial, full := partial[1..], full + [b];
      }
      TakeKeepsOut(g, p.slabs, out, b, slabs);
      TakeKeepsLists(p, All());
      node := s.freelist[0];
      out := out + {node};
    }

    /** `alloc_node`; `page` is what `mmap` returns if it is called. */
    method AllocNode(page: Option<nat>) returns (node: Option<nat>)
      requires Valid() && (page.Some? ==> page.value % g.pagesize == 0 && page.value !in slabs)
      modifies this
      ensures Valid()
      ensures node == None <==> old(partial) == [] && page == None
      ensures if node == None then out == old(out) else node.value !in old(out) && out == old(out) + {node.value}
    {
      hide OutOk, SlabsOk, SlabOk, NewSlabOk, IsNode, ListsOk;
      if partial == [] {
        if page == None {
          return None;
        }
        ghost var p := All();
        AllocSlab(page.value);
        NewSlabIsFree(g, p, out, page.value, All());
      } else {
        PartialHasFree(g, All(), out);
      }
      var a := TakeNode();
      node := Some(a);
    }

    /** `free_node_mem`. */
    method FreeNodeMem(node: nat)
      requires Valid() && node in out
      modifies this
      ensures Valid() && out == old(out) - {node}
    {
      hide OutOk, SlabsOk, SlabOk, IsNode, ListsOk, Without;
      ghost var p := All();
      OwnSlab(g, p, out, node);
      var b := g.SlabOf(node);
      var s := slabs[b];
      if s.used - 1 != 0 {
        if s.freelist == [] {
          full, partial := Without(full, b), partial + [b];
        }
        slabs := slabs[b := Slab([node] + s.freelist, s.used - 1)];
      } else {
        full, partial := Without(full, b), Without(partial, b);
        slabs := slabs - {b};
      }
      GiveKeepsOut(g, p, out, node, All());
      GiveKeepsLists(g, p, node, All());
      out := out - {node};
    }
  }

  lemma {:induction false} PartialHasFree(g: Geometry, p: Pages, out: set<nat>)
    requires PagesOk(g, p, out) && p.partial != []
    ensures var b := p.partial[0];
            && b in p.slabs && p.slabs[b].freelist != [] && NewSlabOk(g, b, p.slabs[b])
            && forall x :: x in p.slabs && x != b ==> SlabOk(g, x, p.slabs[x])
  {
  }

  /** A fresh page puts no node into use. */
  lemma {:induction false} NewSlabIsFree(g: Geometry, p: Pages, out: set<nat>, page: nat, p': Pages)
    requires PagesOk(g, p, out) && p.partial == [] && page !in p.slabs && page in p'.slabs
    requires p' == Pages(p.slabs[page := p'.slabs[page]], [page], p.full) && NewSlabOk(g, page, p'.slabs[page])
    requires p'.slabs[page].used == 0
    requires forall a :: a in p'.slabs[page].freelist <==> IsNode(g, page, a)
    ensures OutOk(g, p'.slabs, out) && ListsOk(p') && p'.slabs[page].freelist != []
    ensures forall x :: x in p'.slabs && x != page ==> SlabOk(g, x, p'.slabs[x])
  {
    DivisionBounds(g.pagesize - HEADER, g.nodeSize);
    forall a ensures a in out <==> exists b :: InUse(g, p'.slabs, b, a) {
      if a in out {
        var b :| InUse(g, p.slabs, b, a);
        assert InUse(g, p'.slabs, b, a);
      } else if b :| InUse(g, p'.slabs, b, a) {
        assert InUse(g, p.slabs, b, a);
      }
    }
  }
}
