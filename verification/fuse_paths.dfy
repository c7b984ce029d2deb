/** `try_get_path`, `unlock_path` and the wait queue on node objects: the walks
    along parent pointers, the counting in place, and the rollback, each shown to
    do what the functions on lock words say. */
module FusePaths {
  import opened Wrappers
  import opened PathTree
  import opened TreeLocks
  import opened PathNames
  import opened LockQueue
  import LockRuns
  import LockSteps

  /** `struct node`, as far as the tree, its locks and its counts go. */
  class Node {
    const nodeid: Id
    const generation: nat
    var parent: Node?
    var name: Option<string>
    var treelock: int
    var refctr: int
    var nlookup: nat

    /** `alloc_node` clears the memory. */
    constructor (nodeid: Id, generation: nat)
      ensures this.nodeid == nodeid && this.generation == generation
      ensures parent == null && name == None && treelock == 0 && refctr == 0 && nlookup == 0
    {
      this.nodeid, this.generation := nodeid, generation;
      parent, name, treelock, refctr, nlookup := null, None, 0, 0, 0;
    }
  }

  ghost function LinkOf(n: Node): Link
    reads n`parent, n`name
  {
    if n.parent == null || n.name.None? then Unlinked else Linked(n.parent.nodeid, n.name.value)
  }

  /** `struct lock_queue_element`, on the stack of the waiting thread. */
  class LockQueueElement {
    const req: nat
    /** `path1` is null: just waiting for `nodeid1` to be unlocked. */
    const onlyWaits: bool
    const path1: Path
    const path2: Option<Path>
    var wnode1: Node?
    var wnode2: Node?
    var firstLocked: bool
    var secondLocked: bool
    var done: bool
    var err: Option<Err>

    ghost function Abstract(): Waiter
      reads this`done, this`err
    {
      if onlyWaits then Forget(req, path1.nodeid)
      else Paths(req, path1, path2, if done then Done(err) else Waiting)
    }

    /** `queue_path` starts with nothing locked. */
    constructor (req: nat, onlyWaits: bool, path1: Path, path2: Option<Path>)
      ensures this.req == req && this.onlyWaits == onlyWaits && this.path1 == path1 && this.path2 == path2
      ensures !done && !firstLocked && !secondLocked && wnode1 == null && wnode2 == null
    {
      this.req, this.onlyWaits, this.path1, this.path2 := req, onlyWaits, path1, path2;
      done, firstLocked, secondLocked, err, wnode1, wnode2 := false, false, false, None, null, null;
    }
  }

  class Fuse {
    /** The id and name tables, as the plain maps they refine. */
    var idTable: map<Id, Node>
    var nameTable: map<(Id, string), Node>
    var lockq: seq<LockQueueElement>
    /** The outstanding path locks. */
    ghost var holds: map<Token, Hold>

    /** The node objects in the tables. */
    ghost var nodes: set<Node>

    ghost predicate Owned()
      reads this`idTable, this`nodes
    {
      forall i :: i in idTable ==> idTable[i] in nodes
    }

    ghost predicate Shape()
      requires Owned()
      reads this`idTable, this`nameTable, this`nodes, nodes`parent, nodes`name
    {
      && (forall i :: i in idTable ==>
            && idTable[i].nodeid == i
            && (idTable[i].parent == null <==> idTable[i].name == None)
            && (idTable[i].parent != null ==>
                  var p := idTable[i].parent; p.nodeid in idTable && idTable[p.nodeid] == p))
      && (forall k :: k in nameTable ==>
            var n := nameTable[k]; n.nodeid in idTable && idTable[n.nodeid] == n)
    }

    ghost function Links(): map<Id, Link>
      requires Owned()
      reads this`idTable, this`nodes, nodes`parent, nodes`name
    {
      map i | i in idTable :: LinkOf(idTable[i])
    }

    ghost function Names(): map<(Id, string), Id>
      reads this`nameTable
    {
      map k | k in nameTable :: nameTable[k].nodeid
    }

    ghost function Words(): Locks
      requires Owned()
      reads this`idTable, this`nodes, nodes`treelock
    {
      map i | i in idTable :: idTable[i].treelock
    }

    ghost function Snapshot(): Core
      requires Owned()
      reads this, nodes
    {
      Core(Tree(Links(), Names()), Words(), holds)
    }

    ghost predicate Has(n: Node?)
      reads this`idTable, this`nodes
    {
      n != null && n in nodes && n.nodeid in idTable && idTable[n.nodeid] == n
    }

    lemma Member(i: Id)
      requires Owned() && Shape() && i in idTable
      ensures Has(idTable[i]) && idTable[i].nodeid == i && (idTable[i].parent == null <==> idTable[i].name == None)
      ensures idTable[i].parent != null ==> Has(idTable[i].parent)
      ensures i in Links() && Links()[i] == LinkOf(idTable[i]) && i in Words() && Words()[i] == idTable[i].treelock
    {
    }

    lemma Keys()
      requires Owned()
      ensures Links().Keys == Words().Keys == idTable.Keys
    {
    }

    /** Assigns a lock word. */
    method SetTreelock(n: Node, v: int)
      requires Owned() && Shape() && Has(n)
      modifies n`treelock
      ensures n.treelock == v && Words() == old(Words())[n.nodeid := v]
    {
      n.treelock := v;
    }

    /** The loop body of `unlock_path`. */
    method UnlockNode(n: Node)
      requires Owned() && Shape() && Has(n) && n.treelock !in {0, TREELOCK_WAIT_OFFSET, TREELOCK_WRITE}
      modifies n`treelock
      ensures Words() == old(Words())[n.nodeid := OneReaderLess(old(n.treelock))]
    {
      n.treelock := n.treelock - 1;
      if n.treelock == TREELOCK_WAIT_OFFSET {
        n.treelock := 0;
      }
    }

    /** `unlock_path`, for the nodes `c` from `nodeid` up to and excluding `end`,
        or up to the root when `end` is null. */
    method UnlockPath(nodeid: Id, wnode: Node?, end: Node?, ghost up: seq<Id>, ghost c: seq<Id>)
      requires Owned() && Shape() && nodeid in idTable && IsUp(Links(), nodeid, up) && c <= up
      requires wnode != null ==> Has(wnode)
      requires UnlockAssertionsHold(Words(), if wnode == null then None else Some(wnode.nodeid), c)
      requires if end == null then c == up && Top(Links(), nodeid, up) == ROOT
               else Has(end) && end.nodeid == NodeAt(Links(), nodeid, up, |c|)
      modifies nodes`treelock
      ensures Words() == UnlockAll(SetLock(old(Words()), if wnode == null then None else Some(wnode.nodeid), 0), c)
    {
      hide IsUp, Top, UnlockAll, OneReaderLess, NodeAt, Shape, Links, Words;
      Keys();
      ghost var links := Links();
      if wnode != null {
        SetTreelock(wnode, 0);
      }
      ghost var words := Words();
      UnlockFirst(words, links, nodeid, up, c);
      Member(nodeid);
      var node: Node? := idTable[nodeid];
      ghost var k := 0;
      while node != end && node.nodeid != ROOT
        invariant 0 <= k <= |c| && Links() == links
        invariant Has(node) && node.nodeid == NodeAt(links, nodeid, up, k)
        invariant Words() == UnlockAll(words, c[..k])
        decreases |c| - k
      {
        UnlockStep(links, nodeid, up, c, k, if end == null then None else Some(end.nodeid), node.nodeid);
        UnlockOneMore(words, c, k);
        Member(node.nodeid);
        UnlockNode(node);
        node := node.parent;
        k := k + 1;
      }
      UnlockStep(links, nodeid, up, c, k, if end == null then None else Some(end.nodeid), node.nodeid);
      assert c[..k] == c;
    }

    /** `lookup_node`. */
    method LookupNode(parent: Id, name: string) returns (n: Node?)
      requires Owned() && Shape()
      ensures if n == null then Lookup(Tree(Links(), Names()), parent, name) == None
              else Has(n) && Lookup(Tree(Links(), Names()), parent, name) == Some(n.nodeid)
    {
      n := if (parent, name) in nameTable then nameTable[(parent, name)] else null;
    }

    /** Counts one more reader. */
    method LockNode(n: Node)
      requires Owned() && Shape() && Has(n)
      modifies n`treelock
      ensures Words() == old(Words())[n.nodeid := old(n.treelock) + 1]
    {
      n.treelock := n.treelock + 1;
    }

    /** `try_get_path` with locking. `mem` name copies succeed. */
    method TryGetPath(nodeid: Id, name: Option<string>, write: bool, mem: nat, ghost up: seq<Id>)
      returns (r: Outcome, path: string, wnode: Node?)
      requires Owned() && Shape() && nodeid in idTable && (write ==> name.Some?) && IsUp(Links(), nodeid, up)
      modifies nodes`treelock
      ensures var p, t := PathSpec(nodeid, name, write), Tree(Links(), Names());
              (Words(), r) == TryLocks(old(Words()), up, Top(Links(), nodeid, up) != ROOT, name.Some?, WriteNode(t, p), mem)
      ensures r.Granted? ==> path == PathString(Links(), up, name)
      ensures r.Granted? ==> if wnode == null then r.wnode == None else Has(wnode) && r.wnode == Some(wnode.nodeid)
    {
      hide IsUp, Top, TryLocks, Scan, PathTo, LockAll, Shape, Links, Names, Words;
      Keys();
      ghost var before, links, stale := Words(), Links(), Top(Links(), nodeid, up) != ROOT;
      ghost var w := WriteNode(Tree(links, Names()), PathSpec(nodeid, name, write));
      path, wnode := "", null;
      var left := mem;
      if name.Some? {
        if left == 0 {
          TryLocksRefused(before, up, stale, true, w, mem);
          return Failed(NoMemory), "", null;
        }
        left := left - 1;
        path := "/" + name.value;
      }
      if write {
        var busy;
        busy, wnode := WriteLock(nodeid, name.value);
        if busy {
          TryLocksRefused(before, up, stale, name.Some?, w, mem);
          return Failed(Again), "", null;
        }
      }
      TryLocksEnds(before, up, stale, name.Some?, w, mem);
      var err;
      err, path := LockWay(nodeid, wnode, left, path, up, before);
      assert Links() == links;
      r := if err.Some? then Failed(err.value) else Granted(if wnode == null then None else Some(wnode.nodeid));
    }

    /** Write-locks the child `name`, if it is cached, or marks it as waited for. */
    method WriteLock(parent: Id, name: string) returns (busy: bool, wnode: Node?)
      requires Owned() && Shape()
      modifies nodes`treelock
      ensures var w := Lookup(Tree(Links(), Names()), parent, name);
              && w == (if wnode == null then None else Some(wnode.nodeid)) && (wnode != null ==> Has(wnode))
              && (busy <==> w.Some? && Word(old(Words()), w.value) != 0)
              && Words() ==
                   if !busy then SetLock(old(Words()), w, TREELOCK_WRITE)
                   else
                     var v := Word(old(Words()), w.value);
                     old(Words())[w.value := if v > 0 then v + TREELOCK_WAIT_OFFSET else v]
    {
      hide Shape, Links, Names, Words;
      busy := false;
      wnode := LookupNode(parent, name);
      if wnode != null {
        Member(wnode.nodeid);
        busy := wnode.treelock != 0;
        if !busy {
          SetTreelock(wnode, TREELOCK_WRITE);
        } else if wnode.treelock > 0 {
          SetTreelock(wnode, wnode.treelock + TREELOCK_WAIT_OFFSET);
        }
      }
    }

    /** The loop of `try_get_path`: read-locks the way up, collecting its names in
        front of `tail`, or undoes everything. */
    method LockWay(nodeid: Id, wnode: Node?, mem: nat, tail: string, ghost up: seq<Id>, ghost before: Locks)
      returns (err: Option<Err>, path: string)
      requires Owned() && Shape() && nodeid in idTable && IsUp(Links(), nodeid, up)
      requires (wnode != null ==> Has(wnode)) && before.Keys == idTable.Keys
      requires var w := if wnode == null then None else Some(wnode.nodeid);
               Words() == SetLock(before, w, TREELOCK_WRITE) && (w.Some? ==> before[w.value] == 0)
      modifies nodes`treelock
      ensures err == Scan(old(Words()), up, Top(Links(), nodeid, up) != ROOT, mem)
      ensures Words() == if err == None then LockAll(old(Words()), up) else before
      ensures err == None ==> var s := PathTo(Links(), up) + tail; path == if s == "" then "/" else s
    {
      hide IsUp, Top, LockAll, Scan, PathTo, Walking, NodeAt, Shape, Links, Words;
      Keys();
      ghost var links, marked := Links(), Words();
      WalkingStarts(marked, links, nodeid, up, mem, tail);
      err, path := None, tail;
      var left := mem;
      Member(nodeid);
      var node: Node? := idTable[nodeid];
      ghost var k := 0;
      while node.nodeid != ROOT
        invariant err == None && Links() == links && Has(node) && node.nodeid == NodeAt(links, nodeid, up, k)
        invariant Walking(marked, links, nodeid, up, mem, tail, Words(), left, path, k)
        decreases |up| - k
      {
        Member(node.nodeid);
        WalkingStep(marked, links, nodeid, up, mem, tail, Words(), left, path, k);
        if node.name == None || node.parent == null {
          err := Some(Stale);
          break;
        }
        if left == 0 {
          err := Some(NoMemory);
          break;
        }
        left := left - 1;
        path := "/" + node.name.value + path;
        if node.treelock < 0 {
          err := Some(Again);
          break;
        }
        LockNode(node);
        node := node.parent;
        k := k + 1;
      }
      if err.Some? {
        RollBack(nodeid, wnode, node, up, k, before);
        return err, "";
      }
      WalkingEnds(marked, links, nodeid, up, mem, tail, Words(), left, path, k);
      if path == "" {
        path := "/";
      }
    }

    /** The failure exit of `try_get_path`. */
    method RollBack(nodeid: Id, wnode: Node?, end: Node, ghost up: seq<Id>, ghost k: nat, ghost before: Locks)
      requires Owned() && Shape() && nodeid in idTable && IsUp(Links(), nodeid, up) && k <= |up|
      requires (wnode != null ==> Has(wnode)) && Has(end) && end.nodeid == NodeAt(Links(), nodeid, up, k)
      requires var w := if wnode == null then None else Some(wnode.nodeid);
               var marked := SetLock(before, w, TREELOCK_WRITE);
               && before.Keys == idTable.Keys && (w.Some? ==> before[w.value] == 0)
               && Words() == LockAll(marked, up[..k]) && forall i :: i in up[..k] ==> Word(marked, i) >= 0
      modifies nodes`treelock
      ensures Words() == before
    {
      hide IsUp, Top, NodeAt;
      OnWayIsLinked(Links(), nodeid, up);
      forall i | i in up[..k] ensures i in before {
        assert i in up && i in Links();
      }
      RollBackWords(before, if wnode == null then None else Some(wnode.nodeid), up[..k]);
      UnlockPath(nodeid, wnode, end, up, up[..k]);
    }

    ghost predicate Good()
      reads this, nodes
    {
      Owned() && Shape() && Valid(Snapshot())
    }

    /** `fuse_new`: only the root exists, with the lookup that keeps it. */
    constructor ()
      ensures Good() && QueueElementsOk() && fresh(nodes) && lockq == []
      ensures Snapshot() == LockRuns.Initial().core
      ensures idTable.Keys == {ROOT} && idTable[ROOT].refctr == 1 && idTable[ROOT].nlookup == 1
    {
      var root := new Node(ROOT, 0);
      root.refctr, root.nlookup := 1, 1;
      idTable, nameTable, lockq, holds, nodes := map[ROOT := root], map[], [], map[], {root};
      new;
      assert Links() == map[ROOT := Unlinked] && Names() == map[] && Words() == map[ROOT := 0];
      LockRuns.InitialInv();
    }

    /** The node pointer recorded with a hold. */
    ghost predicate WnodeIs(wnode: Node?, w: Option<Id>)
      reads this`idTable, this`nodes
    {
      if w == None then wnode == null else Has(wnode) && wnode.nodeid == w.value
    }

    /** `try_get_path` for path `tok` of a request. */
    method TryGetFor(ghost tok: Token, p: Path, mem: nat) returns (r: Outcome, path: string, wnode: Node?)
      requires Good() && p.nodeid in idTable && tok !in holds && tok.req < MAX_REQUESTS
      modifies nodes`treelock, this`holds
      ensures Good() && (Snapshot(), r) == TryGet(old(Snapshot()), tok, p, mem)
      ensures if r.Granted? then WnodeIs(wnode, r.wnode) && holds == old(holds)[tok := Hold(p, r.wnode, UpChain(Links(), p.nodeid))]
              else holds == old(holds)
      ensures r.Granted? ==> path == PathString(Links(), UpChain(Links(), p.nodeid), p.name)
    {
      hide Valid, IsUp, Top, Shape, TryGet, TryLocks, Links, Names, Words;
      Keys();
      ghost var s := Snapshot();
      ghost var up := UpChain(Links(), p.nodeid);
      NodesOf(s, p);
      r, path, wnode := TryGetPath(p.nodeid, p.name, p.write, mem, up);
      TryGetByWords(s, tok, p, mem, Words(), r);
      if r.Granted? {
        holds := holds[tok := Hold(p, r.wnode, up)];
      }
      ghost var s' := Snapshot();
      assert s' == Core(s.tree, Words(), holds);
      TryGetKeepsValid(s, tok, p, mem, s');
    }

    /** `unlock_path` for a granted path. */
    method UnlockFor(ghost tok: Token, nodeid: Id, wnode: Node?)
      requires Good() && tok in holds && holds[tok].path.nodeid == nodeid && WnodeIs(wnode, holds[tok].wnode)
      modifies nodes`treelock, this`holds
      ensures Good() && Snapshot() == Unlock(old(Snapshot()), tok) && holds == old(holds) - {tok}
    {
      hide Valid, IsUp, Top, Shape, UnlockAll, UnlockAssertionsHold, Links, Names, Words;
      Keys();
      ghost var s := Snapshot();
      ghost var up := UpChain(Links(), nodeid);
      WayIsAsRecorded(s, tok);
      UnlockNeverAsserts(s, tok);
      UnlockPath(nodeid, wnode, null, up, up);
      holds := holds - {tok};
      ghost var s' := Snapshot();
      assert s' == Core(s.tree, Words(), holds);
      UnlockKeepsValid(s, tok, s');
    }

    /** The bits and pointers of a queue element agree with the holds. */
    ghost predicate ElementOk(e: LockQueueElement)
      reads this`idTable, this`nodes, this`holds, e
    {
      var t1, t2 := Token(e.req, false), Token(e.req, true);
      && e.req < MAX_REQUESTS && e.path1.nodeid in idTable && (e.path2.Some? ==> e.path2.value.nodeid in idTable)
      && (e.firstLocked <==> t1 in holds) && (e.secondLocked <==> t2 in holds)
      && (e.firstLocked ==> holds[t1].path == e.path1 && WnodeIs(e.wnode1, holds[t1].wnode))
      && (e.secondLocked ==>
            e.path2.Some? && holds[t2].path == e.path2.value && WnodeIs(e.wnode2, holds[t2].wnode))
    }

    /** Elements of other requests, which what happens to `qe` must not touch. */
    ghost predicate OthersOk(qe: LockQueueElement, others: set<LockQueueElement>)
      reads this`idTable, this`nodes, this`holds, others
    {
      forall e :: e in others ==> e != qe && e.req != qe.req && ElementOk(e)
    }

    /** `queue_element_unlock`. */
    method QueueElementUnlock(qe: LockQueueElement, ghost others: set<LockQueueElement>)
      requires Good() && ElementOk(qe) && OthersOk(qe, others)
      modifies nodes`treelock, this`holds, qe`firstLocked, qe`secondLocked
      ensures Good() && ElementOk(qe) && OthersOk(qe, others) && !qe.firstLocked && !qe.secondLocked
      ensures Snapshot() == ReleaseBoth(old(Snapshot()), qe.req)
    {
      hide Good, ElementOk, Snapshot, Release;
      UnlockFirstPath(qe, others);
      UnlockSecondPath(qe, others);
    }

    method UnlockFirstPath(qe: LockQueueElement, ghost others: set<LockQueueElement>)
      requires Good() && ElementOk(qe) && OthersOk(qe, others)
      modifies nodes`treelock, this`holds, qe`firstLocked
      ensures Good() && ElementOk(qe) && OthersOk(qe, others) && !qe.firstLocked
      ensures Snapshot() == Release(old(Snapshot()), Token(qe.req, false))
    {
      hide Good, Unlock;
      if qe.firstLocked {
        UnlockFor(Token(qe.req, false), qe.path1.nodeid, qe.wnode1);
        qe.firstLocked := false;
      }
    }

    method UnlockSecondPath(qe: LockQueueElement, ghost others: set<LockQueueElement>)
      requires Good() && ElementOk(qe) && OthersOk(qe, others)
      modifies nodes`treelock, this`holds, qe`secondLocked
      ensures Good() && ElementOk(qe) && OthersOk(qe, others) && !qe.secondLocked
      ensures Snapshot() == Release(old(Snapshot()), Token(qe.req, true))
    {
      hide Good, Unlock;
      if qe.secondLocked {
        UnlockFor(Token(qe.req, true), qe.path2.value.nodeid, qe.wnode2);
        qe.secondLocked := false;
      }
    }

    /** `queue_element_wakeup`. */
    method QueueElementWakeup(qe: LockQueueElement, first: bool, mem: Memory, ghost others: set<LockQueueElement>)
      requires Good() && ElementOk(qe) && OthersOk(qe, others)
      modifies nodes`treelock, this`holds, qe
      ensures Good() && ElementOk(qe) && OthersOk(qe, others)
      ensures (Snapshot(), qe.Abstract()) == Wakeup(old(Snapshot()), old(qe.Abstract()), first, mem)
    {
      hide Good, TryGet, ReleaseBoth, Try, Snapshot, ElementOk, OthersOk;
      if qe.onlyWaits {
        return;
      }
      var t1, t2 := Token(qe.req, false), Token(qe.req, true);
      var err1, err2 := None, None;
      if !qe.firstLocked {
        err1 := TryFirst(qe, mem(t1), others);
        if err1.Some? && err1.value != Again {
          QueueElementUnlock(qe, others);
          MarkDone(qe, err1, others);
          return;
        }
      } else {
        TryHeld(qe, false, qe.path1, mem(t1));
      }
      if !qe.secondLocked && qe.path2.Some? {
        err2 := TrySecond(qe, mem(t2), others);
        if err2.Some? && err2.value != Again {
          QueueElementUnlock(qe, others);
          MarkDone(qe, err2, others);
          return;
        }
      } else if qe.path2.Some? {
        TryHeld(qe, true, qe.path2.value, mem(t2));
      }
      if qe.firstLocked && (qe.secondLocked || qe.path2 == None) {
        MarkDone(qe, None, others);
        return;
      }
      if !first {
        QueueElementUnlock(qe, others);
      }
    }

    method MarkDone(qe: LockQueueElement, err: Option<Err>, ghost others: set<LockQueueElement>)
      requires Good() && ElementOk(qe) && OthersOk(qe, others)
      modifies qe`done, qe`err
      ensures Good() && ElementOk(qe) && OthersOk(qe, others) && qe.done && qe.err == err && Snapshot() == old(Snapshot())
    {
      hide Good, Snapshot;
      qe.err, qe.done := err, true;
    }

    lemma TryHeld(qe: LockQueueElement, second: bool, p: Path, mem: nat)
      requires Good() && ElementOk(qe) && if second then qe.secondLocked else qe.firstLocked
      ensures Try(Snapshot(), Token(qe.req, second), p, mem) == (Snapshot(), None)
    {
    }

    method TryFirst(qe: LockQueueElement, mem: nat, ghost others: set<LockQueueElement>) returns (err: Option<Err>)
      requires Good() && ElementOk(qe) && OthersOk(qe, others) && !qe.firstLocked
      modifies nodes`treelock, this`holds, qe`firstLocked, qe`wnode1
      ensures Good() && ElementOk(qe) && OthersOk(qe, others) && (qe.firstLocked <==> err == None)
      ensures (Snapshot(), err) == Try(old(Snapshot()), Token(qe.req, false), qe.path1, mem)
    {
      hide Good, TryGet, Links, Names, Words;
      var r, path, w := TryGetFor(Token(qe.req, false), qe.path1, mem);
      if r.Granted? {
        qe.firstLocked, qe.wnode1 := true, w;
      }
      err := if r.Granted? then None else Some(r.err);
    }

    method TrySecond(qe: LockQueueElement, mem: nat, ghost others: set<LockQueueElement>) returns (err: Option<Err>)
      requires Good() && ElementOk(qe) && OthersOk(qe, others) && !qe.secondLocked && qe.path2.Some?
      modifies nodes`treelock, this`holds, qe`secondLocked, qe`wnode2
      ensures Good() && ElementOk(qe) && OthersOk(qe, others) && (qe.secondLocked <==> err == None)
      ensures (Snapshot(), err) == Try(old(Snapshot()), Token(qe.req, true), qe.path2.value, mem)
    {
      hide Good, TryGet, Links, Names, Words;
      var r, path, w := TryGetFor(Token(qe.req, true), qe.path2.value, mem);
      if r.Granted? {
        qe.secondLocked, qe.wnode2 := true, w;
      }
      err := if r.Granted? then None else Some(r.err);
    }

    ghost predicate QueueElementsOk()
      reads this`idTable, this`nodes, this`holds, this`lockq, lockq
    {
      && (forall k :: 0 <= k < |lockq| ==> ElementOk(lockq[k]))
      && forall j, k :: 0 <= j < k < |lockq| ==> lockq[j] != lockq[k] && lockq[j].req != lockq[k].req
    }

    static ghost function WaitersOf(q: seq<LockQueueElement>): (w: seq<Waiter>)
      reads q
      ensures |w| == |q|
    {
      seq(|q|, k requires 0 <= k < |q| reads q => q[k].Abstract())
    }

    ghost function Waiters(granted: set<nat>): State
      requires Owned()
      reads this, nodes, lockq
    {
      State(Snapshot(), WaitersOf(lockq), granted)
    }

    /** The loop body of `wake_up_queued`. */
    method WakeUpOne(k: nat, mem: Memory)
      requires Good() && QueueElementsOk() && k < |lockq|
      modifies nodes`treelock, this`holds, lockq
      ensures Good() && QueueElementsOk()
      ensures var (core, w) := Wakeup(old(Snapshot()), old(lockq[k].Abstract()), k == 0, mem);
              Snapshot() == core && WaitersOf(lockq) == old(WaitersOf(lockq))[k := w]
    {
      hide Wakeup, ElementOk, Snapshot, Shape, Valid;
      QueueElementWakeup(lockq[k], k == 0, mem, set j | 0 <= j < |lockq| && j != k :: lockq[j]);
    }

    /** `wake_up_queued`. */
    method WakeUpQueued(mem: Memory, ghost granted: set<nat>)
      requires Good() && QueueElementsOk()
      modifies nodes`treelock, this`holds, lockq
      ensures Good() && QueueElementsOk()
      ensures Waiters(granted) == WakeFrom(old(Waiters(granted)), 0, mem)
    {
      hide Wakeup, QueueElementsOk, Snapshot, Shape, Valid;
      ghost var start := Waiters(granted);
      var k := 0;
      while k < |lockq|
        invariant 0 <= k <= |lockq| && Good() && QueueElementsOk()
        invariant WakeFrom(start, 0, mem) == WakeFrom(Waiters(granted), k, mem)
      {
        WakeUpOne(k, mem);
        k := k + 1;
      }
    }

    /** `try_get_path2`. */
    method TryGetPath2(req: nat, p1: Path, p2: Path, mem1: nat, mem2: nat)
      returns (err: Option<Err>, path1: string, path2: string, wnode1: Node?, wnode2: Node?)
      requires Good() && p1.nodeid in idTable && p2.nodeid in idTable && req < MAX_REQUESTS
      requires HoldsNothing(Snapshot(), req)
      modifies nodes`treelock, this`holds
      ensures Good() && (Snapshot(), err) == LockSteps.TryGet2(old(Snapshot()), req, p1, p2, mem1, mem2)
      ensures err == None ==>
                && path1 == PathString(Links(), UpChain(Links(), p1.nodeid), p1.name)
                && path2 == PathString(Links(), UpChain(Links(), p2.nodeid), p2.name)
    {
      hide Good, TryGet, Unlock, PathString;
      var r;
      path2, wnode2 := "", null;
      r, path1, wnode1 := TryGetFor(Token(req, false), p1, mem1);
      if r.Granted? {
        r, path2, wnode2 := TryGetFor(Token(req, true), p2, mem2);
        if r.Failed? {
          UnlockFor(Token(req, false), p1.nodeid, wnode1);
        }
      }
      err := if r.Granted? then None else Some(r.err);
    }

    // ----- linking and unlinking, under f->lock

    ghost function NodeTree(): Tree
      requires Owned()
      reads this`idTable, this`nameTable, this`nodes, nodes`parent, nodes`name
    {
      Tree(Links(), Names())
    }

    /** The loop of `lookup_path_in_cache` over the components of the path. */
    method WalkPath(path: string) returns (ino: Option<Id>)
      requires Owned() && Shape()
      ensures ino == Resolve(NodeTree(), path)
    {
      hide Shape, Tokens, Links, Names;
      var id, pos := ROOT, 0;
      assert path[0..] == path;
      var found, start, end := NextToken(path, pos);
      while found
        invariant pos <= |path| && Resolve(NodeTree(), path) == Walk(NodeTree(), id, Tokens(path[pos..]))
        invariant found <==> Tokens(path[pos..]) != []
        invariant found ==> pos <= start < end <= |path| && Tokens(path[pos..]) == [path[start..end]] + Tokens(path[end..])
        decreases |path| - pos
      {
        var node := LookupNode(id, path[start..end]);
        if node == null {
          return None;
        }
        id, pos := node.nodeid, end;
        found, start, end := NextToken(path, pos);
      }
      ino := Some(id);
    }

    /** `lookup_path_in_cache`; `memory` says whether the path can be copied. */
    method LookupPathInCache(path: string, memory: bool) returns (r: LookupResult)
      requires Owned() && Shape()
      ensures r == if !memory then NoPathMemory
                   else match Resolve(NodeTree(), path) case None => NoEntry case Some(i) => Found(i)
    {
      hide Shape, Tokens, Links, Names;
      if !memory {
        return NoPathMemory;
      }
      var ino := WalkPath(path);
      r := if ino == None then NoEntry else Found(ino.value);
    }

    method SetLink(n: Node, parent: Node?, name: Option<string>)
      requires Owned() && Shape() && Has(n) && (parent == null <==> name == None) && (parent != null ==> Has(parent))
      modifies n`parent, n`name
      ensures Shape() && n.parent == parent && n.name == name
      ensures Links() == old(Links())[n.nodeid := if parent == null then Unlinked else Linked(parent.nodeid, name.value)]
    {
      n.name := name;
      n.parent := parent;
    }

    method SetName(key: (Id, string), n: Node)
      requires Owned() && Shape() && Has(n)
      modifies this`nameTable
      ensures Shape() && Names() == old(Names())[key := n.nodeid]
    {
      nameTable := nameTable[key := n];
    }

    method ClearName(key: (Id, string))
      requires Owned() && Shape()
      modifies this`nameTable
      ensures Shape() && Names() == old(Names()) - {key}
    {
      nameTable := nameTable - {key};
    }

    /** `unhash_name`, apart from the reference count. */
    method UnhashName(n: Node)
      requires Owned() && Shape() && Has(n)
      modifies n`parent, n`name, this`nameTable
      ensures Shape() && NodeTree() == PathTree.UnhashName(old(NodeTree()), n.nodeid)
      ensures n.parent == null && n.name == None
    {
      hide Names, Shape;
      Member(n.nodeid);
      assert Links()[n.nodeid] == LinkOf(n);
      hide Links;
      if n.name.Some? {
        ClearName((n.parent.nodeid, n.name.value));
        SetLink(n, null, None);
      }
    }

    /** `hash_name`, apart from the reference count. */
    method HashName(n: Node, parentid: Id, name: string, memory: bool) returns (ok: bool)
      requires Owned() && Shape() && Has(n) && parentid in idTable && n.parent == null && n.name == None
      modifies n`parent, n`name, this`nameTable
      ensures ok == memory && Shape()
      ensures NodeTree() == PathTree.HashName(old(NodeTree()), n.nodeid, parentid, name, memory)
    {
      hide Names, Shape, Links;
      Member(parentid);
      var parent := idTable[parentid];
      if !memory {
        return false;
      }
      SetLink(n, parent, Some(name));
      SetName((parentid, name), n);
      ok := true;
    }

    /** A node found in the name table has a parent and a name. */
    lemma FoundIsLinked(parent: Id, name: string, n: Node)
      requires Owned() && Shape() && NamesAgree(NodeTree()) && Has(n)
      requires Lookup(NodeTree(), parent, name) == Some(n.nodeid)
      ensures n.parent != null && n.name.Some?
    {
      assert NodeTree().links[n.nodeid] == LinkOf(n);
    }

    /** `remove_node`. */
    method RemoveNode(dir: Id, name: string)
      requires Owned() && Shape() && NamesAgree(NodeTree())
      modifies nodes`parent, nodes`name, this`nameTable
      ensures Shape() && NodeTree() == UnhashFound(old(NodeTree()), Lookup(old(NodeTree()), dir, name))
    {
      var n := LookupNode(dir, name);
      if n != null {
        FoundIsLinked(dir, name, n);
        UnhashName(n);
      }
    }

    /** `rename_node`. */
    method RenameNode(olddir: Id, oldname: string, newdir: Id, newname: string, hidden: bool, memory: bool)
      returns (err: RenameError)
      requires Owned() && Shape() && NamesAgree(NodeTree()) && newdir in idTable
      modifies nodes`parent, nodes`name, this`nameTable
      ensures var t := old(NodeTree());
              var found, taken := Lookup(t, olddir, oldname).Some?, Lookup(t, newdir, newname).Some?;
              && err == (if found && taken && hidden then Busy else if found && !memory then NoNameMemory else NoError)
              && Shape()
              && NodeTree() == if err == Busy then t else PathTree.RenameNode(t, olddir, oldname, newdir, newname, memory)
    {
      hide Shape, NamesAgree, Links, Names;
      var node := LookupNode(olddir, oldname);
      var newnode := LookupNode(newdir, newname);
      if node == null {
        return NoError;
      }
      FoundIsLinked(olddir, oldname, node);
      if newnode != null {
        if hidden {
          return Busy;
        }
        FoundIsLinked(newdir, newname, newnode);
        UnhashName(newnode);
      }
      UnhashName(node);
      var ok := HashName(node, newdir, newname, memory);
      err := if ok then NoError else NoNameMemory;
    }

    /** `exchange_node`. The write locks of the request keep the two nodes apart. */
    method ExchangeNode(olddir: Id, oldname: string, newdir: Id, newname: string, memory: (bool, bool))
      returns (err: RenameError)
      requires Owned() && Shape() && NamesAgree(NodeTree()) && olddir in idTable && newdir in idTable
      requires var a, b := Lookup(NodeTree(), olddir, oldname), Lookup(NodeTree(), newdir, newname); a.Some? ==> a != b
      modifies nodes`parent, nodes`name, this`nameTable
      ensures Shape()
      ensures NodeTree() == PathTree.ExchangeNode(old(NodeTree()), olddir, oldname, newdir, newname, memory)
      ensures var a, b := Lookup(old(NodeTree()), olddir, oldname), Lookup(old(NodeTree()), newdir, newname);
              err == if (a.Some? && !memory.0) || (b.Some? && !memory.1) then NoNameMemory else NoError
    {
      hide Shape, NamesAgree, Links, Names;
      var oldnode := LookupNode(olddir, oldname);
      var newnode := LookupNode(newdir, newname);
      if oldnode != null {
        FoundIsLinked(olddir, oldname, oldnode);
      }
      if newnode != null {
        FoundIsLinked(newdir, newname, newnode);
        UnhashBoth(oldnode, newnode);
      } else if oldnode != null {
        UnhashName(oldnode);
      }
      var ok := true;
      if oldnode != null {
        ok := HashName(oldnode, newdir, newname, memory.0);
      }
      if newnode != null && ok {
        ok := HashName(newnode, olddir, oldname, memory.1);
      }
      err := if ok then NoError else NoNameMemory;
    }

    method UnhashBoth(a: Node?, b: Node)
      requires Owned() && Shape() && Has(b) && b.parent != null && b.name.Some?
      requires a != null ==> a != b && Has(a) && a.parent != null && a.name.Some?
      modifies nodes`parent, nodes`name, this`nameTable
      ensures Shape() && b.parent == null && b.name == None && (a != null ==> a.parent == null && a.name == None)
      ensures NodeTree() == PathTree.UnhashName(
                UnhashFound(old(NodeTree()), if a == null then None else Some(a.nodeid)), b.nodeid)
    {
      hide Shape;
      if a != null {
        UnhashName(a);
      }
      UnhashName(b);
    }
  }

  /** How `lookup_path_in_cache` ends: with a node, -ENOENT or -ENOMEM. */
  datatype LookupResult = Found(ino: Id) | NoEntry | NoPathMemory

  /** 0, -EBUSY and -ENOMEM. */
  datatype RenameError = NoError | Busy | NoNameMemory

  /** The node that a walk up from `id` has reached after `k` steps. */
  function NodeAt(links: map<Id, Link>, id: Id, up: seq<Id>, k: nat): Id {
    if k < |up| then up[k] else Top(links, id, up)
  }

  lemma WalkStep(links: map<Id, Link>, id: Id, up: seq<Id>, k: nat)
    requires IsUp(links, id, up)
    ensures k < |up| ==> up[k] in links && links[up[k]].Linked? && links[up[k]].parent == NodeAt(links, id, up, k + 1)
    ensures k >= |up| ==> NodeAt(links, id, up, k) in links &&
                          (NodeAt(links, id, up, k) == ROOT || links[NodeAt(links, id, up, k)].Unlinked?)
    ensures k < |up| ==> up[k] != ROOT
  {
    OnWayIsLinked(links, id, up);
    if k < |up| {
      UpFromHere(links, id, up, k);
    }
  }

  /** Where the walk of `unlock_path` goes on, and that it does not end early. */
  lemma UnlockStep(links: map<Id, Link>, id: Id, up: seq<Id>, c: seq<Id>, k: nat, end: Option<Id>, n: Id)
    requires IsUp(links, id, up) && c <= up && k <= |c| && n == NodeAt(links, id, up, k)
    requires if end == None then c == up && Top(links, id, up) == ROOT else end.value == NodeAt(links, id, up, |c|)
    ensures end == Some(n) || n == ROOT ==> k == |c|
    ensures end != Some(n) && n != ROOT ==> k < |c|
    ensures k < |c| ==> n == c[k] && n in links && links[n].Linked? && links[n].parent == NodeAt(links, id, up, k + 1)
  {
    WalkStep(links, id, up, k);
    if k < |c| {
      WalkIsDistinct(links, id, up, k, |c|);
    }
  }

  lemma WalkIsDistinct(links: map<Id, Link>, id: Id, up: seq<Id>, j: nat, k: nat)
    requires IsUp(links, id, up) && j < k <= |up|
    ensures NodeAt(links, id, up, j) != NodeAt(links, id, up, k)
  {
    OnWayIsLinked(links, id, up);
    UpIsDistinct(links, id, up);
  }

  lemma UnlockFirst(words: Locks, links: map<Id, Link>, id: Id, up: seq<Id>, c: seq<Id>)
    requires IsUp(links, id, up) && c <= up
    ensures UnlockAll(words, c[..0]) == words && NodeAt(links, id, up, 0) == id && Distinct(c)
  {
    UpIsDistinct(links, id, up);
  }

  lemma UnlockOneMore(words: Locks, c: seq<Id>, k: nat)
    requires k < |c| && Distinct(c) && c[k] in words
    ensures UnlockAll(words, c[..k])[c[k] := OneReaderLess(words[c[k]])] == UnlockAll(words, c[..k + 1])
    ensures c[k] in UnlockAll(words, c[..k]) && UnlockAll(words, c[..k])[c[k]] == words[c[k]]
  {
    assert c[..k + 1] == c[..k] + [c[k]];
  }

  lemma TryGetByWords(s: Core, tok: Token, p: Path, mem: nat, locks': Locks, r: Outcome)
    requires var c := UpChain(s.tree.links, p.nodeid);
             (locks', r) == TryLocks(s.locks, c, Top(s.tree.links, p.nodeid, c) != ROOT, p.name.Some?, WriteNode(s.tree, p), mem)
    ensures var holds' := if r.Granted? then s.holds[tok := Hold(p, r.wnode, UpChain(s.tree.links, p.nodeid))] else s.holds;
            TryGet(s, tok, p, mem) == (Core(s.tree, locks', holds'), r)
  {
  }

  /** An attempt that is over before any node on the way is looked at. */
  lemma TryLocksRefused(locks: Locks, c: seq<Id>, stale: bool, named: bool, w: Option<Id>, mem: nat)
    requires (named && mem == 0) || (w.Some? && Word(locks, w.value) != 0)
    ensures TryLocks(locks, c, stale, named, w, mem) ==
              if named && mem == 0 then (locks, Failed(NoMemory))
              else
                var v := Word(locks, w.value);
                (locks[w.value := if v > 0 then v + TREELOCK_WAIT_OFFSET else v], Failed(Again))
  {
  }

  /** The result of an attempt by what the walk up says. */
  lemma TryLocksEnds(locks: Locks, c: seq<Id>, stale: bool, named: bool, w: Option<Id>, mem: nat)
    requires !(named && mem == 0) && (w.Some? ==> Word(locks, w.value) == 0)
    ensures var marked := SetLock(locks, w, TREELOCK_WRITE);
            var e := Scan(marked, c, stale, if named then mem - 1 else mem);
            TryLocks(locks, c, stale, named, w, mem) ==
              (if e == None then LockAll(marked, c) else locks, if e.Some? then Failed(e.value) else Granted(w))
  {
  }

  /** The loop of `try_get_path` after `k` nodes: they are read-locked, the rest of
      the walk decides the result, and the names met so far are in `path`. */
  ghost predicate Walking(
      marked: Locks, links: map<Id, Link>, id: Id, up: seq<Id>, mem: nat, tail: string,
      words: Locks, left: nat, path: string, k: nat)
  {
    && k <= |up| && left == mem - k && IsUp(links, id, up)
    && words == LockAll(marked, up[..k])
    && (forall i :: i in up[..k] ==> Word(marked, i) >= 0)
    && (forall stale :: Scan(marked, up, stale, mem) == Scan(marked, up[k..], stale, left))
    && PathTo(links, up) + tail == PathTo(links, up[k..]) + path
  }

  lemma WalkingStarts(marked: Locks, links: map<Id, Link>, id: Id, up: seq<Id>, mem: nat, tail: string)
    requires IsUp(links, id, up)
    ensures Walking(marked, links, id, up, mem, tail, marked, mem, tail, 0) && NodeAt(links, id, up, 0) == id
  {
  }

  lemma WalkingOn(
      marked: Locks, links: map<Id, Link>, id: Id, up: seq<Id>, mem: nat, tail: string,
      words: Locks, left: nat, path: string, k: nat)
    requires Walking(marked, links, id, up, mem, tail, words, left, path, k) && marked.Keys == links.Keys
    requires k < |up| && up[k] in links && links[up[k]].Linked? && up[k] in words && words[up[k]] == marked[up[k]] >= 0 && left > 0
    ensures Walking(marked, links, id, up, mem, tail, words[up[k] := words[up[k]] + 1], left - 1,
                    "/" + links[up[k]].name + path, k + 1)
  {
    UpIsDistinct(links, id, up);
    var name := links[up[k]].name;
    hide IsUp;
    assert up[k..][1..] == up[k + 1..] && up[..k + 1] == up[..k] + [up[k]];
    assert LockAll(marked, up[..k + 1]) == words[up[k] := words[up[k]] + 1];
    hide LockAll;
    RegroupPath(PathTo(links, up[k + 1..]), name, path);
    assert PathTo(links, up[k..]) == PathTo(links, up[k + 1..]) + ("/" + name);
    hide PathTo;
  }

  lemma RegroupPath(a: string, name: string, b: string)
    ensures a + ("/" + name) + b == a + ("/" + name + b)
  {
  }

  /** One turn of the loop: why it fails, or how it goes on. */
  lemma WalkingStep(
      marked: Locks, links: map<Id, Link>, id: Id, up: seq<Id>, mem: nat, tail: string,
      words: Locks, left: nat, path: string, k: nat)
    requires Walking(marked, links, id, up, mem, tail, words, left, path, k) && marked.Keys == links.Keys
    requires NodeAt(links, id, up, k) != ROOT
    ensures var n, stale, r := NodeAt(links, id, up, k), Top(links, id, up) != ROOT,
              Scan(marked, up, Top(links, id, up) != ROOT, mem);
            && k <= |up| && n in links && words == LockAll(marked, up[..k])
            && (forall i :: i in up[..k] ==> Word(marked, i) >= 0)
            && (links[n].Unlinked? <==> k == |up|)
            && (links[n].Unlinked? ==> r == Some(Stale))
            && (links[n].Linked? ==>
                  && k < |up| && NodeAt(links, id, up, k + 1) == links[n].parent && n in words
                  && (left == 0 ==> r == Some(NoMemory))
                  && (left > 0 && words[n] < 0 ==> r == Some(Again))
                  && (left > 0 && words[n] >= 0 ==>
                        Walking(marked, links, id, up, mem, tail, words[n := words[n] + 1], left - 1,
                                "/" + links[n].name + path, k + 1)))
  {
    WalkStep(links, id, up, k);
    UpIsDistinct(links, id, up);
    OnWayIsLinked(links, id, up);
    if k < |up| {
      assert up[k..][1..] == up[k + 1..];
      assert words[up[k]] == marked[up[k]];
      if left > 0 && words[up[k]] >= 0 {
        WalkingOn(marked, links, id, up, mem, tail, words, left, path, k);
      }
    }
    hide Walking, LockAll;
  }

  lemma WalkingEnds(
      marked: Locks, links: map<Id, Link>, id: Id, up: seq<Id>, mem: nat, tail: string,
      words: Locks, left: nat, path: string, k: nat)
    requires Walking(marked, links, id, up, mem, tail, words, left, path, k) && NodeAt(links, id, up, k) == ROOT
    ensures Top(links, id, up) == ROOT && Scan(marked, up, false, mem) == None
    ensures words == LockAll(marked, up) && path == PathTo(links, up) + tail
  {
    WalkStep(links, id, up, k);
    assert up[..|up|] == up;
  }

  /** Undoing a partial lock passes all assertions and restores every word. */
  lemma RollBackWords(before: Locks, w: Option<Id>, c: seq<Id>)
    requires w.Some? ==> w.value in before && before[w.value] == 0
    requires forall i :: i in c ==> i in before && Word(SetLock(before, w, TREELOCK_WRITE), i) >= 0
    ensures var locked := LockAll(SetLock(before, w, TREELOCK_WRITE), c);
            UnlockAssertionsHold(locked, w, c) && UnlockAll(SetLock(locked, w, 0), c) == before
  {
  }
}
