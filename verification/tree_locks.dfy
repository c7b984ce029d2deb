/** Locking a path: every request read-locks the nodes from its own node up to
    the root, and a request that removes or moves a child also write-locks the
    child. One integer per node encodes readers, a waiting writer, and a writer. */
module TreeLocks {
  import opened Wrappers
  import opened PathTree

  const INT_MIN: int := -0x8000_0000
  const INT_MAX: int := 0x7fff_ffff

  const TREELOCK_WRITE: int := -1
  const TREELOCK_WAIT_OFFSET: int := INT_MIN

  /** Requests are numbered by slots. With two paths each, this many of them keep
      the reader count of a node below INT_MAX. */
  const MAX_REQUESTS: nat := 0x3fff_ffff

  /** A path to lock: `name`, if any, is the last component below `nodeid`, and
      `write` asks for the write lock on that child. */
  datatype PathSpec = PathSpec(nodeid: Id, name: Option<string>, write: bool)

  type Path = p: PathSpec | p.write ==> p.name.Some? witness PathSpec(ROOT, None, false)

  /** EAGAIN, ESTALE and ENOMEM. */
  datatype Err = Again | Stale | NoMemory

  datatype Outcome = Granted(wnode: Option<Id>) | Failed(err: Err)

  /** One of the (at most two) paths of a request. */
  datatype Token = Token(req: nat, second: bool)

  /** An outstanding lock: its path, the child found and write-locked, and the
      nodes that were read-locked when it was granted. */
  datatype Hold = Hold(path: Path, wnode: Option<Id>, chain: seq<Id>)

  type Locks = map<Id, int>

  datatype Core = Core(tree: Tree, locks: Locks, holds: map<Token, Hold>)

  // ----- what try_get_path and unlock_path do to the lock words

  /** The lock word of a node that exists. */
  function Word(locks: Locks, i: Id): int {
    if i in locks then locks[i] else 0
  }

  function LockAll(locks: Locks, c: seq<Id>): Locks {
    map i | i in locks :: if i in c then locks[i] + 1 else locks[i]
  }

  /** One reader less; the last reader takes the waiting mark with it. */
  function OneReaderLess(v: int): int {
    if v - 1 == TREELOCK_WAIT_OFFSET then 0 else v - 1
  }

  function UnlockAll(locks: Locks, c: seq<Id>): Locks {
    map i | i in locks :: if i in c then OneReaderLess(locks[i]) else locks[i]
  }

  function SetLock(locks: Locks, wnode: Option<Id>, v: int): Locks {
    if wnode.Some? then locks[wnode.value := v] else locks
  }

  /** Why walking up `c` fails, if it does: at each node the name is copied
      (`mem` more copies succeed) before the lock is looked at, and an unlinked
      node at the end makes the path stale. */
  function Scan(locks: Locks, c: seq<Id>, stale: bool, mem: nat): Option<Err> {
    if c == [] then if stale then Some(Stale) else None
    else if mem == 0 then Some(NoMemory)
    else if Word(locks, c[0]) < 0 then Some(Again)
    else Scan(locks, c[1..], stale, mem - 1)
  }

  /** The lock words after `try_get_path`, for a way up `c` that ends at the root
      unless `stale`, and the child `w` to write-lock, if there is one. A failure
      undoes what was locked, but a writer turned away by readers leaves its
      waiting mark. */
  function TryLocks(locks: Locks, c: seq<Id>, stale: bool, named: bool, w: Option<Id>, mem: nat): (r: (Locks, Outcome)) {
    if named && mem == 0 then (locks, Failed(NoMemory))
    else if w.Some? && Word(locks, w.value) != 0 then
      var v := Word(locks, w.value);
      (locks[w.value := if v > 0 then v + TREELOCK_WAIT_OFFSET else v], Failed(Again))
    else
      var marked := SetLock(locks, w, TREELOCK_WRITE);
      match Scan(marked, c, stale, if named then mem - 1 else mem)
      case Some(err) => (locks, Failed(err))
      case None => (LockAll(marked, c), Granted(w))
  }

  /** The child that a path write-locks: `lookup_node` of its name. */
  function WriteNode(t: Tree, p: Path): Option<Id> {
    if p.write then Lookup(t, p.nodeid, p.name.value) else None
  }

  /** `try_get_path` with locking, for path `tok`. */
  ghost function TryGet(s: Core, tok: Token, p: Path, mem: nat): (r: (Core, Outcome)) {
    var c, w := UpChain(s.tree.links, p.nodeid), WriteNode(s.tree, p);
    var (locks', r) := TryLocks(s.locks, c, Top(s.tree.links, p.nodeid, c) != ROOT, p.name.Some?, w, mem);
    (Core(s.tree, locks', if r.Granted? then s.holds[tok := Hold(p, w, c)] else s.holds), r)
  }

  /** `unlock_path` of a granted path: it walks the parents as they are now. */
  ghost function Unlock(s: Core, tok: Token): Core
    requires tok in s.holds
  {
    var h := s.holds[tok];
    var c := UpChain(s.tree.links, h.path.nodeid);
    Core(s.tree, UnlockAll(SetLock(s.locks, h.wnode, 0), c), s.holds - {tok})
  }

  // ----- the invariant

  ghost function Readers(holds: map<Token, Hold>, i: Id): set<Token> {
    set t | t in holds && i in holds[t].chain
  }

  ghost function Writers(holds: map<Token, Hold>, i: Id): set<Token> {
    set t | t in holds && holds[t].wnode == Some(i)
  }

  ghost function NumReaders(holds: map<Token, Hold>, i: Id): nat {
    |Readers(holds, i)|
  }

  ghost function NumWriters(holds: map<Token, Hold>, i: Id): nat {
    |Writers(holds, i)|
  }

  /** The value of a lock word with `r` readers and `w` writers. */
  predicate LockIs(v: int, r: nat, w: nat) {
    || (v == TREELOCK_WRITE && r == 0 && w == 1)
    || (w == 0 && (v == r || (r >= 1 && v == TREELOCK_WAIT_OFFSET + r)))
  }

  ghost predicate LocksOk(locks: Locks, holds: map<Token, Hold>) {
    forall i :: i in locks ==> LockIs(locks[i], NumReaders(holds, i), NumWriters(holds, i))
  }

  /** The nodes read-locked by a hold are still the way up to the root. */
  ghost predicate HoldOk(links: map<Id, Link>, h: Hold) {
    && IsUp(links, h.path.nodeid, h.chain) && Top(links, h.path.nodeid, h.chain) == ROOT
    && (h.wnode.Some? ==> h.wnode.value in links && h.wnode.value != ROOT)
  }

  ghost predicate Valid(s: Core) {
    && WellFormed(s.tree) && s.locks.Keys == s.tree.links.Keys
    && (forall t :: t in s.holds ==> t.req < MAX_REQUESTS && HoldOk(s.tree.links, s.holds[t]))
    && LocksOk(s.locks, s.holds)
  }

  lemma ValidIsWellFormed(s: Core)
    requires Valid(s)
    ensures WellFormed(s.tree)
  {
  }

  // ----- counting

  lemma {:induction false} SlotsBound(tokens: set<Token>, n: nat)
    requires forall t :: t in tokens ==> t.req < n
    ensures |tokens| <= 2 * n
  {
    if n == 0 {
      assert tokens == {};
    } else {
      var a, b := Token(n - 1, false), Token(n - 1, true);
      SlotsBound(tokens - {a} - {b}, n - 1);
    }
  }

  /** No node ever has INT_MAX readers, so a lock word fits an `int` and its
      three forms never coincide. */
  lemma {:induction false} ReadersBound(s: Core, i: Id)
    requires forall t :: t in s.holds ==> t.req < MAX_REQUESTS
    ensures NumReaders(s.holds, i) < INT_MAX
  {
    SlotsBound(Readers(s.holds, i), MAX_REQUESTS);
  }

  // ----- granting, failing and unlocking keep the invariant

  lemma {:induction false} ScanPasses(locks: Locks, c: seq<Id>, stale: bool, mem: nat)
    requires forall i :: i in c ==> i in locks
    requires Scan(locks, c, stale, mem) == None
    ensures !stale && forall i :: i in c ==> locks[i] >= 0
  {
    if c != [] {
      ScanPasses(locks, c[1..], stale, mem - 1);
      assert c == [c[0]] + c[1..];
    }
  }

  /** The way up that unlocking walks is the one that locking recorded, whatever
      was renamed or unlinked in between. */
  lemma {:induction false} WayIsAsRecorded(s: Core, tok: Token)
    requires Valid(s) && tok in s.holds
    ensures s.holds[tok].path.nodeid in s.tree.links
    ensures IsUp(s.tree.links, s.holds[tok].path.nodeid, s.holds[tok].chain)
    ensures Top(s.tree.links, s.holds[tok].path.nodeid, s.holds[tok].chain) == ROOT
    ensures UpChain(s.tree.links, s.holds[tok].path.nodeid) == s.holds[tok].chain
    ensures forall i :: i in s.holds[tok].chain ==> i in s.locks && i != ROOT
  {
    var h := s.holds[tok];
    UpIsUnique(s.tree.links, h.path.nodeid, h.chain, UpChain(s.tree.links, h.path.nodeid));
    OnWayIsLinked(s.tree.links, h.path.nodeid, h.chain);
  }

  lemma {:induction false} AddHoldSets(holds: map<Token, Hold>, tok: Token, h: Hold, i: Id)
    requires tok !in holds
    ensures tok !in Readers(holds, i) && tok !in Writers(holds, i)
    ensures Readers(holds[tok := h], i) == if i in h.chain then Readers(holds, i) + {tok} else Readers(holds, i)
    ensures Writers(holds[tok := h], i) == if h.wnode == Some(i) then Writers(holds, i) + {tok} else Writers(holds, i)
  {
  }

  lemma {:induction false} AddHoldCounts(holds: map<Token, Hold>, tok: Token, h: Hold, i: Id)
    requires tok !in holds
    ensures NumReaders(holds[tok := h], i) == NumReaders(holds, i) + if i in h.chain then 1 else 0
    ensures NumWriters(holds[tok := h], i) == NumWriters(holds, i) + if h.wnode == Some(i) then 1 else 0
  {
    AddHoldSets(holds, tok, h, i);
  }

  lemma {:induction false} DropHoldCounts(holds: map<Token, Hold>, tok: Token, i: Id)
    requires tok in holds
    ensures NumReaders(holds - {tok}, i) == NumReaders(holds, i) - if i in holds[tok].chain then 1 else 0
    ensures NumWriters(holds - {tok}, i) == NumWriters(holds, i) - if holds[tok].wnode == Some(i) then 1 else 0
  {
    var holds' := holds - {tok};
    assert holds'[tok := holds[tok]] == holds;
    AddHoldCounts(holds', tok, holds[tok], i);
  }

  /** Adding a reader to nodes that are not locked against readers, and a writer
      to an unlocked node. */
  lemma {:induction false} LockingKeepsLocks(locks: Locks, holds: map<Token, Hold>, tok: Token, h: Hold)
    requires LocksOk(locks, holds) && tok !in holds
    requires h.wnode.Some? ==> h.wnode.value in locks && locks[h.wnode.value] == 0 && h.wnode.value !in h.chain
    requires forall i :: i in h.chain ==> i in locks && locks[i] >= 0
    requires forall i :: NumReaders(holds, i) < INT_MAX
    ensures LocksOk(LockAll(SetLock(locks, h.wnode, TREELOCK_WRITE), h.chain), holds[tok := h])
  {
    var locks', holds' := LockAll(SetLock(locks, h.wnode, TREELOCK_WRITE), h.chain), holds[tok := h];
    forall i | i in locks' ensures LockIs(locks'[i], NumReaders(holds', i), NumWriters(holds', i)) {
      AddHoldCounts(holds, tok, h, i);
    }
  }

  /** An attempt on the lock words alone: granted, it is the new hold that the
      words count; failed, they still count the old ones. */
  lemma {:induction false} TryLocksKeepsLocks(
      locks: Locks, holds: map<Token, Hold>, tok: Token, p: Path, c: seq<Id>, stale: bool, w: Option<Id>, mem: nat)
    requires LocksOk(locks, holds) && tok !in holds
    requires forall i :: i in c ==> i in locks
    requires w.Some? ==> w.value in locks
    requires forall i :: NumReaders(holds, i) < INT_MAX
    ensures var (locks', r) := TryLocks(locks, c, stale, p.name.Some?, w, mem);
            && locks'.Keys == locks.Keys
            && LocksOk(locks', if r.Granted? then holds[tok := Hold(p, w, c)] else holds)
            && (r.Granted? ==> !stale && r.wnode == w && (w.Some? ==> w.value !in c))
  {
    var (locks', r) := TryLocks(locks, c, stale, p.name.Some?, w, mem);
    if r.Granted? {
      var marked := SetLock(locks, w, TREELOCK_WRITE);
      ScanPasses(marked, c, stale, if p.name.Some? then mem - 1 else mem);
      LockingKeepsLocks(locks, holds, tok, Hold(p, w, c));
    }
  }

  /** A failed attempt leaves every lock word as it was, except that it may mark
      a read-locked child as waited for. */
  lemma {:induction false} TryLocksRestores(
      locks: Locks, holds: map<Token, Hold>, c: seq<Id>, stale: bool, named: bool, w: Option<Id>, mem: nat, i: Id)
    requires LocksOk(locks, holds) && i in locks && NumReaders(holds, i) < INT_MAX
    requires forall x :: x in c ==> x in locks
    requires w.Some? ==> w.value in locks
    ensures var (locks', r) := TryLocks(locks, c, stale, named, w, mem);
            r.Failed? && locks'[i] != locks[i] ==>
              && r.err == Again && w == Some(i)
              && locks[i] == NumReaders(holds, i) > 0
              && locks'[i] == TREELOCK_WAIT_OFFSET + NumReaders(holds, i)
  {
    assert LockIs(locks[i], NumReaders(holds, i), NumWriters(holds, i));
  }

  lemma {:induction false} NodesOf(s: Core, p: Path)
    requires Valid(s) && p.nodeid in s.tree.links
    ensures var c := UpChain(s.tree.links, p.nodeid);
            IsUp(s.tree.links, p.nodeid, c) && forall i :: i in c ==> i in s.locks && i != ROOT
    ensures var w := WriteNode(s.tree, p); w.Some? ==> w.value in s.locks && w.value != ROOT
    ensures var top := Top(s.tree.links, p.nodeid, UpChain(s.tree.links, p.nodeid));
            top == ROOT || (top in s.tree.links && s.tree.links[top].Unlinked?)
  {
    OnWayIsLinked(s.tree.links, p.nodeid, UpChain(s.tree.links, p.nodeid));
  }

  lemma {:induction false} AllReadersBound(s: Core)
    requires Valid(s)
    ensures forall i :: NumReaders(s.holds, i) < INT_MAX
  {
    forall i ensures NumReaders(s.holds, i) < INT_MAX {
      ReadersBound(s, i);
    }
  }

  lemma {:induction false} TryGetKeepsValid(s: Core, tok: Token, p: Path, mem: nat, s': Core)
    requires Valid(s) && p.nodeid in s.tree.links && tok !in s.holds && tok.req < MAX_REQUESTS
    requires s' == TryGet(s, tok, p, mem).0
    ensures Valid(s')
  {
    hide WellFormed, TryLocks, LocksOk;
    var c, w := UpChain(s.tree.links, p.nodeid), WriteNode(s.tree, p);
    NodesOf(s, p);
    AllReadersBound(s);
    TryLocksKeepsLocks(s.locks, s.holds, tok, p, c, Top(s.tree.links, p.nodeid, c) != ROOT, w, mem);
  }

  /** A failed attempt holds nothing and restores every lock word, except that it
      may leave a waiting mark on the child it could not write-lock. */
  lemma {:induction false} FailureRestores(s: Core, tok: Token, p: Path, mem: nat, s': Core, err: Err, i: Id)
    requires Valid(s) && p.nodeid in s.tree.links && i in s.locks
    requires (s', Failed(err)) == TryGet(s, tok, p, mem)
    ensures s'.holds == s.holds && s'.tree == s.tree && i in s'.locks
    ensures s'.locks[i] != s.locks[i] ==>
              && err == Again && WriteNode(s.tree, p) == Some(i)
              && s.locks[i] == NumReaders(s.holds, i) > 0
              && s'.locks[i] == TREELOCK_WAIT_OFFSET + NumReaders(s.holds, i)
  {
    var c := UpChain(s.tree.links, p.nodeid);
    OnWayIsLinked(s.tree.links, p.nodeid, c);
    ReadersBound(s, i);
    TryLocksRestores(s.locks, s.holds, c, Top(s.tree.links, p.nodeid, c) != ROOT, p.name.Some?, WriteNode(s.tree, p), mem, i);
  }

  // ----- unlocking

  /** What the assertions in `unlock_path` check. */
  predicate UnlockAssertionsHold(locks: Locks, wnode: Option<Id>, c: seq<Id>) {
    && (wnode.Some? ==> wnode.value in locks && wnode.value !in c && locks[wnode.value] == TREELOCK_WRITE)
    && forall i :: i in c ==>
         i in locks && locks[i] != 0 && locks[i] != TREELOCK_WAIT_OFFSET && locks[i] != TREELOCK_WRITE
  }

  /** The lock words under a hold: a reader's nodes count it, and a writer's node
      has no reader. */
  lemma {:induction false} HeldWords(locks: Locks, holds: map<Token, Hold>, tok: Token, i: Id)
    requires LocksOk(locks, holds) && tok in holds && i in locks && NumReaders(holds, i) < INT_MAX
    ensures i in holds[tok].chain ==> locks[i] > 0 || TREELOCK_WAIT_OFFSET < locks[i] < TREELOCK_WRITE
    ensures holds[tok].wnode == Some(i) ==> locks[i] == TREELOCK_WRITE && i !in holds[tok].chain
  {
    DropHoldCounts(holds, tok, i);
    assert LockIs(locks[i], NumReaders(holds, i), NumWriters(holds, i));
  }

  /** The assertions never fire when a granted path is unlocked. */
  lemma {:induction false} UnlockNeverAsserts(s: Core, tok: Token)
    requires Valid(s) && tok in s.holds
    ensures UnlockAssertionsHold(s.locks, s.holds[tok].wnode, UpChain(s.tree.links, s.holds[tok].path.nodeid))
  {
    WayIsAsRecorded(s, tok);
    forall i | i in s.locks
      ensures i in s.holds[tok].chain ==> s.locks[i] > 0 || TREELOCK_WAIT_OFFSET < s.locks[i] < TREELOCK_WRITE
      ensures s.holds[tok].wnode == Some(i) ==> s.locks[i] == TREELOCK_WRITE && i !in s.holds[tok].chain
    {
      ReadersBound(s, i);
      HeldWords(s.locks, s.holds, tok, i);
    }
  }

  lemma {:induction false} UnlockingKeepsLocks(locks: Locks, holds: map<Token, Hold>, tok: Token)
    requires LocksOk(locks, holds) && tok in holds
    requires forall i :: NumReaders(holds, i) < INT_MAX
    requires holds[tok].wnode.Some? ==> holds[tok].wnode.value in locks
    ensures LocksOk(UnlockAll(SetLock(locks, holds[tok].wnode, 0), holds[tok].chain), holds - {tok})
  {
    var h := holds[tok];
    var locks', holds' := UnlockAll(SetLock(locks, h.wnode, 0), h.chain), holds - {tok};
    forall i | i in locks' ensures LockIs(locks'[i], NumReaders(holds', i), NumWriters(holds', i)) {
      DropHoldCounts(holds, tok, i);
      assert LockIs(locks[i], NumReaders(holds, i), NumWriters(holds, i));
    }
  }

  /** `unlock_path` releases exactly what `try_get_path` took. */
  lemma WordsCountHolds(s: Core, i: Id)
    requires Valid(s) && i in s.tree.links
    ensures i in s.locks && LockIs(s.locks[i], NumReaders(s.holds, i), NumWriters(s.holds, i))
  {
    hide LockIs, WellFormed, HoldOk;
  }

  lemma UnlockingKeepsKeys(locks: Locks, h: Hold)
    requires h.wnode.Some? ==> h.wnode.value in locks
    ensures UnlockAll(SetLock(locks, h.wnode, 0), h.chain).Keys == locks.Keys
  {
  }

  lemma {:induction false} UnlockKeepsValid(s: Core, tok: Token, s': Core)
    requires Valid(s) && tok in s.holds && s' == Unlock(s, tok)
    ensures Valid(s') && s'.tree == s.tree && s'.holds == s.holds - {tok}
  {
    var h := s.holds[tok];
    WayIsAsRecorded(s, tok);
    AllReadersBound(s);
    assert h.wnode.Some? ==> h.wnode.value in s.locks;
    UnlockingKeepsKeys(s.locks, h);
    hide WellFormed, HoldOk, LocksOk, UnlockAll, SetLock, NumReaders;
    UnlockingKeepsLocks(s.locks, s.holds, tok);
  }

  // ----- changing the tree under write locks

  /** Renames and removals change the links of write-locked nodes only, so no
      recorded way up changes. */
  lemma {:induction false} RelinkKeepsValid(s: Core, tree': Tree)
    requires Valid(s) && WellFormed(tree') && tree'.links.Keys == s.tree.links.Keys
    requires forall i :: i in s.tree.links && tree'.links[i] != s.tree.links[i] ==> s.locks[i] == TREELOCK_WRITE
    ensures Valid(s.(tree := tree'))
  {
    forall t | t in s.holds ensures HoldOk(tree'.links, s.holds[t]) {
      var h := s.holds[t];
      OnWayIsLinked(s.tree.links, h.path.nodeid, h.chain);
      forall i | i in h.chain ensures tree'.links[i] == s.tree.links[i] {
        ReadersBound(s, i);
        HeldWords(s.locks, s.holds, t, i);
      }
      UpUnchanged(s.tree.links, tree'.links, h.path.nodeid, h.chain);
    }
  }

  /** A write lock on a node and a read lock on a directory below it cannot
      coexist: the node is not on the way up from any locked directory. */
  lemma {:induction false} WriterIsNotAbove(s: Core, w: Id, dir: Token)
    requires Valid(s) && w in s.locks && s.locks[w] == TREELOCK_WRITE && dir in s.holds
    ensures w !in UpChain(s.tree.links, s.holds[dir].path.nodeid)
  {
    WayIsAsRecorded(s, dir);
    ReadersBound(s, w);
    HeldWords(s.locks, s.holds, dir, w);
  }

  /** The node, if any, is write-locked through path `tok`. */
  ghost predicate WriteLocked(s: Core, tok: Token, n: Option<Id>) {
    n.Some? ==> tok in s.holds && s.holds[tok].wnode == n
  }

  lemma {:induction false} WriteLockedWord(s: Core, tok: Token, n: Option<Id>)
    requires Valid(s) && WriteLocked(s, tok, n) && n.Some?
    ensures n.value in s.locks && s.locks[n.value] == TREELOCK_WRITE
  {
    ReadersBound(s, n.value);
    HeldWords(s.locks, s.holds, tok, n.value);
  }

  /** `rename_node`, by a request that holds paths `a` and `b`: the node moved
      must be write-locked through `a`, a node replaced through `b`, and the
      target directory must be the one path `b` goes through. */
  lemma {:induction false} RenameKeepsValid(
      s: Core, a: Token, b: Token, olddir: Id, oldname: string, newname: string, memory: bool)
    requires Valid(s) && b in s.holds
    requires WriteLocked(s, a, Lookup(s.tree, olddir, oldname))
    requires WriteLocked(s, b, Lookup(s.tree, s.holds[b].path.nodeid, newname))
    ensures Valid(s.(tree := RenameNode(s.tree, olddir, oldname, s.holds[b].path.nodeid, newname, memory)))
  {
    var newdir := s.holds[b].path.nodeid;
    var n, m := Lookup(s.tree, olddir, oldname), Lookup(s.tree, newdir, newname);
    if n.Some? {
      WriteLockedWord(s, a, n);
      WriterIsNotAbove(s, n.value, b);
    }
    if m.Some? {
      WriteLockedWord(s, b, m);
    }
    RenameKeepsWellFormed(s.tree, olddir, oldname, newdir, newname, memory);
    RenameRelinks(s.tree, olddir, oldname, newdir, newname, memory);
    RelinkKeepsValid(s, RenameNode(s.tree, olddir, oldname, newdir, newname, memory));
  }

  /** `exchange_node` likewise, for both directories. */
  lemma {:induction false} ExchangeKeepsValid(
      s: Core, a: Token, b: Token, oldname: string, newname: string, memory: (bool, bool))
    requires Valid(s) && a in s.holds && b in s.holds && a != b
    requires WriteLocked(s, a, Lookup(s.tree, s.holds[a].path.nodeid, oldname))
    requires WriteLocked(s, b, Lookup(s.tree, s.holds[b].path.nodeid, newname))
    ensures Valid(s.(tree := ExchangeNode(
              s.tree, s.holds[a].path.nodeid, oldname, s.holds[b].path.nodeid, newname, memory)))
  {
    var olddir, newdir := s.holds[a].path.nodeid, s.holds[b].path.nodeid;
    var n, m := Lookup(s.tree, olddir, oldname), Lookup(s.tree, newdir, newname);
    if n.Some? {
      WriteLockedWord(s, a, n);
      WriterIsNotAbove(s, n.value, a);
      WriterIsNotAbove(s, n.value, b);
      if n == m {
        TwoWriters(s, a, b, n.value);
      }
    }
    if m.Some? {
      WriteLockedWord(s, b, m);
      WriterIsNotAbove(s, m.value, a);
      WriterIsNotAbove(s, m.value, b);
    }
    ExchangeKeepsWellFormed(s.tree, olddir, oldname, newdir, newname, memory);
    ExchangeRelinks(s.tree, olddir, oldname, newdir, newname, memory);
    RelinkKeepsValid(s, ExchangeNode(s.tree, olddir, oldname, newdir, newname, memory));
  }

  /** No node is write-locked twice. */
  lemma {:induction false} TwoWriters(s: Core, a: Token, b: Token, i: Id)
    requires Valid(s) && a in s.holds && b in s.holds
    requires s.holds[a].wnode == Some(i) && s.holds[b].wnode == Some(i)
    ensures a == b
  {
    assert LockIs(s.locks[i], NumReaders(s.holds, i), NumWriters(s.holds, i));
    if a != b {
      DropHoldCounts(s.holds, a, i);
      DropHoldCounts(s.holds - {a}, b, i);
    }
  }

  /** `remove_node`, and the unlinking of a replaced node. */
  lemma {:induction false} RemoveKeepsValid(s: Core, tok: Token, n: Id)
    requires Valid(s) && WriteLocked(s, tok, Some(n))
    ensures n in s.tree.links && Valid(s.(tree := UnhashName(s.tree, n)))
  {
    WriteLockedWord(s, tok, Some(n));
    UnhashKeepsWellFormed(s.tree, n);
    RelinkKeepsValid(s, UnhashName(s.tree, n));
  }

  // ----- nodes come and go

  lemma {:induction false} UnheldIsUncounted(holds: map<Token, Hold>, i: Id)
    requires forall t :: t in holds ==> i !in holds[t].chain && holds[t].wnode != Some(i)
    ensures NumReaders(holds, i) == 0 && NumWriters(holds, i) == 0
  {
    assert Readers(holds, i) == {} && Writers(holds, i) == {};
  }

  /** `find_node` for a name that is not cached. */
  lemma {:induction false} AddNodeKeepsValid(s: Core, i: Id, parent: Id, name: string, s': Core)
    requires Valid(s) && i !in s.tree.links && parent in s.tree.links && (parent, name) !in s.tree.names
    requires s' == Core(AddLinked(s.tree, i, parent, name), s.locks[i := 0], s.holds)
    ensures Valid(s')
  {
    AddKeepsWellFormed(s.tree, i, parent, name);
    forall t | t in s.holds
      ensures HoldOk(s'.tree.links, s.holds[t])
      ensures i !in s.holds[t].chain && s.holds[t].wnode != Some(i)
    {
      AddKeepsWay(s.tree, i, parent, name, s.holds[t].path.nodeid, s.holds[t].chain);
      OnWayIsLinked(s.tree.links, s.holds[t].path.nodeid, s.holds[t].chain);
    }
    UnheldIsUncounted(s.holds, i);
  }

  /** `delete_node`: the assertion that the node is not locked protects every hold. */
  lemma {:induction false} DropNodeKeepsValid(s: Core, i: Id)
    requires Valid(s) && i in s.tree.links && i != ROOT && s.locks[i] == 0 && Childless(s.tree.links, i)
    ensures Valid(Core(DropNode(s.tree, i), s.locks - {i}, s.holds))
  {
    DropKeepsWellFormed(s.tree, i);
    ReadersBound(s, i);
    forall t | t in s.holds ensures HoldOk(DropNode(s.tree, i).links, s.holds[t]) {
      var h := s.holds[t];
      HeldWords(s.locks, s.holds, t, i);
      assert h.chain != [] ==> h.chain[0] in h.chain;
      DropKeepsWay(s.tree, i, h.path.nodeid, h.chain);
    }
  }

  // ----- when an attempt must be repeated

  /** With memory enough, an attempt is turned away exactly when the child to
      write-lock is locked at all, or a node on the way is closed to readers. */
  lemma {:induction false} ScanAgain(locks: Locks, c: seq<Id>, stale: bool, mem: nat)
    requires mem >= |c|
    ensures Scan(locks, c, stale, mem) == Some(Again) <==> exists i :: i in c && Word(locks, i) < 0
    ensures Scan(locks, c, stale, mem) != Some(NoMemory)
    ensures Scan(locks, c, stale, mem) == Some(Stale) ==> stale
  {
    if c != [] {
      ScanAgain(locks, c[1..], stale, mem - 1);
      assert c == [c[0]] + c[1..];
    }
  }

  /** The path that hold `h` locks and the path `p` exclude each other. */
  ghost predicate Conflict(t: Tree, h: Hold, p: Path) {
    var c, w := UpChain(t.links, p.nodeid), WriteNode(t, p);
    || (w.Some? && (w == h.wnode || w.value in h.chain))
    || (h.wnode.Some? && h.wnode.value in c)
  }

  /** A node that both the hold and the path go through bears a waiting mark. */
  ghost predicate SharedMark(s: Core, h: Hold, p: Path) {
    exists i :: i in UpChain(s.tree.links, p.nodeid) && i in h.chain && Word(s.locks, i) < TREELOCK_WRITE
  }

  /** Lock words when `tok` is the only hold. */
  lemma {:induction false} OnlyHoldWords(s: Core, tok: Token, i: Id)
    requires Valid(s) && s.holds.Keys == {tok} && i in s.locks
    ensures s.locks[i] != 0 <==> i in s.holds[tok].chain || s.holds[tok].wnode == Some(i)
    ensures s.locks[i] < 0 <==> s.holds[tok].wnode == Some(i) ||
                                (i in s.holds[tok].chain && s.locks[i] < TREELOCK_WRITE)
  {
    var none := s.holds - {tok};
    assert none == map[];
    UnheldIsUncounted(none, i);
    DropHoldCounts(s.holds, tok, i);
    HeldWords(s.locks, s.holds, tok, i) by {
      ReadersBound(s, i);
    }
    assert LockIs(s.locks[i], NumReaders(s.holds, i), NumWriters(s.holds, i));
  }

  lemma {:induction false} NoHoldWords(s: Core, i: Id)
    requires Valid(s) && s.holds == map[] && i in s.locks
    ensures s.locks[i] == 0
  {
  }

  /** Names found in a directory are not on the way up from it. */
  lemma {:induction false} WriteNodeIsOffWay(s: Core, p: Path)
    requires Valid(s) && p.nodeid in s.tree.links
    ensures var w := WriteNode(s.tree, p); w.Some? ==> w.value !in UpChain(s.tree.links, p.nodeid)
  {
    var w := WriteNode(s.tree, p);
    if w.Some? {
      ChildIsOffWay(s.tree.links, w.value, UpChain(s.tree.links, p.nodeid));
    }
  }

  ghost predicate Plenty(s: Core, p: Path, mem: nat) {
    mem >= |UpChain(s.tree.links, p.nodeid)| + 1
  }

  /** Against a single other hold, and with memory enough, an attempt has to be
      repeated exactly when the two paths exclude each other or a node they share
      is marked as waited for. */
  lemma {:induction false} AgainstOneHold(s: Core, held: Token, tok: Token, p: Path, mem: nat)
    requires Valid(s) && s.holds.Keys == {held} && p.nodeid in s.tree.links && Plenty(s, p, mem)
    ensures var r := TryGet(s, tok, p, mem).1;
            && r != Failed(NoMemory)
            && (r == Failed(Again) <==> Conflict(s.tree, s.holds[held], p) || SharedMark(s, s.holds[held], p))
  {
    hide Valid;
    var h, c, w := s.holds[held], UpChain(s.tree.links, p.nodeid), WriteNode(s.tree, p);
    NodesOf(s, p);
    WriteNodeIsOffWay(s, p);
    if w.Some? {
      OnlyHoldWords(s, held, w.value);
    }
    forall i | i in c
      ensures Word(s.locks, i) < 0 <==> h.wnode == Some(i) || (i in h.chain && Word(s.locks, i) < TREELOCK_WRITE)
    {
      OnlyHoldWords(s, held, i);
    }
    var marked := SetLock(s.locks, w, TREELOCK_WRITE);
    ScanAgain(marked, c, Top(s.tree.links, p.nodeid, c) != ROOT, if p.name.Some? then mem - 1 else mem);
    forall i | i in c ensures Word(marked, i) == Word(s.locks, i) {
    }
  }

  /** Against no hold at all it never has to be repeated. */
  lemma {:induction false} AgainstNoHold(s: Core, tok: Token, p: Path, mem: nat)
    requires Valid(s) && s.holds == map[] && p.nodeid in s.tree.links && Plenty(s, p, mem)
    ensures var r := TryGet(s, tok, p, mem).1;
            r == if Top(s.tree.links, p.nodeid, UpChain(s.tree.links, p.nodeid)) == ROOT
                 then Granted(WriteNode(s.tree, p)) else Failed(Stale)
  {
    hide Valid;
    var c, w := UpChain(s.tree.links, p.nodeid), WriteNode(s.tree, p);
    NodesOf(s, p);
    WriteNodeIsOffWay(s, p);
    if w.Some? {
      NoHoldWords(s, w.value);
    }
    forall i | i in c ensures Word(s.locks, i) == 0 {
      NoHoldWords(s, i);
    }
    var marked := SetLock(s.locks, w, TREELOCK_WRITE);
    var stale, left := Top(s.tree.links, p.nodeid, c) != ROOT, if p.name.Some? then mem - 1 else mem;
    forall i | i in c ensures Word(marked, i) == 0 {
    }
    ScanAgain(marked, c, stale, left);
    assert Scan(marked, c, stale, left) != Some(Again);
    match Scan(marked, c, stale, left) {
      case None => ScanPasses(marked, c, stale, left);
      case Some(err) => assert err == Stale || err == Again || err == NoMemory;
    }
  }

  /** A path granted against no hold leaves no mark that could shut its own
      request out. */
  lemma {:induction false} FirstHoldLeavesNoMark(s: Core, tok: Token, p: Path, mem: nat, s': Core, q: Path)
    requires Valid(s) && s.holds == map[] && p.nodeid in s.tree.links && tok.req < MAX_REQUESTS
    requires TryGet(s, tok, p, mem) == (s', Granted(WriteNode(s.tree, p))) && q.nodeid in s.tree.links
    ensures s'.holds == map[tok := Hold(p, WriteNode(s.tree, p), UpChain(s.tree.links, p.nodeid))]
    ensures !SharedMark(s', s'.holds[tok], q)
  {
    hide Valid;
    NodesOf(s, p);
    WriteNodeIsOffWay(s, p);
    forall i | i in s'.holds[tok].chain ensures Word(s'.locks, i) == 1 {
      NoHoldWords(s, i);
    }
  }

  // ----- what an attempt comes to, from the tree and the lock words

  ghost function Way(t: Tree, p: Path): set<Id> {
    set i | i in UpChain(t.links, p.nodeid)
  }

  ghost function Child(t: Tree, p: Path): set<Id> {
    if WriteNode(t, p).Some? then {WriteNode(t, p).value} else {}
  }

  ghost predicate IsStale(t: Tree, p: Path) {
    Top(t.links, p.nodeid, UpChain(t.links, p.nodeid)) != ROOT
  }

  /** How many nodes in front on the way `c` are open to readers, where those in
      `closed` are not. */
  function OpenFor(locks: Locks, closed: set<Id>, c: seq<Id>): (n: nat)
    ensures n <= |c|
  {
    if c == [] || Word(locks, c[0]) < 0 || c[0] in closed then 0 else 1 + OpenFor(locks, closed, c[1..])
  }

  /** The child to write-lock is locked at all, where those in `taken` are. */
  ghost predicate ChildLocked(s: Core, p: Path, taken: set<Id>) {
    exists i :: i in Child(s.tree, p) && (Word(s.locks, i) != 0 || i in taken)
  }

  /** The child is locked, or a node on the way is closed to readers. */
  ghost predicate Shut(s: Core, p: Path, closed: set<Id>, taken: set<Id>) {
    var c := UpChain(s.tree.links, p.nodeid);
    ChildLocked(s, p, taken) || OpenFor(s.locks, closed, c) < |c|
  }

  /** `mem` name copies do not last as far as the attempt would look. */
  ghost predicate Starved(s: Core, p: Path, mem: nat, closed: set<Id>, taken: set<Id>) {
    var c := UpChain(s.tree.links, p.nodeid);
    if p.name.Some? && mem == 0 then true
    else
      var copies := if p.name.Some? then mem - 1 else mem;
      !ChildLocked(s, p, taken) && copies < |c| && copies <= OpenFor(s.locks, closed, c)
  }

  lemma {:induction false} ScanFate(locks: Locks, c: seq<Id>, stale: bool, mem: nat)
    ensures var open := OpenFor(locks, {}, c);
            Scan(locks, c, stale, mem) ==
              if mem < |c| && mem <= open then Some(NoMemory)
              else if open < |c| then Some(Again)
              else if stale then Some(Stale)
              else None
  {
    if c != [] && mem > 0 {
      ScanFate(locks, c[1..], stale, mem - 1);
    }
  }

  lemma {:induction false} OpenForSame(locks: Locks, closed: set<Id>, locks': Locks, closed': set<Id>, c: seq<Id>)
    requires forall i :: i in c ==> (Word(locks, i) < 0 || i in closed <==> Word(locks', i) < 0 || i in closed')
    ensures OpenFor(locks, closed, c) == OpenFor(locks', closed', c)
  {
    if c != [] {
      assert c == [c[0]] + c[1..];
      OpenForSame(locks, closed, locks', closed', c[1..]);
    }
  }

  /** With any amount of memory: running out of it, EAGAIN, ESTALE, or granted. */
  lemma {:induction false} AttemptFate(s: Core, tok: Token, p: Path, mem: nat)
    requires Valid(s) && p.nodeid in s.tree.links
    ensures TryGet(s, tok, p, mem).1 ==
              if Starved(s, p, mem, {}, {}) then Failed(NoMemory)
              else if Shut(s, p, {}, {}) then Failed(Again)
              else if IsStale(s.tree, p) then Failed(Stale)
              else Granted(WriteNode(s.tree, p))
  {
    hide Valid, UpChain, Top;
    var c, w := UpChain(s.tree.links, p.nodeid), WriteNode(s.tree, p);
    WriteNodeIsOffWay(s, p);
    assert ChildLocked(s, p, {}) <==> w.Some? && Word(s.locks, w.value) != 0 by {
      assert w.Some? ==> w.value in Child(s.tree, p);
    }
    if !ChildLocked(s, p, {}) {
      var marked := SetLock(s.locks, w, TREELOCK_WRITE);
      OpenForSame(s.locks, {}, marked, {}, c);
      if p.name.Some? && mem == 0 {
      } else {
        ScanFate(marked, c, IsStale(s.tree, p), if p.name.Some? then mem - 1 else mem);
      }
    }
  }

  /** What a granted path does to a later attempt: its child is closed, and neither
      its child nor its way can be write-locked. */
  lemma {:induction false} FateAfterGrant(s: Core, tok: Token, p: Path, mem: nat, s1: Core, q: Path)
    requires Valid(s) && p.nodeid in s.tree.links && q.nodeid in s.tree.links
    requires TryGet(s, tok, p, mem) == (s1, Granted(WriteNode(s.tree, p)))
    ensures var taken := Way(s.tree, p) + Child(s.tree, p);
            && s1.tree == s.tree
            && (ChildLocked(s1, q, {}) <==> ChildLocked(s, q, taken))
            && var c := UpChain(s.tree.links, q.nodeid);
               OpenFor(s1.locks, {}, c) == OpenFor(s.locks, Child(s.tree, p), c)
  {
    hide Valid, Top;
    var c, w := UpChain(s.tree.links, p.nodeid), WriteNode(s.tree, p);
    NodesOf(s, p);
    NodesOf(s, q);
    WriteNodeIsOffWay(s, p);
    var marked := SetLock(s.locks, w, TREELOCK_WRITE);
    ScanPasses(marked, c, IsStale(s.tree, p), if p.name.Some? then mem - 1 else mem);
    OpenForSame(s1.locks, {}, s.locks, Child(s.tree, p), UpChain(s.tree.links, q.nodeid));
  }

  /** The child that a refused attempt marks as waited for: one that only readers
      hold. */
  ghost function NewlyMarked(s: Core, p: Path): set<Id> {
    set i | i in Child(s.tree, p) && Word(s.locks, i) > 0
  }

  /** The lock words after a refusal. */
  lemma {:induction false} RefusalMarks(s: Core, tok: Token, p: Path, mem: nat, s1: Core)
    requires Valid(s) && p.nodeid in s.tree.links && TryGet(s, tok, p, mem) == (s1, Failed(Again))
    ensures s1.tree == s.tree && s1.holds == s.holds && s1.locks.Keys == s.locks.Keys
    ensures forall i :: i in s.locks ==>
              s1.locks[i] == if i in NewlyMarked(s, p) then s.locks[i] + INT_MIN else s.locks[i]
  {
    hide Valid, Top, UpChain;
    NodesOf(s, p);
  }

  lemma MarkedIsClosed(s: Core, i: Id)
    requires Valid(s) && i in s.locks && s.locks[i] > 0
    ensures s.locks[i] + INT_MIN < 0
  {
    ReadersBound(s, i);
    assert LockIs(s.locks[i], NumReaders(s.holds, i), NumWriters(s.holds, i));
  }

  /** What a refused path does to a later attempt: a child that only readers hold is
      closed from then on. */
  lemma {:induction false} FateAfterRefusal(s: Core, tok: Token, p: Path, mem: nat, s1: Core, q: Path)
    requires Valid(s) && p.nodeid in s.tree.links && q.nodeid in s.tree.links
    requires TryGet(s, tok, p, mem) == (s1, Failed(Again))
    ensures s1.tree == s.tree && (ChildLocked(s1, q, {}) <==> ChildLocked(s, q, {}))
    ensures var c := UpChain(s.tree.links, q.nodeid);
            OpenFor(s1.locks, {}, c) == OpenFor(s.locks, NewlyMarked(s, p), c)
  {
    hide Valid, Top, TryGet;
    RefusalMarks(s, tok, p, mem, s1);
    NodesOf(s, q);
    forall i | i in NewlyMarked(s, p) && i in s.locks ensures s.locks[i] + INT_MIN < 0 {
      MarkedIsClosed(s, i);
    }
    OpenForSame(s1.locks, {}, s.locks, NewlyMarked(s, p), UpChain(s.tree.links, q.nodeid));
  }
}
