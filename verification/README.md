# A verified model of the core of libfuse

libfuse 3.12 (`lisafuse/libfuse-master`) lets programs serve file systems. Its
high-level library works on paths while the kernel works on node numbers, so it keeps
a tree of nodes, locks paths in that tree for every request, and translates between the
two. This project models that core in Dafny, with the other parts of the library that
have an algorithm to get wrong, and proves what each is for.

| file | models |
|---|---|
| `path_tree.dfy` | parents and names as a tree; unlinking, linking, renaming, exchanging |
| `tree_locks.dfy` | one integer per node for readers, waiting writer and writer; attempts, rollback, unlocking |
| `lock_queue.dfy`, `lock_steps.dfy`, `lock_runs.dfy` | the queue of requests that wait, requests as a state machine, and all its runs |
| `lock_turns.dfy` | what each request gets: at once, in its turn of a wake-up, and that nobody is passed over |
| `lock_progress.dfy`, `lock_stuck.dfy`, `lock_deadlock.dfy` | when the head of the queue gets on, when it never will, and two runs in which the queue fails |
| `fuse_paths.dfy` | the same operations on node objects, walking parent pointers and updating fields in place |
| `path_names.dfy`, `path_buffer.dfy` | splitting and resolving paths; the buffer that is filled from its end |
| `node_refs.dfy`, `ref_runs.dfy`, `fuse_refs.dfy` | reference counts, the cascade of deletions, all runs, and the recursion on node objects |
| `relink_refs.dfy`, `whole_steps.dfy`, `whole_runs.dfy` | locks and reference counts together, and all runs of both: what is deleted is never locked |
| `node_ids.dfy` | ids and generations |
| `node_table.dfy` | the linear-hashing tables by id and by name |
| `node_slabs.dfy` | the slab allocator for nodes |
| `byte_locks.dfy` | POSIX byte-range locks: the F_SETLK rule of `fcntl()`, System Interfaces volume of POSIX.1-2017 |
| `readdir.dfy` | directory replies cut to the size of the request |
| `buf_copy.dfy` | copying between vectors of memory buffers |
| `interrupts.dfy`, `worker_pool.dfy` | matching interrupts with requests; the pool of worker threads |
| `c_strings.dfy`, `options.dfy`, `shell_quote.dfy` | option strings and their parser; quoting for the shell (sections 2.2.1 and 2.2.2 of the Shell Command Language chapter of POSIX.1-2017) |
| `wrappers.dfy`, `arithmetic.dfy` | shared types, division with remainder |

A section of code that holds a mutex is one step. Where the code drops the mutex in
between (`wait_path`, `forget_node`, `find_interrupted`, a worker between two requests)
there are several steps, and the theorems hold for every interleaving. Classes model
objects that the code updates in place; functions on values specify them, and the
theorems about runs are about those functions. Every method of a class is proved to do
what its function says.

## What the model assumes of the surroundings

- The kernel serialises operations on a name: when a granted rename, exchange or
  removal looks its name up again, it finds the node that the request has
  write-locked, or nothing if it found nothing before (`LockSteps.Enabled`).
- The kernel names only nodes that it has looked up and not forgotten; this includes the
  child that a request write-locks, if the library has one cached under that name
  (`WholeSteps.KnownPath`). It does not forget the last lookups of a node while a request
  that names the node still waits (`WholeSteps.CanNode`). Where locks or counts are taken
  alone, this appears as `NodeRefs.Pinned`, as `NodeRefs.Known`, as the condition on
  deletion in `LockSteps.Enabled`, as `FuseRefs.NothingLockedGoes`, and in
  `RefRuns.CanStep` as the condition that a node is not hashed below itself;
  `WholeRuns` proves all of these from the two conditions above.
- The file system grants a byte-range lock only if it conflicts with no lock of another
  owner: `fuse_lib_setlk` does not ask `locks_conflict` (`ByteLocks.Run`).
- There are fewer than 2^30 requests at a time, so that the reader count of a node
  stays below INT_MAX (`TreeLocks.MAX_REQUESTS`).
- The kernel does not use the id of a request again while it is in progress.
- The page size is a power of two, so that clearing the low bits of an address is
  rounding down to a multiple of it, and `mmap` returns pages not yet in use.
- Names have no slash and are not empty (for the round trip of paths only).
- What can fail or is decided elsewhere is a parameter: whether memory suffices, which
  page `mmap` returns, which requests come when.

## Where the code does less than it is for

- **The head of the lock queue can wait for ever.** If the head has read-locked a
  directory through its first path, and another request then tries to write-lock that
  directory, the waiting mark it leaves also shuts out the head's own second path, and
  only the head could clear the mark. `LockDeadlock.DeadlockIsReachable` gives a run after
  which the head waits in every later run in which memory suffices;
  `LockStuck.SharedMarkIsForEver` says so of every such state, and
  `LockProgress.HalfLockedHeadCompletes` says exactly when the head does get on.
- **A path lock can be lost.** `queue_element_wakeup` does not ask whether a waiter is
  done. A two-path request that has failed with ENOMEM, and is tried again before its
  thread has left the queue, can be given one of its paths, which nobody unlocks.
  `LockDeadlock.LeakIsReachable` gives a run, and `LockStuck.LostForEver` says that such a
  lock is never released. `LockProgress.WakeKeepsClean` says exactly for which tree, lock
  words and memory this happens, `LockProgress.WakeKeepsCleanWithMemory` says it without
  memory, and `LockRuns.LeakFreeRunLosesNoLock` says that nothing else loses a lock.
- **A failed doubling of a node table is not tried again** by later insertions
  (`NodeTables.NodeTable.Rehash`); the table stays correct, its chains grow.
- **`fuse_buf_copy` does not count the last step for the destination** when the source
  runs out (`BufCopy.DestinationLagsExactly`, `BufCopy.LagExample`).
- **With `max_idle_threads` 0 nobody may be left to read requests** although the limit of
  threads is not reached: the first worker to finish when all are busy goes, and a new one
  is started only when a request is read (`WorkerPool.AlwaysAttendedExactly`).
- **Leading empty options are lost** by `add_opt` (`Options.RoundTripExactly`).
- **`add_name` loops for ever** if a path needs more than 2^32 - 1 bytes
  (`PathBuffer.GrowthEndsExactly`).

## Model

| member | source | states |
|---|---|---|
| LockRuns.LockWordsCountHolds | lisafuse/libfuse-master/lib/fuse.c:975-1076 | In every state reachable from the tree of `fuse_new`, through any sequence of lock, queue, wake, rename, exchange, unlink, create and delete steps, the lock word of each node is the number r of outstanding path locks whose way to the root goes through it, or INT_MIN + r with r >= 1, or -1 for exactly one writer and no reader, and fits an `int` |
| LockRuns.NoAssertionFires | lisafuse/libfuse-master/lib/fuse.c:981-990 | In every reachable state the assertions in `unlock_path` hold for every outstanding lock, on the tree as it is then |
| LockRuns.TreeStaysAcyclic | lisafuse/libfuse-master/lib/fuse.c:1467-1532 | In every reachable state following parents from any node ends, and every locked path still leads to the root |
| LockRuns.OnlyHeadIsPartlyLocked | lisafuse/libfuse-master/lib/fuse.c:1129-1137 | In every reachable state a waiting request behind the head of the queue holds no lock, and the waiting head does not hold all it needs |
| LockRuns.LeakFreeRunLosesNoLock | lisafuse/libfuse-master/lib/fuse.c:1094-1210 | In every run whose wake-ups never meet a failed head of which tree, lock words and memory leave exactly one path open, every outstanding lock belongs to a request that was granted it or that still waits |
| LockRuns.RunKeepsInv | lisafuse/libfuse-master/lib/fuse.c:975-1532 | A run of any length keeps the invariant of lock words, tree and queue |
| LockSteps.StepKeepsInv | lisafuse/libfuse-master/lib/fuse.c:1094-1532 | Every single step (lock, queue, wake, free, rename, exchange, remove, create, delete) keeps the invariant |
| LockSteps.TryGet2Keeps | lisafuse/libfuse-master/lib/fuse.c:1310-1329 | A two-path attempt outside the queue ends with both paths locked or with neither, and touches no other request |
| LockSteps.GetKeepsInv | lisafuse/libfuse-master/lib/fuse.c:1212-1233 | Granting, refusing or queueing a request keeps the invariant |
| LockSteps.FreeKeepsInv | lisafuse/libfuse-master/lib/fuse.c:1379-1407 | Unlocking the paths of a request and waking all waiters keeps the invariant |
| LockSteps.QueueStepKeepsInv | lisafuse/libfuse-master/lib/fuse.c:1177-1210 | Joining and leaving the queue keeps the invariant |
| LockSteps.RelinkStepKeepsInv | lisafuse/libfuse-master/lib/fuse.c:1456-1532 | `rename_node`, `exchange_node` and `remove_node` under the write locks of their request keep the invariant |
| LockSteps.NodeStepKeepsInv | lisafuse/libfuse-master/lib/fuse.c:819-910 | Creating a node, and deleting one that is unlocked and has no children (which `WholeRuns` proves of every node deleted), keeps the invariant |
| LockQueue.WakeupKeeps | lisafuse/libfuse-master/lib/fuse.c:1094-1148 | Waking one waiter locks and unlocks paths of that request only (`LockTurns.TurnDecides` says which); afterwards it is done without error exactly if all its paths are locked, and unless it heads the queue it holds all or nothing |
| LockQueue.WakeKeepsInv | lisafuse/libfuse-master/lib/fuse.c:1150-1156 | Waking all waiters in order keeps the invariant, the order of the queue, and the locks of everybody who does not wait |
| LockTurns.TurnDecides | lisafuse/libfuse-master/lib/fuse.c:1094-1148 | The turn of any waiter, head or not, holding nothing or something: it is done with ENOMEM or ESTALE, done with all its paths, or waits on, and holds each path or not, exactly as the tree, the lock words, what the first attempt locks or marks, and the memory say; what it locks are its paths as they are now |
| LockTurns.EveryTurnCounts | lisafuse/libfuse-master/lib/fuse.c:1150-1156 | In `wake_up_queued` every waiter has that turn, and its status and locks at the end of the loop are those of its turn |
| LockTurns.EveryTurnWithMemory | lisafuse/libfuse-master/lib/fuse.c:1107-1156 | With memory enough, any waiter is done after a wake-up exactly if at its turn: with one path, it is not shut; with two and none held, neither is shut and they do not exclude each other, or the first leads nowhere any more, or the first is shut and the second is found to lead nowhere; and it has all its paths exactly if they are free |
| LockTurns.NobodyIsPassedOver | lisafuse/libfuse-master/lib/fuse.c:1150-1156 | Whoever still waits on paths after a wake-up, whatever the memory, could not lock them in the state after it |
| LockTurns.FreePassesNobodyOver | lisafuse/libfuse-master/lib/fuse.c:1379-1407 | The same after a request is finished |
| LockTurns.TryGet2Fate | lisafuse/libfuse-master/lib/fuse.c:1310-1329 | How a two-path attempt outside the queue ends, from tree, lock words and memory before it |
| LockTurns.PairWithMemory | lisafuse/libfuse-master/lib/fuse.c:1310-1329 | With memory enough it succeeds exactly if neither path is shut, both lead to the root, and they do not exclude each other |
| LockTurns.GetExactly | lisafuse/libfuse-master/lib/fuse.c:1212-1233 | A new request is granted, put at the end of the queue, or refused, exactly as that says |
| LockTurns.DequeueExactly | lisafuse/libfuse-master/lib/fuse.c:1189-1210 | A waiter that leaves the queue is granted exactly if it holds all its paths; the others keep their order |
| LockTurns.FreeExactly | lisafuse/libfuse-master/lib/fuse.c:1379-1407 | A finished request holds nothing and is not granted any more, and other granted requests keep their locks |
| LockProgress.HalfLockedHeadCompletes | lisafuse/libfuse-master/lib/fuse.c:1107-1127 | When only the head of the queue holds locks, on one of its two paths, a wake-up with memory enough completes it if and only if its two paths do not exclude each other and no node that both go through is marked as waited for |
| LockProgress.UnlockedHeadCompletes | lisafuse/libfuse-master/lib/fuse.c:1107-1127 | When nothing is locked, a wake-up with memory enough completes the head if and only if it has one path, its first path is stale, or its two paths do not exclude each other |
| LockProgress.WakeKeepsClean | lisafuse/libfuse-master/lib/fuse.c:1094-1148 | After a wake-up no failed waiter holds a lock, except exactly when the head has failed and not left the queue yet, and the tree, the lock words and the memory leave one of its paths open and shut the other: the way up is not read-lockable or the child to write-lock is taken, counting what the first attempt takes or marks |
| LockProgress.WakeKeepsCleanWithMemory | lisafuse/libfuse-master/lib/fuse.c:1094-1148 | With memory enough for both attempts that situation is: the first path is open, and the second shut by itself or in conflict with it; or the first is shut, and the second open and not through the child that the first marks |
| LockProgress.OneGrantExactly | lisafuse/libfuse-master/lib/fuse.c:1094-1148 | Two attempts one after the other of a request that holds nothing give it exactly one of its paths, and no fatal error, if and only if the tree, the lock words and the memory say so before |
| LockStuck.SharedMarkIsForEver | lisafuse/libfuse-master/lib/fuse.c:1094-1156 | If the head of the queue alone holds locks, on one of its two paths, and a node that both go through is marked as waited for, it waits for ever: in every run, with any other requests, in which memory suffices for its missing path |
| LockStuck.StepStays | lisafuse/libfuse-master/lib/fuse.c:1094-1156 | Every single step keeps that state: the mark, the node on the missing way, and the half-locked head |
| LockStuck.LostForEver | lisafuse/libfuse-master/lib/fuse.c:1094-1210 | A lock that belongs to no granted request and to no waiter stays in every later run, and the nodes on its way are never unlocked, write-locked or deleted again |
| LockDeadlock.DeadlockIsReachable | lisafuse/libfuse-master/lib/fuse.c:1017-1022 | A run from the initial state (a rename within a directory, a link into the renamed directory, a rename of their parent) to a state where only the head holds locks and its paths do not exclude each other, after which the head waits unchanged in every later run in which memory suffices for it |
| LockDeadlock.LeakIsReachable | lisafuse/libfuse-master/lib/fuse.c:1094-1148 | A run from the initial state after which a read lock is outstanding that belongs to no granted request and to no waiter, and stays so in every later run |
| TreeLocks.TryGetKeepsValid | lisafuse/libfuse-master/lib/fuse.c:996-1076 | `try_get_path` keeps lock words, tree and outstanding locks consistent, whether it is granted or fails |
| TreeLocks.AttemptFate | lisafuse/libfuse-master/lib/fuse.c:996-1076 | How an attempt ends is decided by the tree, the lock words and the number of copies of names that memory allows: ENOMEM, else EAGAIN if the child to write-lock is locked or a node on the way up has a negative word, else ESTALE if the way does not end at the root, else granted |
| TreeLocks.FailureRestores | lisafuse/libfuse-master/lib/fuse.c:1013-1027 | A failed attempt holds nothing and restores every lock word, except that EAGAIN may leave the waiting mark on a read-locked child that was to be write-locked |
| TreeLocks.UnlockKeepsValid | lisafuse/libfuse-master/lib/fuse.c:975-994 | `unlock_path` releases exactly what `try_get_path` took: afterwards the lock words count the other outstanding locks |
| TreeLocks.UnlockNeverAsserts | lisafuse/libfuse-master/lib/fuse.c:981-990 | The assertions in `unlock_path` hold when a granted path is unlocked |
| TreeLocks.WayIsAsRecorded | lisafuse/libfuse-master/lib/fuse.c:986-993 | The nodes that unlocking walks through are the ones that locking went through, whatever was renamed in between |
| TreeLocks.ReadersBound | lisafuse/libfuse-master/lib/fuse.c:1058 | No node ever has INT_MAX readers, so the three forms of a lock word stay apart |
| TreeLocks.RelinkKeepsValid | lisafuse/libfuse-master/lib/fuse.c:736-817 | A change of the links of write-locked nodes only keeps every outstanding lock and its recorded way |
| TreeLocks.WriterIsNotAbove | lisafuse/libfuse-master/lib/fuse.c:1017-1061 | A write lock on a node and a path lock on a directory below it cannot coexist |
| TreeLocks.RenameKeepsValid | lisafuse/libfuse-master/lib/fuse.c:1467-1501 | A rename whose source is write-locked, and whose target directory is locked, keeps the tree acyclic and all locks consistent |
| TreeLocks.ExchangeKeepsValid | lisafuse/libfuse-master/lib/fuse.c:1503-1532 | So does an exchange with both nodes write-locked and both directories locked |
| TreeLocks.RemoveKeepsValid | lisafuse/libfuse-master/lib/fuse.c:1456-1465 | So does the removal of a write-locked node |
| TreeLocks.AddNodeKeepsValid | lisafuse/libfuse-master/lib/fuse.c:873-910 | So does a new node below an existing one |
| TreeLocks.DropNodeKeepsValid | lisafuse/libfuse-master/lib/fuse.c:819-831 | So does the deletion of an unlocked node without children |
| TreeLocks.AgainstOneHold | lisafuse/libfuse-master/lib/fuse.c:996-1076 | Against a single other lock an attempt with memory enough has to be repeated exactly when the two paths exclude each other or a shared node is marked as waited for |
| TreeLocks.AgainstNoHold | lisafuse/libfuse-master/lib/fuse.c:996-1076 | Against no lock an attempt with memory enough is granted, or stale, but never has to be repeated |
| PathTree.RenameMoves | lisafuse/libfuse-master/lib/fuse.c:1467-1501 | After `rename_node` the new name means the node that the old one meant, the old name means nothing, a node that had the new name has none, and every other name and node is as before; without memory for the name neither node has one |
| PathTree.ExchangeSwaps | lisafuse/libfuse-master/lib/fuse.c:1503-1532 | After `exchange_node` each name means what the other meant, and every other name and node is as before; if the first name cannot be copied neither node has one, if the second cannot, the first node has moved and the second has none |
| PathTree.RemoveUnlinks | lisafuse/libfuse-master/lib/fuse.c:1456-1465 | After `remove_node` the name means nothing, the node has no name, and all else is as before |
| LockSteps.RenameStepMoves | lisafuse/libfuse-master/lib/fuse.c:1467-1501 | The same of the rename step of a request, in the directories of its two paths |
| LockSteps.ExchangeStepSwaps | lisafuse/libfuse-master/lib/fuse.c:1503-1532 | And of its exchange step |
| LockSteps.RemoveStepUnlinks | lisafuse/libfuse-master/lib/fuse.c:1456-1465 | And of its removal step |
| PathTree.RenameKeepsWellFormed | lisafuse/libfuse-master/lib/fuse.c:1467-1501 | `rename_node` keeps the tree acyclic and the name table in agreement with it if the moved node is not above its new directory |
| PathTree.RenameBelowItselfIsCyclic | lisafuse/libfuse-master/lib/fuse.c:1467-1501 | That condition is needed: moving a node below itself leaves it on a cycle |
| PathTree.ExchangeKeepsWellFormed | lisafuse/libfuse-master/lib/fuse.c:1503-1532 | `exchange_node` keeps the tree well formed if neither node is above either directory |
| PathTree.UnhashKeepsWellFormed | lisafuse/libfuse-master/lib/fuse.c:736-762 | `unhash_name` keeps the tree well formed; ways through the node now end there |
| PathTree.HashKeepsWellFormed | lisafuse/libfuse-master/lib/fuse.c:793-817 | `hash_name` keeps the tree well formed if the name is free and the node is not the top of its new directory |
| PathTree.UpIsDistinct | lisafuse/libfuse-master/lib/fuse.c:1037-1062 | Following parents never meets a node twice |
| FusePaths.Fuse.constructor | lisafuse/libfuse-master/lib/fuse.c:5003-5034 | Only the root exists, looked up once, nothing is locked, and nobody waits: the state in which every run begins |
| FusePaths.Fuse.TryGetPath | lisafuse/libfuse-master/lib/fuse.c:996-1076 | On node objects: the walk along parent pointers, counting readers in place and rolling back, does to the lock words what the model of `try_get_path` says, and a granted attempt returns the path string |
| FusePaths.Fuse.LockWay | lisafuse/libfuse-master/lib/fuse.c:1037-1076 | Its loop read-locks exactly the way up and collects its names, or fails for the reason the model gives and restores every lock word |
| FusePaths.Fuse.RollBack | lisafuse/libfuse-master/lib/fuse.c:1069-1071 | The failure exit restores the lock words from before the attempt, and the assertions hold on the way |
| FusePaths.Fuse.WriteLock | lisafuse/libfuse-master/lib/fuse.c:1017-1027 | The child is write-locked if it is unlocked, marked as waited for if only readers hold it, and left alone otherwise |
| FusePaths.Fuse.UnlockPath | lisafuse/libfuse-master/lib/fuse.c:975-994 | The walk from a node to an end node, or to the root, takes one reader from every node it meets and the writer from the child |
| FusePaths.Fuse.TryGetFor | lisafuse/libfuse-master/lib/fuse.c:996-1076 | A granted attempt is recorded as an outstanding lock; the node objects stay consistent |
| FusePaths.Fuse.UnlockFor | lisafuse/libfuse-master/lib/fuse.c:975-994 | Unlocking an outstanding lock on the node objects is the unlocking of the model |
| FusePaths.Fuse.QueueElementUnlock | lisafuse/libfuse-master/lib/fuse.c:1078-1092 | Both bits of a queue element are cleared and exactly the paths they stood for are unlocked |
| FusePaths.Fuse.QueueElementWakeup | lisafuse/libfuse-master/lib/fuse.c:1094-1148 | On a queue element with its two bits: the same locks, bits and result as the wake-up of the model |
| FusePaths.Fuse.WakeUpQueued | lisafuse/libfuse-master/lib/fuse.c:1150-1156 | The loop over the queue is the wake-up of all waiters of the model |
| FusePaths.Fuse.TryGetPath2 | lisafuse/libfuse-master/lib/fuse.c:1310-1329 | Both paths are locked, or the first is unlocked again; both strings are returned |
| FusePaths.Fuse.LookupNode | lisafuse/libfuse-master/lib/fuse.c:852-864 | The node hashed under a parent and a name, if there is one |
| FusePaths.Fuse.LookupPathInCache | lisafuse/libfuse-master/lib/fuse.c:912-940 | Following the components of a path through the name table from the root gives the node, -ENOENT exactly if some component is not cached, and -ENOMEM if the path cannot be copied |
| FusePaths.Fuse.UnhashName | lisafuse/libfuse-master/lib/fuse.c:736-762 | Unlinks a node object and takes its name out of the table |
| FusePaths.Fuse.HashName | lisafuse/libfuse-master/lib/fuse.c:793-817 | Links a node object below a parent, or fails without a change when the name cannot be copied |
| FusePaths.Fuse.RemoveNode | lisafuse/libfuse-master/lib/fuse.c:1456-1465 | Unlinks the node with that name, if there is one |
| FusePaths.Fuse.RenameNode | lisafuse/libfuse-master/lib/fuse.c:1467-1501 | On node objects and both tables: the tree of the model after the rename, with 0, -EBUSY or -ENOMEM as its cases say |
| FusePaths.Fuse.ExchangeNode | lisafuse/libfuse-master/lib/fuse.c:1503-1532 | On node objects: for two different nodes, as the write locks ensure, the tree of the model after the exchange, and -ENOMEM exactly if a name of a node found cannot be copied |
| NodeTables.NodeTable.Lookup | lisafuse/libfuse-master/lib/fuse.c:527-537 | Looking in one chain finds what the plain map has under the key |
| NodeTables.NodeTable.Insert | lisafuse/libfuse-master/lib/fuse.c:680-689 | The plain map gains the entry; one bucket is split exactly when half the size is reached and one is left to split, and the table doubles exactly when that was the last one and memory suffices |
| NodeTables.NodeTable.Remove | lisafuse/libfuse-master/lib/fuse.c:619-632 | The node leaves the plain map if it is there, found or not; no bucket is merged while a quarter of the size is in use, and at most eight otherwise |
| NodeTables.NodeTable.Rehash | lisafuse/libfuse-master/lib/fuse.c:651-678 | Splitting a bucket changes nothing about the plain map; after a failed doubling no further bucket is split |
| NodeTables.NodeTable.Distribute | lisafuse/libfuse-master/lib/fuse.c:661-675 | The walk along the chain leaves every element in the bucket that its hash now names, and loses none |
| NodeTables.NodeTable.Resize | lisafuse/libfuse-master/lib/fuse.c:634-649 | A doubled table with no bucket split stands for the same map |
| NodeTables.NodeTable.Remerge | lisafuse/libfuse-master/lib/fuse.c:593-617 | Merging changes nothing about the plain map, and takes back between one and eight splits unless the table is at its minimum |
| NodeTables.NodeTable.MergeOne | lisafuse/libfuse-master/lib/fuse.c:603-615 | One split is taken back |
| NodeTables.NodeTable.Reduce | lisafuse/libfuse-master/lib/fuse.c:577-591 | The halved table with all buckets split stands for the same map, also when `realloc` fails |
| NodeTables.NewTables | lisafuse/libfuse-master/lib/fuse.c:5005-5009 | Two empty tables, one hashing ids and one hashing parents with names |
| NodeTables.ComputeNameHash | lisafuse/libfuse-master/lib/fuse.c:694-698 | The loop, reducing at every character, computes parent * 31^n plus the sum of c_i * 31^(n-1-i), reduced once modulo 2^64 |
| NodeTables.ModTwice | lisafuse/libfuse-master/lib/fuse.c:516-525 | (h mod 2n) mod n = h mod n, and h mod 2n is that or n more |
| NodeTables.BucketBounds | lisafuse/libfuse-master/lib/fuse.c:516-525 | The bucket of a hash is always below half the size plus the split point |
| NodeTables.BucketAfterSplit | lisafuse/libfuse-master/lib/fuse.c:516-525 | Splitting one bucket sends its elements to itself or to its upper partner and moves nothing else |
| NodeTables.BucketAfterDoubling | lisafuse/libfuse-master/lib/fuse.c:634-649 | A fully split table and an unsplit one of twice the size have the same buckets |
| NodeTables.UpperBucketsEmpty | lisafuse/libfuse-master/lib/fuse.c:593-617 | Buckets at or beyond half the size plus the split point are empty |
| NodeTables.PrependRefines | lisafuse/libfuse-master/lib/fuse.c:680-689 | Prepending an element to the chain its hash names stands for adding it to the map |
| NodeTables.DeleteRefines | lisafuse/libfuse-master/lib/fuse.c:619-632 | Deleting an element from a chain stands for removing it from the map |
| NodeTables.SplitRefines | lisafuse/libfuse-master/lib/fuse.c:651-678 | A chain distributed over its bucket and the empty upper partner stands for the same map |
| NodeTables.MergeRefines | lisafuse/libfuse-master/lib/fuse.c:593-617 | Appending the upper chain to the lower one stands for the same map |
| RefRuns.CountsAreReferences | lisafuse/libfuse-master/lib/fuse.c:736-910 | In every state reachable by creating, looking up, forgetting, holding, unhashing and hashing nodes (where the name is free, and not below themselves), `refctr` is 1 for a positive `nlookup` plus the hashed children plus the transient holds, that sum is positive, the root exists, and the parent of a hashed node exists |
| RefRuns.LookupsAreThoseGiven | lisafuse/libfuse-master/lib/fuse.c:866-910 | In every reachable state `nlookup` of a node is the number of replies that named it (and one for the root) less what was forgotten, counted from the steps alone; a node on which that is positive exists; and its transient holds are those begun and not ended |
| WholeRuns.LookupsAreThoseGiven | lisafuse/libfuse-master/lib/fuse.c:866-1445 | The same with requests renaming and unlinking in between |
| NodeRefs.UnrefKeepsCounted | lisafuse/libfuse-master/lib/fuse.c:819-839 | `unref_node` frees a node exactly when its last reference goes, and then its parents as far as they depended on it; all counts are right again, and only unreferenced nodes were freed |
| NodeRefs.FreeKeeps | lisafuse/libfuse-master/lib/fuse.c:819-831 | A node whose count reaches zero has no lookups, holds or children, is not the root, and deleting it leaves only its parent counted once too often |
| NodeRefs.FreedNodesAreUnlocked | lisafuse/libfuse-master/lib/fuse.c:825 | If every node that an outstanding lock names has a lookup, no node that the cascade frees is locked (`WholeRuns` proves that condition) |
| NodeRefs.AncestorsSurvive | lisafuse/libfuse-master/lib/fuse.c:819-839 | A node that survives keeps its whole way to the root |
| NodeRefs.IncLookupKeeps | lisafuse/libfuse-master/lib/fuse.c:866-871 | `inc_nlookup` gives the node one lookup more, nothing else one, and keeps all counts right |
| NodeRefs.ForgetKeeps | lisafuse/libfuse-master/lib/fuse.c:1433-1441 | `forget_node` takes exactly the lookups forgotten, from that node only (and none from the root), and keeps all counts right, also when the node and nodes above it go |
| NodeRefs.UnlinkKeeps | lisafuse/libfuse-master/lib/fuse.c:736-762 | `unhash_name` keeps all counts right and never frees the node that it unlinks |
| NodeRefs.UnlinkFreesNothing | lisafuse/libfuse-master/lib/fuse.c:736-762 | Unlinking a node below a directory that the kernel knows frees nothing |
| NodeRefs.LinkKeeps | lisafuse/libfuse-master/lib/fuse.c:793-817 | `hash_name` keeps all counts right |
| NodeRefs.CreateKeeps | lisafuse/libfuse-master/lib/fuse.c:884-904 | A new node of `find_node` keeps all counts right |
| NodeRefs.CreateExactly | lisafuse/libfuse-master/lib/fuse.c:884-904 | The new node is under its name with one lookup, and all else is as before |
| NodeRefs.UnlinkKeepsLookups | lisafuse/libfuse-master/lib/fuse.c:736-762 | `unhash_name` takes no lookup from any node, also when it frees some |
| NodeRefs.RenameKeepsCounted | lisafuse/libfuse-master/lib/fuse.c:1467-1501 | `rename_node` keeps all counts right, given that the node is not above its new directory and the kernel knows that directory |
| RelinkRefs.RenameFollows | lisafuse/libfuse-master/lib/fuse.c:1467-1501 | Below directories that the kernel knows, and with the node not above its new one, `rename_node` on counts frees nothing, makes the tree that the names alone make, and leaves all counts right |
| RelinkRefs.ExchangeFollows | lisafuse/libfuse-master/lib/fuse.c:1503-1532 | So does `exchange_node`, with two different nodes that are above neither directory |
| RelinkRefs.RemoveFollows | lisafuse/libfuse-master/lib/fuse.c:1456-1465 | So does `remove_node` |
| WholeRuns.DeletedNodesAreUnlocked | lisafuse/libfuse-master/lib/fuse.c:819-839 | In every state reachable by requests that lock, wait, rename, exchange and unlink, and by creating, finding, holding and forgetting nodes, the assertion in `delete_node` holds: whichever step comes next, the lock word of every node that it deletes is zero |
| WholeRuns.LocksAreReachable | lisafuse/libfuse-master/lib/fuse.c:819-1532 | In every such run the locks are in a state that the lock machine reaches, deletions only where that machine allows them: all that is proved of `LockRuns.Run` holds with the counts present |
| WholeRuns.StepIsLockRun | lisafuse/libfuse-master/lib/fuse.c:819-1532 | Each step of locks and counts together keeps lock words, tree, queue and counts right, is a run of the lock machine, and deletes only unlocked nodes |
| WholeRuns.LockedNodesExist | lisafuse/libfuse-master/lib/fuse.c:819-1076 | In every such state the directory of an outstanding lock and the child it write-locks have lookups, and every node on the way up exists |
| WholeRuns.AwaitedNodesExist | lisafuse/libfuse-master/lib/fuse.c:819-1210 | In every such state every node that a waiter names exists and has lookups |
| WholeRuns.CountsAreRight | lisafuse/libfuse-master/lib/fuse.c:736-910 | In every such state locks and counts are on the same tree, and `refctr` of each of its nodes is what refers to it |
| WholeSteps.CascadeIsDeletes | lisafuse/libfuse-master/lib/fuse.c:819-839 | Letting go of a reference, with all deletions that follow from it, is a run of the lock machine, and no node that goes is locked |
| WholeSteps.UnneededGoes | lisafuse/libfuse-master/lib/fuse.c:1409-1445 | The last lookups of an unlocked node that no waiter names can be forgotten: no outstanding lock names it either |
| FuseRefs.UnrefNode | lisafuse/libfuse-master/lib/fuse.c:833-839 | On node objects: the recursion up the tree ends and does what the model says |
| FuseRefs.DeleteNode | lisafuse/libfuse-master/lib/fuse.c:819-831 | On node objects: the node leaves both tables, its assertion holds, and the cascade goes on at its parent |
| FuseRefs.UnhashName | lisafuse/libfuse-master/lib/fuse.c:736-762 | On node objects: unlinking with the reference to the parent let go of |
| FuseRefs.IncNlookup | lisafuse/libfuse-master/lib/fuse.c:866-871 | On node objects: the count of lookups, and of references with the first |
| FuseRefs.HashName | lisafuse/libfuse-master/lib/fuse.c:793-817 | On node objects: linking with a reference to the parent |
| FuseRefs.HashId | lisafuse/libfuse-master/lib/fuse.c:680-689 | On node objects: the node joins the id table with its counts as they are |
| FuseRefs.RemoveNode | lisafuse/libfuse-master/lib/fuse.c:1456-1465 | On node objects, with counts: the node under a name, if there is one, is unlinked and its parent let go of, freeing unlocked nodes only |
| FuseRefs.RenameNode | lisafuse/libfuse-master/lib/fuse.c:1467-1501 | On node objects, with counts: between directories that the kernel knows, and unless the node is above the new one, the rename does to tree and counts what the model says, and all counts are right afterwards |
| FuseRefs.NewNode | lisafuse/libfuse-master/lib/fuse.c:884-904 | On node objects: the new node gets the next available id and the generation of that moment, is linked, and counted; without memory tree and counts stay as they were |
| FuseRefs.FindNode | lisafuse/libfuse-master/lib/fuse.c:873-910 | On node objects: a cached node gains a lookup, an uncached name a node, and all counts are right afterwards |
| FuseRefs.ForgetNode | lisafuse/libfuse-master/lib/fuse.c:1409-1445 | On node objects: forgetting lookups once the node is unlocked; the root is never forgotten |
| NodeIds.IdCounter.NextId | lisafuse/libfuse-master/lib/fuse.c:841-850 | The loop ends if an id is available, and then gives the next available one, skipping none |
| NodeIds.NextExistsExactly | lisafuse/libfuse-master/lib/fuse.c:841-850 | The loop ever ends if and only if some id is available |
| NodeIds.SomeIdIsAvailable | lisafuse/libfuse-master/lib/fuse.c:841-850 | Fewer than 2^32 - 2 ids in use leave one available |
| NodeIds.PairsRepeatExactly | lisafuse/libfuse-master/lib/fuse.c:844-846 | Two values of the counters agree exactly when a multiple of 2^64 increments lies between them |
| NodeIds.NoPairTwice | lisafuse/libfuse-master/lib/fuse.c:841-905 | Over every run, until the generation wraps, no (nodeid, generation) is handed out twice, and the ids 0, 0xffffffff and that of the root never are |
| ByteLocks.Inode.LocksInsert | lisafuse/libfuse-master/lib/fuse.c:3986-4058 | The owner gets the requested type on the bytes of the request, no other byte and no other owner changes, the list stays sorted, disjoint and maximally merged, and at most two nodes are used, none for unlocking everything; the lock that covers the request names its process, every other lock the process it named; a lock that covers the request already stays; without memory nothing changes |
| ByteLocks.Inode.Cut | lisafuse/libfuse-master/lib/fuse.c:4021-4041 | Deleting, truncating or splitting a lock of another type keeps what remains to be done; a second node is needed exactly when the lock sticks out on both sides |
| ByteLocks.Inode.LocksConflict | lisafuse/libfuse-master/lib/fuse.c:3960-3971 | Nothing is found exactly if no other owner has a lock on a requested byte that excludes the request; what is found is the first lock in the list that does |
| ByteLocks.LastRequestCounts | lisafuse/libfuse-master/lib/fuse.c:4148-4209 | At the end of every run of granted requests, of which some could not be inserted for lack of memory, an owner holds on each byte what its last inserted request there asked for, and nobody writes where another has a lock |
| ByteLocks.GrantKeepsCompatible | lisafuse/libfuse-master/lib/fuse.c:4178-4205 | A request that conflicted with nothing keeps the owners compatible |
| ByteLocks.OthersUntouched | lisafuse/libfuse-master/lib/fuse.c:4004-4048 | The locks of other owners are stored exactly as before |
| ByteLocks.CanonicalIsUnique | lisafuse/libfuse-master/lib/fuse.c:3986-4058 | Two sorted, disjoint, merged lists that mean the same store the same locks, so the list `locks_insert` leaves is the only one it could leave |
| ByteLocks.MergeStep | lisafuse/libfuse-master/lib/fuse.c:4009-4020 | Absorbing a touching lock of the same type keeps what remains to be done |
| ByteLocks.CutStep | lisafuse/libfuse-master/lib/fuse.c:4021-4041 | Cutting the request out of a lock of another type keeps what remains to be done |
| ByteLocks.SpannedStep | lisafuse/libfuse-master/lib/fuse.c:4014-4015 | A lock of the same type around the request means that nothing is left to do |
| PathNames.PathRoundTrip | lisafuse/libfuse-master/lib/fuse.c:912-973 | For names that are not empty and have no slash, resolving the string that `try_get_path` builds gives the node back, or with a last name what that name means in it |
| PathNames.ResolveExactly | lisafuse/libfuse-master/lib/fuse.c:912-940 | A path resolves to a node exactly if its components are the names on the way up from the node, and that way ends at the root |
| PathNames.WalkArrivesExactly | lisafuse/libfuse-master/lib/fuse.c:923-935 | The same for a list of names, for all lists and nodes |
| PathNames.NextToken | lisafuse/libfuse-master/lib/fuse.c:922-934 | Skipping slashes and taking the next component is one step of splitting the path |
| PathNames.TokensAreTheNames | lisafuse/libfuse-master/lib/fuse.c:919-934 | The components of any path are its names, however many slashes stand before, between and after them |
| PathNames.TokensOfPath | lisafuse/libfuse-master/lib/fuse.c:942-973 | The components of the string built for a node are the names from the root down to it |
| PathBuffer.AddName | lisafuse/libfuse-master/lib/fuse.c:942-973 | Slash and name end up in front of the text, in the same buffer if they fit, else in a larger one; nothing below is written |
| PathBuffer.GrowthEndsExactly | lisafuse/libfuse-master/lib/fuse.c:951-956 | The search for a larger buffer size ever ends exactly if what is needed fits an `unsigned` |
| PathBuffer.BuildPath | lisafuse/libfuse-master/lib/fuse.c:996-1067 | With memory enough, the buffer begins with the whole path and a NUL after any number of names; the empty path is "/" |
| PathBuffer.CollectedIsPath | lisafuse/libfuse-master/lib/fuse.c:1006-1067 | What is collected for a node and a last name is the string that the round trip is about |
| ReadDir.ReadIsLossless | lisafuse/libfuse-master/lib/fuse.c:3675-3717 | Whatever sizes the requests have, the decoded replies are consecutive entries from the first on, none skipped, repeated or changed, and only a request too small for the next entry ends reading early |
| ReadDir.ReadIsComplete | lisafuse/libfuse-master/lib/fuse.c:3675-3717 | As many requests as entries, each large enough for any one entry, get the whole list |
| ReadDir.ChunkTakesAllThatFit | lisafuse/libfuse-master/lib/fuse.c:3675-3717 | A reply fits into the request, and the record after it would not have fitted |
| ReadDir.DirHandle.FillFromList | lisafuse/libfuse-master/lib/fuse.c:3675-3717 | The reply holds the encodings of the entries from the offset on, as many as fit |
| ReadDir.AddDirentry | lisafuse/libfuse-master/lib/fuse_lowlevel.c:267-292 | A record that fits is written with its header, name and padding and nothing before it changes; one that does not fit writes nothing, and without a buffer only the size is returned |
| ReadDir.RecordIsLeast | lisafuse/libfuse-master/lib/fuse_lowlevel.c:276-281 | The length of a record is the least multiple of 8 that header and name fit into |
| ReadDir.DecodeEncoded | lisafuse/libfuse-master/lib/fuse_lowlevel.c:267-292 | Reading a reply record by record gives back the records that were written |
| ReadDir.DirHandle.ExtendContents | lisafuse/libfuse-master/lib/fuse.c:3424-3447 | The buffer is large enough afterwards and keeps its bytes, or stays as it was when memory runs out |
| NodeSlabs.Allocator.AllocNode | lisafuse/libfuse-master/lib/fuse.c:453-474 | A node is handed out that was not in use, unless a page is needed and not to be had |
| NodeSlabs.Allocator.FreeNodeMem | lisafuse/libfuse-master/lib/fuse.c:487-502 | A node in use is taken back, its slab found by its address; every slab stays on the list that its free nodes say |
| NodeSlabs.Allocator.AllocSlab | lisafuse/libfuse-master/lib/fuse.c:421-451 | All nodes of a new page are free, each exactly once |
| NodeSlabs.NodesInUseApart | lisafuse/libfuse-master/lib/fuse.c:416-451 | Nodes in use overlap neither each other nor the header of a slab |
| NodeSlabs.OwnSlab | lisafuse/libfuse-master/lib/fuse.c:416-419 | Rounding the address of a node in use down to a page gives the slab it is from |
| NodeSlabs.AllFreedLeavesNothing | lisafuse/libfuse-master/lib/fuse.c:5111-5122 | Both slab lists are empty exactly if all nodes have been freed |
| NodeSlabs.NodesFit | lisafuse/libfuse-master/lib/fuse.c:416-445 | The nodes of a slab lie behind its header and within its page |
| BufCopy.FuseBufCopy | lisafuse/libfuse-master/lib/buffer.c:284-324 | For vectors of memory buffers: the lesser of what is left on the two sides is returned and both cursors move as the loop on sizes says; if the vectors share no buffer, the destination bytes are those of the source and no other byte changes; a vector onto itself returns its size |
| BufCopy.CopiesMinimum | lisafuse/libfuse-master/lib/buffer.c:292-321 | The loop copies the lesser of what is left, and moves the source cursor by exactly that |
| BufCopy.DestinationLagsExactly | lisafuse/libfuse-master/lib/buffer.c:315-317 | The destination cursor stays behind what was copied exactly if the source has no more left than the destination and its last buffer still has bytes |
| BufCopy.LagExample | lisafuse/libfuse-master/lib/buffer.c:315-317 | Copying 4 bytes into 8 leaves the destination cursor at the start |
| BufCopy.CopyOne | lisafuse/libfuse-master/lib/buffer.c:234-245 | A chunk of one memory buffer ends up in another or in the same one as it was before, also where the two overlap |
| BufCopy.BufVec.Advance | lisafuse/libfuse-master/lib/buffer.c:265-282 | The cursor moves on, over the end of a buffer to the start of the next, and the result says whether there is one; past the last buffer it stays |
| BufCopy.BufVec.Size | lisafuse/libfuse-master/lib/buffer.c:22-35 | The sum of the buffer sizes |
| Interrupts.DestroyedOnceAndLast | lisafuse/libfuse-master/lib/fuse_lowlevel.c:124-146 | In every reachable state no request object was destroyed twice, and none that was destroyed is still listed or referred to by an interrupt in progress, although `find_interrupted` drops the session lock |
| Interrupts.PendingTargetsAreApart | lisafuse/libfuse-master/lib/fuse_lowlevel.c:1691-1733 | In every reachable state pending interrupts have different targets, and none of these is a request in progress |
| Interrupts.EachInOnePlace | lisafuse/libfuse-master/lib/fuse_lowlevel.c:1735-1778 | In every reachable state each interrupt is matched with a request, pending, to be answered with EAGAIN, or done with, and only one of these |
| Interrupts.FoundRequestIsInterrupted | lisafuse/libfuse-master/lib/fuse_lowlevel.c:1702-1720 | When an interrupt has found its request, the request is marked as interrupted, and the interrupt destroys it exactly if it is not listed any more and no other interrupt refers to it |
| Interrupts.LateRequestIsInterrupted | lisafuse/libfuse-master/lib/fuse_lowlevel.c:1755-1770 | A request starts out interrupted exactly if an interrupt for it was pending, and that interrupt is then gone |
| Interrupts.ArrivalBounces | lisafuse/libfuse-master/lib/fuse_lowlevel.c:1755-1778 | A request for which no interrupt waits bounces the one that has waited longest, which is to be answered with EAGAIN, and changes nothing else |
| Interrupts.ArrivalMatches | lisafuse/libfuse-master/lib/fuse_lowlevel.c:1755-1770 | A request for which one waits starts out interrupted, takes it off the list and bounces nobody |
| Interrupts.InterruptExactly | lisafuse/libfuse-master/lib/fuse_lowlevel.c:1691-1753 | An interrupt takes hold of its request if that is in progress, is dropped if another waits for the same request, and else waits behind all others |
| Interrupts.WaitingEnds | lisafuse/libfuse-master/lib/fuse_lowlevel.c:1691-1778 | In every run an interrupt with k older ones pending is gone, bounced or matched, after more than k arrivals that no interrupt waited for |
| Interrupts.StepKeepsInv | lisafuse/libfuse-master/lib/fuse_lowlevel.c:1691-1778 | Every step between taking and dropping the session lock keeps the reference counts and the places of all objects |
| WorkerPool.CountersAreRight | lisafuse/libfuse-master/lib/fuse_loop_mt.c:124-204 | In every reachable state `numavail` plus the workers busy with a request is `numworker`; before shutdown that is the length of the list, at least 1, and at most `max_threads` unless it is 1 |
| WorkerPool.ReleasedExactlyOnce | lisafuse/libfuse-master/lib/fuse_loop_mt.c:184-204 | In every reachable state no worker was released twice or while in the list; once shutdown has emptied the list each worker ever started was released once |
| WorkerPool.ShutdownEnds | lisafuse/libfuse-master/lib/fuse_loop_mt.c:360-372 | Once `exit` is set, some worker can go on as long as one remains, and every step brings the end nearer |
| WorkerPool.StartsExactly | lisafuse/libfuse-master/lib/fuse_loop_mt.c:149-168 | Before shutdown a worker is started exactly if a request other than a forget has made the last idle one busy, the limit allows one more, and a thread can be had; it goes to receive |
| WorkerPool.LetGoExactly | lisafuse/libfuse-master/lib/fuse_loop_mt.c:172-200 | A worker that has finished goes exactly if more than `max_idle` are idle then and another remains |
| WorkerPool.AlwaysAttendedExactly | lisafuse/libfuse-master/lib/fuse_loop_mt.c:162-200 | If threads can be had, in every reachable state before shutdown some worker is not busy or the limit is reached, if and only if `max_idle` is not 0 or the limit is one worker |
| WorkerPool.StepKeepsInv | lisafuse/libfuse-master/lib/fuse_loop_mt.c:124-322 | Every step of a worker or of the main thread keeps the counters, the list and the releases in agreement |
| Options.OptionsRoundTrip | lisafuse/libfuse-master/lib/fuse_opt.c:115-332 | Taking apart what was appended escaped gives the same options, except that empty ones at the front are lost, of which one stays if there is nothing else |
| Options.RoundTripExactly | lisafuse/libfuse-master/lib/fuse_opt.c:124-127 | The list comes back unchanged exactly if its first option is not empty or it is the only one |
| Options.AddOpt | lisafuse/libfuse-master/lib/fuse_opt.c:115-137 | In the memory allocated for it, the string gets a comma unless it was empty, and the option, escaped if asked for |
| Options.ProcessRealOptionGroup | lisafuse/libfuse-master/lib/fuse_opt.c:294-332 | Reading and writing in one array, the writer never ahead of the reader, passes on the options the string stands for, in order and up to the first that is not accepted |
| Options.ParseSpelled | lisafuse/libfuse-master/lib/fuse_opt.c:294-332 | Reading an option spelled with any mixture of plain characters, characters behind a backslash, and three octal digits behind one gives its characters, whatever follows |
| Options.OctalStandsFor | lisafuse/libfuse-master/lib/fuse_opt.c:312-319 | A backslash and three octal digits stand for the character with that code |
| Options.ParseEscaped | lisafuse/libfuse-master/lib/fuse_opt.c:311-327 | Reading an escaped option gives the option, whatever follows |
| ShellQuote.ShellRoundTrip | lisafuse/libfuse-master/util/mount.fuse.c:71-98 | The shell splits the command built from any arguments into exactly these, and finds nothing unquoted in it that it would act on |
| ShellQuote.AddArg | lisafuse/libfuse-master/util/mount.fuse.c:71-98 | The size after the guard does not overflow, everything written fits into it, and the command is what it was, a blank if there was anything, and the quoted argument |
| ShellQuote.BodyInQuotes | lisafuse/libfuse-master/util/mount.fuse.c:86-94 | Within single quotes the encoded characters of an argument read as the argument |

## Left out

- Hash chains are sequences of elements in their order, not linked through `id_next`
  and `name_next`; the lists of locks, queue elements, slabs, workers and requests are
  sequences or sets as well. Aliasing between their links is not modelled.
- FusePaths.Fuse: its id and name tables are plain maps, which `NodeTables` shows the
  hash tables to be; the two are not composed into one object.
- FusePaths.Fuse.TryGetPath: returns the path as a string; that the buffer operations
  build this string in place is proved beside it, in `PathBuffer`.
- LockSteps: the waits for a condition variable and spurious wake-ups; a waiter leaves
  the queue in a step of its own at any time after it is done.
- FuseRefs.DeleteNode: takes the node out of both tables before it lets go of the parent;
  the code releases the parent while the node is still in the id table.
- FuseRefs.NewNode: the node joins the id table before it is linked, and a name that
  cannot be copied is noticed before that.
- FuseRefs.RenameNode: the directories are ones that the kernel knows, which it only ever
  names; an unknown one could be freed by the rename itself.
- FuseRefs.ForgetNode: the wait for the node to be unlocked, which is two steps of
  `LockSteps` (`WaitForget`, `EndForget`) and a condition in `WholeSteps.CanNode`.
- RefRuns: `remove_node`, `rename_node` and `exchange_node` appear as their unhash and
  hash steps.
- NodeRefs: `open_count`, hidden files and `hide_node`, which counts a node as hidden
  after a rename within its directory.
- NodeSlabs.Allocator.AllocNode: clearing the node's memory, of which addresses only are
  modelled.
- The `remember` option, the LRU list and `fuse_clean_cache`: they depend on the clock;
  `remember` is 0 throughout.
- PathTree: the root's own name "/", which is in no table and is never looked at.
- `check_dir_loop`: compiled on FreeBSD only, before the path locks are taken.
- BufCopy.FuseBufCopy: buffers that are file descriptors, the retry loops around `read`
  and `write`, and `splice`; what buffers hold afterwards that occur in both vectors.
- BufCopy.BufVec.Size: the special size SIZE_MAX, which memory buffers do not have.
- ByteLocks: the conversion between `struct flock` and ranges, and lock owners' process
  ids beyond being stored.
- ReadDir: READDIRPLUS records, filling the list from the file system, and the direct
  mode in which the file system supplies offsets.
- Options.ProcessRealOptionGroup: what `process_gopt` does with an option beyond accepting
  it or not; a string is shorter than 2^32 characters.
- ShellQuote.Words: double quotes, expansions and operators; a command that uses any of
  them unquoted has no result there.
- Interrupts: the interrupt callback and the locks of single requests.
- WorkerPool: cloning the device descriptor, signals, and the semaphore on which the main
  thread waits.
- Mounting, sessions, capability negotiation, logging, module loading, and the forwarding
  of operations to file systems: foreign calls or flat dispatch.
- The programs of this repository around the library (`lisafuse/*.c`, `client`,
  `datanode`).
