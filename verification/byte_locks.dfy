/** POSIX byte-range locks as one inode keeps them: a list of locks that
    `locks_insert` edits in place (merge, truncate, split, delete). */
module ByteLocks {
  import opened Wrappers

  const OFFSET_MAX: int := 0x7fff_ffff_ffff_ffff

  /** F_RDLCK, F_WRLCK and F_UNLCK. */
  datatype LockType = ReadLock | WriteLock | Unlock

  datatype Lock = Lock(typ: LockType, start: int, end: int, pid: int, owner: nat)

  /** A request as `flock_to_lock` produces it: offsets fit a signed 64-bit off_t. */
  predicate InRange(l: Lock) {
    0 <= l.start <= l.end <= OFFSET_MAX
  }

  predicate Covers(l: Lock, o: nat, t: LockType, b: int) {
    l.owner == o && l.typ == t && l.start <= b <= l.end
  }

  /** What a list of locks means: owner `o` holds a lock of type `t` on byte `b`. */
  ghost predicate Holds(locks: seq<Lock>, o: nat, t: LockType, b: int) {
    exists l :: l in locks && Covers(l, o, t, b)
  }

  /** `l` lies wholly below `m`, with a gap if the two could be one lock. */
  predicate Before(l: Lock, m: Lock) {
    l.end < m.start && (l.typ == m.typ ==> l.end + 1 < m.start)
  }

  /** Every owner's locks are sorted, disjoint and merged as far as possible. */
  ghost predicate Canonical(locks: seq<Lock>) {
    && (forall l :: l in locks ==> InRange(l) && l.typ != Unlock)
    && forall i, j :: 0 <= i < j < |locks| && locks[i].owner == locks[j].owner ==> Before(locks[i], locks[j])
  }

  /** The F_SETLK rule of fcntl(): the request decides its own owner's bytes in
      [start, end]; every other byte, and every other owner, keeps what it had. */
  ghost predicate Meaning(locks: seq<Lock>, req: Lock, o: nat, t: LockType, b: int) {
    if o == req.owner && req.start <= b <= req.end then t == req.typ && t != Unlock
    else Holds(locks, o, t, b)
  }

  ghost predicate SetsRange(before: seq<Lock>, req: Lock, after: seq<Lock>) {
    forall o, t, b :: Holds(after, o, t, b) <==> Meaning(before, req, o, t, b)
  }

  /** Two (list, request) pairs that leave the same work to do. */
  ghost predicate SameMeaning(s: seq<Lock>, r: Lock, s': seq<Lock>, r': Lock) {
    forall o, t, b :: Meaning(s, r, o, t, b) <==> Meaning(s', r', o, t, b)
  }

  lemma HoldsConcat(x: seq<Lock>, y: seq<Lock>)
    ensures forall o, t, b :: Holds(x + y, o, t, b) <==> Holds(x, o, t, b) || Holds(y, o, t, b)
  {
  }

  /** The meaning of a list in which `mid` replaces one lock. */
  lemma HoldsSplice(pre: seq<Lock>, mid: seq<Lock>, post: seq<Lock>)
    ensures forall o, t, b :: Holds(pre + mid + post, o, t, b) <==>
              Holds(pre, o, t, b) || Holds(mid, o, t, b) || Holds(post, o, t, b)
  {
  }

  /** Replacing one of the request owner's locks by pieces of it that agree
      outside the request's range leaves the same work to do. */
  lemma ReplaceKeepsMeaning(pre: seq<Lock>, l: Lock, mid: seq<Lock>, post: seq<Lock>, req: Lock)
    requires l.owner == req.owner
    requires forall o, t, b :: !(o == req.owner && req.start <= b <= req.end) ==>
               (Holds(mid, o, t, b) <==> Covers(l, o, t, b))
    ensures SameMeaning(pre + [l] + post, req, pre + mid + post, req)
  {
    HoldsSplice(pre, [l], post);
    HoldsSplice(pre, mid, post);
    assert forall o, t, b :: Holds([l], o, t, b) <==> Covers(l, o, t, b) by {
      assert l in [l];
    }
  }

  lemma OneLockPerByte(s: seq<Lock>, l: Lock, m: Lock, b: int)
    requires Canonical(s) && l in s && m in s && l.owner == m.owner
    requires l.start <= b <= l.end && m.start <= b <= m.end
    ensures l == m
  {
  }

  /** The request grown over a touching lock of its own type. */
  function Widened(req: Lock, l: Lock): Lock {
    req.(start := if l.start < req.start then l.start else req.start,
         end := if req.end < l.end then l.end else req.end)
  }

  /** Absorbing a touching lock of the request's own type, and deleting it. */
  lemma MergeKeepsMeaning(pre: seq<Lock>, l: Lock, post: seq<Lock>, req: Lock)
    requires Canonical(pre + [l] + post) && InRange(req)
    requires l.owner == req.owner && l.typ == req.typ
    requires req.start - 1 <= l.end && l.start - 1 <= req.end
    ensures SameMeaning(pre + [l] + post, req, pre + post, Widened(req, l))
  {
    var s := pre + [l] + post;
    assert l in s;
    forall o, t, b | l.owner == o && l.start <= b <= l.end && Holds(s, o, t, b) ensures t == l.typ {
      var m :| m in s && Covers(m, o, t, b);
      OneLockPerByte(s, l, m, b);
    }
    HoldsSplice(pre, [l], post);
    HoldsConcat(pre, post);
    assert forall o, t, b :: Holds([l], o, t, b) <==> Covers(l, o, t, b) by {
      assert l in [l];
    }
  }

  /** A lock may be replaced by smaller, mutually canonical pieces of itself. */
  lemma ReplaceKeepsCanonical(pre: seq<Lock>, l: Lock, mid: seq<Lock>, post: seq<Lock>)
    requires Canonical(pre + [l] + post) && Canonical(mid)
    requires forall m :: m in mid ==> m.owner == l.owner && m.typ == l.typ && l.start <= m.start && m.end <= l.end
    ensures Canonical(pre + mid + post)
  {
    var s, s' := pre + [l] + post, pre + mid + post;
    forall x | x in pre || x in post ensures x in s {
    }
    forall i, j | 0 <= i < j < |s'| && s'[i].owner == s'[j].owner ensures Before(s'[i], s'[j]) {
      var p, d := |pre|, |mid| - 1;
      assert s[p] == l;
      if i < p {
        assert s'[i] == s[i];
        if j < p { assert s'[j] == s[j]; }
        else if j < p + |mid| { assert s'[j] == mid[j - p]; assert s'[j] in mid; }
        else { assert s'[j] == post[j - p - |mid|] == s[j - d]; }
      } else if i < p + |mid| {
        assert s'[i] == mid[i - p]; assert s'[i] in mid;
        if j < p + |mid| { assert s'[j] == mid[j - p]; }
        else { assert s'[j] == post[j - p - |mid|] == s[j - d]; }
      } else {
        assert s'[i] == post[i - p - |mid|] == s[i - d];
        assert s'[j] == post[j - p - |mid|] == s[j - d];
      }
    }
  }

  /** Cutting the requested range out of a lock of another type: the piece left
      below, above, or on both sides. */
  lemma ReplaceMeansPiece(pre: seq<Lock>, l: Lock, mid: seq<Lock>, post: seq<Lock>, req: Lock)
    requires Canonical(pre + [l] + post) && InRange(req)
    requires l.owner == req.owner && l.typ != req.typ && l.start <= req.end && req.start <= l.end
    requires mid == (if l.start < req.start then [l.(end := req.start - 1)] else []) +
                    (if req.end < l.end then [l.(start := req.end + 1)] else [])
    ensures SameMeaning(pre + [l] + post, req, pre + mid + post, req)
    ensures Canonical(pre + mid + post)
  {
    assert l in pre + [l] + post;
    forall o, t, b | !(o == req.owner && req.start <= b <= req.end)
      ensures Holds(mid, o, t, b) <==> Covers(l, o, t, b)
    {
      if Covers(l, o, t, b) {
        var m := if b < req.start then l.(end := req.start - 1) else l.(start := req.end + 1);
        assert m in mid && Covers(m, o, t, b);
      }
    }
    ReplaceKeepsMeaning(pre, l, mid, post, req);
    ReplaceKeepsCanonical(pre, l, mid, post);
  }

  /** Inserting the (widened) request where all its owner's locks below it come
      before and all above it come after finishes the job. */
  lemma InsertFinishes(pre: seq<Lock>, post: seq<Lock>, req: Lock)
    requires Canonical(pre + post) && InRange(req)
    requires forall l :: l in pre && l.owner == req.owner ==> Before(l, req)
    requires forall l :: l in post && l.owner == req.owner ==> Before(req, l)
    ensures req.typ == Unlock ==> SetsRange(pre + post, req, pre + post)
    ensures req.typ != Unlock ==>
              Canonical(pre + [req] + post) && SetsRange(pre + post, req, pre + [req] + post)
  {
    HoldsConcat(pre, post);
    if req.typ != Unlock {
      HoldsSplice(pre, [req], post);
      assert forall o, t, b :: Holds([req], o, t, b) <==> Covers(req, o, t, b) by {
        assert req in [req];
      }
      var s, s' := pre + post, pre + [req] + post;
      forall x | x in pre || x in post ensures x in s {
      }
      forall i, j | 0 <= i < j < |s'| && s'[i].owner == s'[j].owner ensures Before(s'[i], s'[j]) {
        var p := |pre|;
        if i < p { assert s'[i] == s[i]; }
        if i > p { assert s'[i] == s[i - 1]; }
        if j < p { assert s'[j] == s[j]; }
        if j > p { assert s'[j] == s[j - 1]; }
      }
    }
  }

  /** Once `l` lies above the request, so do the later locks of that owner. */
  lemma RestComesAfter(s: seq<Lock>, i: nat, req: Lock)
    requires i < |s| && Canonical(s) && s[i].owner == req.owner && Before(req, s[i])
    ensures forall l :: l in s[i..] && l.owner == req.owner ==> Before(req, l)
  {
  }

  /** What the loop of `locks_insert` keeps: the list `s` is canonical, the
      first `i` locks are dealt with, and entering `cur` into `s` means what
      entering the original request `req` into the original list would. */
  ghost predicate Progress(before: seq<Lock>, req: Lock, s: seq<Lock>, i: nat, cur: Lock) {
    && i <= |s| && Canonical(s) && InRange(cur)
    && cur.owner == req.owner && cur.typ == req.typ
    && (forall l :: l in s[..i] && l.owner == cur.owner ==> Before(l, cur))
    && SameMeaning(before, req, s, cur)
  }

  lemma ProgressFacts(before: seq<Lock>, req: Lock, s: seq<Lock>, i: nat, cur: Lock)
    requires Progress(before, req, s, i, cur)
    ensures i <= |s| && Canonical(s) && InRange(cur) && cur.owner == req.owner && cur.typ == req.typ
    ensures i < |s| ==> InRange(s[i]) && s[i].typ != Unlock
  {
    assert i < |s| ==> s[i] in s;
  }

  lemma StartStep(before: seq<Lock>, req: Lock)
    requires Canonical(before) && InRange(req)
    ensures Progress(before, req, before, 0, req)
  {
  }

  lemma SkipStep(before: seq<Lock>, req: Lock, s: seq<Lock>, i: nat, cur: Lock)
    requires Progress(before, req, s, i, cur) && i < |s|
    requires s[i].owner == cur.owner ==> Before(s[i], cur)
    ensures Progress(before, req, s, i + 1, cur)
  {
    assert s[..i + 1] == s[..i] + [s[i]];
  }

  lemma MergeStep(before: seq<Lock>, req: Lock, s: seq<Lock>, i: nat, cur: Lock)
    requires Progress(before, req, s, i, cur) && i < |s|
    requires s[i].owner == cur.owner && s[i].typ == cur.typ
    requires cur.start - 1 <= s[i].end && s[i].start - 1 <= cur.end
    ensures Progress(before, req, s[..i] + s[i + 1..], i, Widened(cur, s[i]))
  {
    var pre, l, post := s[..i], s[i], s[i + 1..];
    var s', wide := pre + post, Widened(cur, l);
    assert s == pre + [l] + post && s' == pre + [] + post && s'[..i] == pre;
    assert l in s;
    MergeKeepsMeaning(pre, l, post, cur);
    ReplaceKeepsCanonical(pre, l, [], post);
    forall x | x in pre && x.owner == cur.owner ensures Before(x, wide) {
      var j :| 0 <= j < i && s[j] == x;
    }
  }

  /** Deleting, truncating or splitting a lock of another type; the piece left
      below the request, if any, is then dealt with. */
  lemma CutStep(before: seq<Lock>, req: Lock, s: seq<Lock>, i: nat, cur: Lock, mid: seq<Lock>, s': seq<Lock>)
    requires Progress(before, req, s, i, cur) && i < |s|
    requires s[i].owner == cur.owner && s[i].typ != cur.typ
    requires s[i].start <= cur.end && cur.start <= s[i].end
    requires mid == (if s[i].start < cur.start then [s[i].(end := cur.start - 1)] else []) +
                    (if cur.end < s[i].end then [s[i].(start := cur.end + 1)] else [])
    requires s' == s[..i] + mid + s[i + 1..]
    ensures Progress(before, req, s', i, cur)
    ensures s[i].start < cur.start ==> Progress(before, req, s', i + 1, cur)
  {
    var pre, l, post := s[..i], s[i], s[i + 1..];
    assert s == pre + [l] + post && s'[..i] == pre;
    ReplaceMeansPiece(pre, l, mid, post, cur);
    if s[i].start < cur.start {
      assert s'[i] == mid[0];
      SkipStep(before, req, s', i, cur);
    }
  }

  /** A lock of the requested type already spans the request. */
  lemma SpannedStep(before: seq<Lock>, req: Lock, s: seq<Lock>, i: nat, cur: Lock)
    requires Progress(before, req, s, i, cur) && i < |s|
    requires s[i].owner == cur.owner && s[i].typ == cur.typ
    requires s[i].start <= cur.start && cur.end <= s[i].end
    ensures SetsRange(before, req, s)
  {
    var l := s[i];
    assert l in s;
    forall o, t, b ensures Holds(s, o, t, b) <==> Meaning(s, cur, o, t, b) {
      if o == cur.owner && cur.start <= b <= cur.end {
        assert Covers(l, o, cur.typ, b);
        if Holds(s, o, t, b) {
          var m :| m in s && Covers(m, o, t, b);
          OneLockPerByte(s, l, m, b);
        }
      }
    }
  }

  /** The loop is over: everything from `i` on lies above the request. */
  lemma FinalStep(before: seq<Lock>, req: Lock, s: seq<Lock>, i: nat, cur: Lock)
    requires Progress(before, req, s, i, cur)
    requires i < |s| ==> s[i].owner == cur.owner && Before(cur, s[i])
    ensures cur.typ == Unlock ==> SetsRange(before, req, s)
    ensures cur.typ != Unlock ==>
              var s' := s[..i] + [cur] + s[i..]; Canonical(s') && SetsRange(before, req, s')
  {
    assert s == s[..i] + s[i..];
    if i < |s| {
      RestComesAfter(s, i, cur);
    }
    InsertFinishes(s[..i], s[i..], cur);
  }

  // ----- whose process a lock names

  /** Lock `l` is lock `b` or a piece of it, of the same process. */
  predicate PieceOf(l: Lock, b: Lock) {
    l.owner == b.owner && l.typ == b.typ && l.pid == b.pid && b.start <= l.start && l.end <= b.end
  }

  /** Lock `l` is of the owner and the type of the request and covers all of it. */
  predicate SpansRequest(l: Lock, req: Lock) {
    l.owner == req.owner && l.typ == req.typ && l.start <= req.start && req.end <= l.end
  }

  ghost predicate Pieces(before: seq<Lock>, s: seq<Lock>) {
    forall l :: l in s ==> exists b :: b in before && PieceOf(l, b)
  }

  ghost predicate NoneSpans(before: seq<Lock>, req: Lock) {
    forall k :: 0 <= k < |before| ==> !SpansRequest(before[k], req)
  }

  /** F_GETLK reports the process of a lock: the locks that were there and their pieces
      name the process they named, and the lock that the request has become names that of
      the request. If one lock covers the request already, nothing changes. */
  ghost predicate PidsFollow(before: seq<Lock>, req: Lock, after: seq<Lock>) {
    && (forall l :: l in after ==> (exists b :: b in before && PieceOf(l, b)) || (SpansRequest(l, req) && l.pid == req.pid))
    && (NoneSpans(before, req) || after == before)
  }

  /** The same in the loop: the locks in the list are old ones, and before a lock that
      covers the request nothing has changed. */
  ghost predicate PidsSoFar(before: seq<Lock>, req: Lock, s: seq<Lock>, i: nat, cur: Lock) {
    && Pieces(before, s) && SpansRequest(cur, req) && cur.pid == req.pid
    && forall k :: 0 <= k < |before| && SpansRequest(before[k], req) ==> s == before && cur == req && i <= k
  }

  lemma {:induction false} PidsStart(before: seq<Lock>, req: Lock)
    ensures PidsSoFar(before, req, before, 0, req)
  {
    forall l | l in before ensures exists b :: b in before && PieceOf(l, b) {
      assert PieceOf(l, l);
    }
  }

  lemma {:induction false} PidsSkip(before: seq<Lock>, req: Lock, s: seq<Lock>, i: nat, cur: Lock)
    requires PidsSoFar(before, req, s, i, cur) && i < |s| && InRange(cur)
    requires s[i].owner == cur.owner ==> Before(s[i], cur)
    ensures PidsSoFar(before, req, s, i + 1, cur)
  {
    hide Pieces;
  }

  /** A lock that touches the request, without covering it, shows that none does. */
  lemma {:induction false} NoneSpansIf(before: seq<Lock>, req: Lock, s: seq<Lock>, i: nat, cur: Lock)
    requires PidsSoFar(before, req, s, i, cur) && Canonical(before) && InRange(req)
    requires i < |s| ==>
               && s[i].owner == req.owner && !SpansRequest(s[i], cur)
               && (req.start <= s[i].end + (if s[i].typ == req.typ then 1 else 0) || Before(cur, s[i]))
    ensures NoneSpans(before, req)
  {
    hide Pieces;
    forall k | 0 <= k < |before| && SpansRequest(before[k], req) ensures i < |s| && i == k {
      assert before[k] in before && before[i] in before;
    }
  }

  lemma {:induction false} PidsMerge(before: seq<Lock>, req: Lock, s: seq<Lock>, i: nat, cur: Lock)
    requires PidsSoFar(before, req, s, i, cur) && Canonical(before) && InRange(req) && InRange(cur) && i < |s|
    requires s[i].owner == cur.owner && s[i].typ == cur.typ && cur.start - 1 <= s[i].end
    requires !(s[i].start <= cur.start && cur.end <= s[i].end)
    ensures PidsSoFar(before, req, s[..i] + s[i + 1..], i, Widened(cur, s[i]))
  {
    NoneSpansAfter(before, req, s, i, cur);
    PiecesReplaced(before, s, i, []);
    assert s[..i] + [] + s[i + 1..] == s[..i] + s[i + 1..];
    hide Pieces;
  }

  lemma {:induction false} NoneSpansAfter(before: seq<Lock>, req: Lock, s: seq<Lock>, i: nat, cur: Lock)
    requires PidsSoFar(before, req, s, i, cur) && Canonical(before) && InRange(req) && i < |s|
    requires s[i].owner == cur.owner && !SpansRequest(s[i], cur)
    requires cur.start <= s[i].end + if s[i].typ == cur.typ then 1 else 0
    ensures NoneSpans(before, req)
  {
    hide Pieces;
    if k :| 0 <= k < |before| && SpansRequest(before[k], req) {
      NoneSpansIf(before, req, s, i, cur);
    }
  }

  lemma {:induction false} PiecesReplaced(before: seq<Lock>, s: seq<Lock>, i: nat, mid: seq<Lock>)
    requires Pieces(before, s) && i < |s| && forall m :: m in mid ==> PieceOf(m, s[i])
    ensures Pieces(before, s[..i] + mid + s[i + 1..])
  {
    var s' := s[..i] + mid + s[i + 1..];
    forall l | l in s' ensures exists b :: b in before && PieceOf(l, b) {
      var m := if l in mid then s[i] else l;
      assert m in s;
      var b :| b in before && PieceOf(m, b);
      assert PieceOf(l, b);
    }
  }

  lemma {:induction false} PidsCut(
      before: seq<Lock>, req: Lock, s: seq<Lock>, i: nat, cur: Lock, mid: seq<Lock>, s': seq<Lock>, next: nat)
    requires PidsSoFar(before, req, s, i, cur) && Canonical(before) && InRange(req) && i < |s|
    requires s[i].owner == cur.owner && s[i].typ != cur.typ && s[i].start <= cur.end && cur.start <= s[i].end
    requires s' == s[..i] + mid + s[i + 1..] && forall m :: m in mid ==> PieceOf(m, s[i])
    ensures PidsSoFar(before, req, s', next, cur)
  {
    NoneSpansAfter(before, req, s, i, cur);
    PiecesReplaced(before, s, i, mid);
    hide Pieces;
  }

  lemma {:induction false} PidsSpanned(before: seq<Lock>, req: Lock, s: seq<Lock>, i: nat, cur: Lock)
    requires PidsSoFar(before, req, s, i, cur)
    ensures PidsFollow(before, req, s)
  {
  }

  lemma {:induction false} PidsEnd(before: seq<Lock>, req: Lock, s: seq<Lock>, i: nat, cur: Lock)
    requires PidsSoFar(before, req, s, i, cur) && Canonical(before) && InRange(req) && i <= |s|
    requires i < |s| ==> s[i].owner == cur.owner && Before(cur, s[i])
    ensures PidsFollow(before, req, s[..i] + [cur] + s[i..]) && PidsFollow(before, req, s)
  {
    NoneSpansIf(before, req, s, i, cur);
    var s' := s[..i] + [cur] + s[i..];
    forall l | l in s' ensures l == cur || exists b :: b in before && PieceOf(l, b) {
      assert l != cur ==> l in s;
    }
  }

  /** The request and a lock of another owner exclude each other: they share a byte, and
      one of them writes. */
  ghost predicate ExcludesRequest(l: Lock, req: Lock) {
    && l.owner != req.owner && (l.typ == WriteLock || req.typ == WriteLock)
    && exists b :: Covers(l, l.owner, l.typ, b) && req.start <= b <= req.end
  }

  class Inode {
    var locks: seq<Lock>

    /** The first lock of another owner that the request conflicts with. */
    method LocksConflict(lock: Lock) returns (r: Option<Lock>)
      requires InRange(lock) && Canonical(locks)
      ensures r.Some? ==>
                exists k :: 0 <= k < |locks| && r.value == locks[k] && ExcludesRequest(locks[k], lock)
                  && forall j :: 0 <= j < k ==> !ExcludesRequest(locks[j], lock)
      ensures r == None ==> forall l :: l in locks ==> !ExcludesRequest(l, lock)
      ensures r == None <==>
              forall o, t, b :: o != lock.owner && lock.start <= b <= lock.end && Holds(locks, o, t, b) ==>
                t != WriteLock && lock.typ != WriteLock
    {
      var i := 0;
      while i < |locks|
        invariant i <= |locks| && forall j :: 0 <= j < i ==> !ExcludesRequest(locks[j], lock)
        invariant forall l, o, t, b ::
                    l in locks[..i] && o != lock.owner && lock.start <= b <= lock.end && Covers(l, o, t, b) ==>
                      t != WriteLock && lock.typ != WriteLock
      {
        var l := locks[i];
        if l.owner != lock.owner && lock.start <= l.end && l.start <= lock.end &&
           (l.typ == WriteLock || lock.typ == WriteLock) {
          var b := if lock.start <= l.start then l.start else lock.start;
          assert l in locks && Covers(l, l.owner, l.typ, b);
          assert Holds(locks, l.owner, l.typ, b) && ExcludesRequest(locks[i], lock);
          return Some(l);
        }
        i := i + 1;
      }
      assert locks[..i] == locks;
      r := None;
    }

    /** Takes the requested range out of a lock of another type that overlaps it, and
        says where to go on, whether nothing further can overlap, and whether a second
        node was needed. */
    method Cut(i: nat, cur: Lock, ghost before: seq<Lock>, ghost req: Lock) returns (next: nat, stop: bool, split: bool)
      requires Progress(before, req, locks, i, cur) && i < |locks|
      requires locks[i].owner == cur.owner && locks[i].typ != cur.typ
      requires locks[i].start <= cur.end && cur.start <= locks[i].end
      requires Canonical(before) && InRange(req) && PidsSoFar(before, req, locks, i, cur)
      modifies this
      ensures next <= |locks| && Progress(before, req, locks, next, cur) && PidsSoFar(before, req, locks, next, cur)
      ensures split <==> old(locks)[i].start < cur.start && cur.end < old(locks)[i].end
      ensures stop || split ==> next < |locks| && locks[next].owner == cur.owner && Before(cur, locks[next])
      ensures if split then |locks| - next == |old(locks)| - i else !stop ==> |locks| - next < |old(locks)| - i
    {
      ProgressFacts(before, req, locks, i, cur);
      hide Progress, Canonical, PidsSoFar;
      var l := locks[i];
      next, stop, split := i, false, false;
      var mid;
      if cur.start <= l.start && l.end <= cur.end {
        mid := [];
      } else if l.end <= cur.end {
        mid := [l.(end := cur.start - 1)];
        next := i + 1;
      } else if cur.start <= l.start {
        mid := [l.(start := cur.end + 1)];
        stop := true;
      } else {
        mid := [l.(end := cur.start - 1), l.(start := cur.end + 1)];
        split := true;
        next := i + 1;
      }
      ghost var s := locks;
      locks := locks[..i] + mid + locks[i + 1..];
      CutStep(before, req, s, i, cur, mid, locks);
      PidsCut(before, req, s, i, cur, mid, locks, next);
      assert mid != [] ==> locks[i..i + |mid|] == mid;
    }

    /** Applies a granted request. `memory` says whether the two allocations made
        up front succeed; `nodes` counts the list nodes the edit really uses. */
    method LocksInsert(lock: Lock, memory: bool) returns (ok: bool, nodes: nat)
      requires InRange(lock) && Canonical(locks)
      modifies this
      ensures ok <==> memory || (lock.typ == Unlock && lock.start == 0 && lock.end == OFFSET_MAX)
      ensures !ok ==> locks == old(locks)
      ensures ok ==> Canonical(locks) && SetsRange(old(locks), lock, locks) && PidsFollow(old(locks), lock, locks)
      ensures nodes <= if lock.typ == Unlock && lock.start == 0 && lock.end == OFFSET_MAX then 0 else 2
    {
      hide Progress, Canonical, SetsRange, PidsSoFar, PidsFollow;
      var newl1, newl2 := false, false;
      nodes := 0;
      if lock.typ != Unlock || lock.start != 0 || lock.end != OFFSET_MAX {
        if !memory {
          return false, 0;
        }
        newl1, newl2 := true, true;
      }
      ok := true;
      var cur, i := lock, 0;
      StartStep(locks, lock);
      PidsStart(locks, lock);
      while i < |locks|
        invariant 0 <= i <= |locks| && Progress(old(locks), lock, locks, i, cur)
        invariant PidsSoFar(old(locks), lock, locks, i, cur)
        invariant newl1 == (lock.typ != Unlock || lock.start != 0 || lock.end != OFFSET_MAX)
        invariant !newl1 ==> cur == lock && !newl2
        invariant newl1 && !newl2 ==> i < |locks| && locks[i].owner == cur.owner && Before(cur, locks[i])
        invariant nodes == if newl1 && !newl2 then 1 else 0
        decreases |locks| - i + if newl2 then 1 else 0
      {
        var l := locks[i];
        ProgressFacts(old(locks), lock, locks, i, cur);
        if l.owner != cur.owner {
          SkipStep(old(locks), lock, locks, i, cur);
          PidsSkip(old(locks), lock, locks, i, cur);
          i := i + 1;
        } else if cur.typ == l.typ {
          if l.end < cur.start - 1 {
            SkipStep(old(locks), lock, locks, i, cur);
            PidsSkip(old(locks), lock, locks, i, cur);
            i := i + 1;
          } else if cur.end < l.start - 1 {
            break;
          } else if l.start <= cur.start && cur.end <= l.end {
            SpannedStep(old(locks), lock, locks, i, cur);
            PidsSpanned(old(locks), lock, locks, i, cur);
            return;
          } else {
            MergeStep(old(locks), lock, locks, i, cur);
            PidsMerge(old(locks), lock, locks, i, cur);
            if l.start < cur.start {
              cur := cur.(start := l.start);
            }
            if cur.end < l.end {
              cur := cur.(end := l.end);
            }
            locks := locks[..i] + locks[i + 1..];
          }
        } else {
          if l.end < cur.start {
            SkipStep(old(locks), lock, locks, i, cur);
            PidsSkip(old(locks), lock, locks, i, cur);
            i := i + 1;
          } else if cur.end < l.start {
            break;
          } else {
            assert l.start < cur.start && cur.end < l.end ==> newl2;
            var stop, split;
            i, stop, split := Cut(i, cur, old(locks), lock);
            if split {
              newl2 := false;
              nodes := nodes + 1;
            }
            if stop {
              break;
            }
          }
        }
      }
      ProgressFacts(old(locks), lock, locks, i, cur);
      FinalStep(old(locks), lock, locks, i, cur);
      PidsEnd(old(locks), lock, locks, i, cur);
      if cur.typ != Unlock {
        assert newl1;
        locks := locks[..i] + [cur] + locks[i..];
        nodes := nodes + 1;
      }
    }
  }

  // ----- what granted locks mean across owners

  /** No byte is held by two owners one of whom writes. */
  ghost predicate Compatible(locks: seq<Lock>) {
    forall o, t, o', t', b :: o != o' && Holds(locks, o, t, b) && Holds(locks, o', t', b) ==>
      t != WriteLock && t' != WriteLock
  }

  /** What `locks_conflict` reports when it finds nothing. */
  ghost predicate ConflictFree(locks: seq<Lock>, req: Lock) {
    forall o, t, b :: o != req.owner && req.start <= b <= req.end && Holds(locks, o, t, b) ==>
      t != WriteLock && req.typ != WriteLock
  }

  /** Entering a request that conflicted with nothing keeps all owners compatible. */
  lemma {:induction false} GrantKeepsCompatible(before: seq<Lock>, req: Lock, after: seq<Lock>)
    requires Compatible(before) && ConflictFree(before, req) && SetsRange(before, req, after)
    ensures Compatible(after)
  {
  }

  /** An unlock needs no conflict check. */
  lemma {:induction false} UnlockKeepsCompatible(before: seq<Lock>, req: Lock, after: seq<Lock>)
    requires Compatible(before) && req.typ == Unlock && SetsRange(before, req, after)
    ensures Compatible(after)
  {
  }

  // ----- the list an owner has is determined by what it means

  /** One owner's locks, in list order. */
  function Of(s: seq<Lock>, o: nat): seq<Lock> {
    if s == [] then [] else (if s[0].owner == o then [s[0]] else []) + Of(s[1..], o)
  }

  /** The same list without the process ids, which carry no meaning. */
  function Spans(s: seq<Lock>): seq<(LockType, int, int)> {
    if s == [] then [] else [(s[0].typ, s[0].start, s[0].end)] + Spans(s[1..])
  }

  lemma {:induction false} CanonicalTail(s: seq<Lock>)
    requires Canonical(s) && s != []
    ensures Canonical(s[1..]) && InRange(s[0]) && s[0].typ != Unlock
    ensures forall l :: l in s[1..] && l.owner == s[0].owner ==> Before(s[0], l)
  {
  }

  lemma {:induction false} CanonicalCons(l: Lock, t: seq<Lock>)
    requires Canonical(t) && InRange(l) && l.typ != Unlock
    requires forall m :: m in t && m.owner == l.owner ==> Before(l, m)
    ensures Canonical([l] + t)
  {
  }

  lemma {:induction false} OfIsCanonical(s: seq<Lock>, o: nat)
    requires Canonical(s)
    ensures Canonical(Of(s, o))
    ensures forall l :: l in Of(s, o) <==> l in s && l.owner == o
  {
    if s != [] {
      hide Canonical, Before, InRange;
      assert s == [s[0]] + s[1..];
      CanonicalTail(s);
      OfIsCanonical(s[1..], o);
      if s[0].owner == o {
        CanonicalCons(s[0], Of(s[1..], o));
      }
    }
  }

  /** Maximal merging: the byte above the first lock is not of its type. */
  lemma {:induction false} NothingJustAbove(b: seq<Lock>, o: nat)
    requires Canonical(b) && b != [] && forall l :: l in b ==> l.owner == o
    ensures !Holds(b, o, b[0].typ, b[0].end + 1)
  {
  }

  /** Two canonical lists of one owner that hold the same bytes agree on the
      first lock. */
  lemma {:induction false} SameFirst(a: seq<Lock>, b: seq<Lock>, o: nat)
    requires Canonical(a) && Canonical(b)
    requires forall l :: l in a || l in b ==> l.owner == o
    requires forall t, x :: Holds(a, o, t, x) ==> Holds(b, o, t, x)
    requires a != []
    ensures b != [] && b[0].start <= a[0].start
    ensures b[0].start == a[0].start ==> b[0].typ == a[0].typ && a[0].end <= b[0].end
  {
    var p := a[0];
    assert p in a;
    assert Covers(p, o, p.typ, p.start) && Holds(a, o, p.typ, p.start);
    var m :| m in b && Covers(m, o, p.typ, p.start);
    var j :| 0 <= j < |b| && b[j] == m;
    assert b[0] in b;
    if b[0].start == p.start {
      OneLockPerByte(b, b[0], m, p.start);
      NothingJustAbove(b, o);
      assert b[0].end < p.end ==> Covers(p, o, p.typ, b[0].end + 1);
    }
  }

  lemma {:induction false} HoldsTail(a: seq<Lock>, o: nat)
    requires Canonical(a) && a != [] && forall l :: l in a ==> l.owner == o
    ensures Canonical(a[1..]) && forall l :: l in a[1..] ==> l.owner == o
    ensures forall t, x :: Holds(a[1..], o, t, x) <==> Holds(a, o, t, x) && a[0].end < x
  {
  }

  lemma {:induction false} SameSpans(a: seq<Lock>, b: seq<Lock>, o: nat)
    requires Canonical(a) && Canonical(b)
    requires forall l :: l in a || l in b ==> l.owner == o
    requires forall t, x :: Holds(a, o, t, x) <==> Holds(b, o, t, x)
    ensures Spans(a) == Spans(b)
  {
    if a != [] {
      SameFirst(a, b, o);
    }
    if b != [] {
      SameFirst(b, a, o);
      HoldsTail(a, o);
      HoldsTail(b, o);
      SameSpans(a[1..], b[1..], o);
    }
  }

  /** Canonical lists are a normal form: if two lists give an owner the same
      locks on the same bytes, they store the same locks for it. So the list that
      `locks_insert` leaves is the only one it could leave. */
  lemma {:induction false} CanonicalIsUnique(s: seq<Lock>, s': seq<Lock>, o: nat)
    requires Canonical(s) && Canonical(s')
    requires forall t, x :: Holds(s, o, t, x) <==> Holds(s', o, t, x)
    ensures Spans(Of(s, o)) == Spans(Of(s', o))
  {
    OfIsCanonical(s, o);
    OfIsCanonical(s', o);
    forall t, x ensures Holds(Of(s, o), o, t, x) <==> Holds(Of(s', o), o, t, x) {
      HoldsOf(s, o, t, x);
      HoldsOf(s', o, t, x);
    }
    SameSpans(Of(s, o), Of(s', o), o);
  }

  lemma {:induction false} HoldsOf(s: seq<Lock>, o: nat, t: LockType, x: int)
    requires Canonical(s)
    ensures Holds(Of(s, o), o, t, x) <==> Holds(s, o, t, x)
  {
    OfIsCanonical(s, o);
    if Holds(s, o, t, x) {
      var l :| l in s && Covers(l, o, t, x);
      assert l in Of(s, o);
    }
  }

  /** Another owner's locks are stored exactly as before. */
  lemma {:induction false} OthersUntouched(before: seq<Lock>, req: Lock, after: seq<Lock>, o: nat)
    requires Canonical(before) && Canonical(after) && SetsRange(before, req, after) && o != req.owner
    ensures Spans(Of(after, o)) == Spans(Of(before, o))
  {
    forall t, x ensures Holds(before, o, t, x) <==> Holds(after, o, t, x) {
      assert Meaning(before, req, o, t, x) <==> Holds(before, o, t, x);
    }
    CanonicalIsUnique(after, before, o);
  }

  // ----- runs

  /** A request that the file system has granted; `inserted` is what `locks_insert`
      returned for it, which its caller ignores. */
  datatype Granted = Granted(lock: Lock, inserted: bool)

  /** Requests granted one after the other on an inode without locks, and the lists
      after each: an unlock always, a lock when nothing conflicts with it. An insertion
      that lacks memory leaves the list. */
  ghost predicate Run(reqs: seq<Granted>, lists: seq<seq<Lock>>) {
    && |lists| == |reqs| + 1 && lists[0] == []
    && forall k :: 0 <= k < |reqs| ==>
         if reqs[k].inserted then
           && SetsRange(lists[k], reqs[k].lock, lists[k + 1])
           && (reqs[k].lock.typ == Unlock || ConflictFree(lists[k], reqs[k].lock))
         else lists[k + 1] == lists[k]
  }

  /** What owner `o` last asked for on byte `b` in a request that was inserted. */
  function LastRequest(reqs: seq<Granted>, o: nat, b: int): LockType
    decreases |reqs|
  {
    if reqs == [] then Unlock
    else
      var r := reqs[|reqs| - 1];
      if r.inserted && r.lock.owner == o && r.lock.start <= b <= r.lock.end then r.lock.typ
      else LastRequest(reqs[..|reqs| - 1], o, b)
  }

  /** At the end of every run an owner holds on each byte what it last asked for
      there, and nobody writes where anybody else has a lock. */
  lemma {:induction false} LastRequestCounts(reqs: seq<Granted>, lists: seq<seq<Lock>>)
    requires Run(reqs, lists)
    ensures var end := lists[|reqs|];
            && Compatible(end)
            && forall o, t, b :: Holds(end, o, t, b) <==> t != Unlock && t == LastRequest(reqs, o, b)
    decreases |reqs|
  {
    if reqs != [] {
      var n := |reqs| - 1;
      var r := reqs[n];
      LastRequestCounts(reqs[..n], lists[..n + 1]);
      assert lists[..n + 1][n] == lists[n];
      var after := lists[n + 1];
      if r.inserted {
        forall o, t, b ensures Holds(after, o, t, b) <==> t != Unlock && t == LastRequest(reqs, o, b) {
          assert Holds(after, o, t, b) <==> Meaning(lists[n], r.lock, o, t, b);
        }
        if r.lock.typ == Unlock {
          UnlockKeepsCompatible(lists[n], r.lock, lists[n + 1]);
        } else {
          GrantKeepsCompatible(lists[n], r.lock, lists[n + 1]);
        }
      }
    }
  }
}
