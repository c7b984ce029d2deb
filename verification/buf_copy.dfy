/** Copying between two vectors of memory buffers, each with a cursor, whatever the
    buffer boundaries are. */
module BufCopy {
  import opened Wrappers

  /** `idx` and `off` of a `struct fuse_bufvec`. */
  datatype Cursor = Cursor(idx: nat, off: nat)

  // ----- cursors over buffer sizes

  predicate InBounds(sizes: seq<nat>, c: Cursor) {
    c.idx <= |sizes| && (c.idx < |sizes| ==> c.off <= sizes[c.idx])
  }

  function Sum(sizes: seq<nat>): nat {
    if sizes == [] then 0 else sizes[0] + Sum(sizes[1..])
  }

  /** Bytes before the cursor; a cursor past the last buffer is at the end. */
  function Position(sizes: seq<nat>, c: Cursor): nat
    requires InBounds(sizes, c)
  {
    Sum(sizes[..c.idx]) + if c.idx < |sizes| then c.off else 0
  }

  /** Bytes from the cursor on. */
  function Left(sizes: seq<nat>, c: Cursor): int
    requires InBounds(sizes, c)
  {
    Sum(sizes) - Position(sizes, c)
  }

  /** The cursor after `fuse_bufvec_advance`; there is a current buffer if it is not
      past the last one. */
  function Advanced(sizes: seq<nat>, c: Cursor, len: nat): (r: Cursor)
    requires InBounds(sizes, c) && c.idx < |sizes| && c.off + len <= sizes[c.idx]
    ensures InBounds(sizes, r) && c.idx <= r.idx && (c.off + len == sizes[c.idx] ==> c.idx < r.idx)
  {
    var off := c.off + len;
    if off < sizes[c.idx] then Cursor(c.idx, off)
    else Cursor(c.idx + 1, if c.idx + 1 == |sizes| then off else 0)
  }

  function Min(a: int, b: int): int {
    if a < b then a else b
  }

  function Plus(n: nat, r: (nat, Cursor, Cursor)): (nat, Cursor, Cursor) {
    (n + r.0, r.1, r.2)
  }

  /** How much one turn of the loop copies. */
  function Chunk(src: seq<nat>, dst: seq<nat>, s: Cursor, d: Cursor): (len: nat)
    requires InBounds(src, s) && InBounds(dst, d) && s.idx < |src| && d.idx < |dst|
    ensures s.off + len <= src[s.idx] && d.off + len <= dst[d.idx]
    ensures s.off + len == src[s.idx] || d.off + len == dst[d.idx]
  {
    Min(src[s.idx] - s.off, dst[d.idx] - d.off)
  }

  /** The loop of `fuse_buf_copy`: how much is copied, and the two cursors after it.
      When the source runs out, the destination does not move any more. */
  function Copy(src: seq<nat>, dst: seq<nat>, s: Cursor, d: Cursor): (r: (nat, Cursor, Cursor))
    requires InBounds(src, s) && InBounds(dst, d)
    ensures InBounds(src, r.1) && InBounds(dst, r.2)
    decreases |src| - s.idx + |dst| - d.idx
  {
    if s.idx == |src| || d.idx == |dst| then (0, s, d)
    else
      var len := Chunk(src, dst, s, d);
      var s' := Advanced(src, s, len);
      var d' := if s'.idx == |src| then d else Advanced(dst, d, len);
      Plus(len, Copy(src, dst, s', d'))
  }

  /** After copying `n` the loop has the cursors at `s` and `d`. */
  ghost predicate Reached(src: seq<nat>, dst: seq<nat>, s0: Cursor, d0: Cursor, n: nat, s: Cursor, d: Cursor) {
    && InBounds(src, s0) && InBounds(dst, d0) && InBounds(src, s) && InBounds(dst, d)
    && Copy(src, dst, s0, d0) == Plus(n, Copy(src, dst, s, d))
  }

  lemma ReachedTurn(src: seq<nat>, dst: seq<nat>, s0: Cursor, d0: Cursor, n: nat, s: Cursor, d: Cursor, len: nat)
    requires Reached(src, dst, s0, d0, n, s, d) && s.idx < |src| && d.idx < |dst| && len == Chunk(src, dst, s, d)
    ensures var s' := Advanced(src, s, len);
            Reached(src, dst, s0, d0, n + len, s', if s'.idx == |src| then d else Advanced(dst, d, len))
  {
    hide Advanced, Chunk, InBounds;
  }

  lemma ReachedStart(src: seq<nat>, dst: seq<nat>, s: Cursor, d: Cursor)
    requires InBounds(src, s) && InBounds(dst, d)
    ensures Reached(src, dst, s, d, 0, s, d)
  {
  }

  lemma ReachedEnd(src: seq<nat>, dst: seq<nat>, s0: Cursor, d0: Cursor, n: nat, s: Cursor, d: Cursor)
    requires Reached(src, dst, s0, d0, n, s, d) && (s.idx == |src| || d.idx == |dst|)
    ensures Copy(src, dst, s0, d0) == (n, s, d)
  {
  }

  lemma {:induction false} SumSplit(sizes: seq<nat>, k: nat)
    requires k <= |sizes|
    ensures Sum(sizes) == Sum(sizes[..k]) + Sum(sizes[k..])
    ensures k < |sizes| ==> Sum(sizes[..k + 1]) == Sum(sizes[..k]) + sizes[k]
    ensures k == |sizes| ==> sizes[..k] == sizes
  {
    if k > 0 {
      SumSplit(sizes[1..], k - 1);
      assert sizes[..k][1..] == sizes[1..][..k - 1] && sizes[k..] == sizes[1..][k - 1..];
      assert k < |sizes| ==> sizes[..k + 1][1..] == sizes[1..][..k];
    } else if sizes != [] {
      assert sizes[..1][1..] == [];
    }
  }

  lemma {:induction false} AdvanceMoves(sizes: seq<nat>, c: Cursor, len: nat)
    requires InBounds(sizes, c) && c.idx < |sizes| && c.off + len <= sizes[c.idx]
    ensures var c' := Advanced(sizes, c, len);
            Position(sizes, c') == Position(sizes, c) + len && (c'.idx == |sizes| ==> Left(sizes, c') == 0)
  {
    SumSplit(sizes, c.idx);
    SumSplit(sizes, c.idx + 1);
  }

  lemma {:induction false} LeftIsNat(sizes: seq<nat>, c: Cursor)
    requires InBounds(sizes, c)
    ensures Left(sizes, c) >= if c.idx < |sizes| then sizes[c.idx] - c.off else 0
    ensures c.idx == |sizes| ==> Left(sizes, c) == 0
  {
    SumSplit(sizes, c.idx);
    if c.idx < |sizes| {
      SumSplit(sizes, c.idx + 1);
      assert Sum(sizes[c.idx + 1..]) >= 0;
    }
  }

  /** What is copied is the lesser of what is left on the two sides, and the source
      cursor moves by exactly that; the destination cursor by no more. */
  lemma {:induction false} CopiesMinimum(src: seq<nat>, dst: seq<nat>, s: Cursor, d: Cursor)
    requires InBounds(src, s) && InBounds(dst, d)
    ensures var (n, s', d') := Copy(src, dst, s, d);
            && n == Min(Left(src, s), Left(dst, d))
            && Position(src, s') == Position(src, s) + n
            && Position(dst, d) <= Position(dst, d') <= Position(dst, d) + n
    decreases |src| - s.idx + |dst| - d.idx
  {
    hide Position, Sum;
    LeftIsNat(src, s);
    LeftIsNat(dst, d);
    if s.idx < |src| && d.idx < |dst| {
      var len := Chunk(src, dst, s, d);
      AdvanceMoves(src, s, len);
      AdvanceMoves(dst, d, len);
      var s' := Advanced(src, s, len);
      var d' := if s'.idx == |src| then d else Advanced(dst, d, len);
      CopiesMinimum(src, dst, s', d');
    }
  }

  /** The last buffer still has bytes that the cursor has not passed. */
  predicate LastHasBytes(sizes: seq<nat>, c: Cursor) {
    c.idx < |sizes| && sizes[|sizes| - 1] > if c.idx + 1 == |sizes| then c.off else 0
  }

  /** The destination cursor lags behind what was copied in exactly one case: the
      source has no more left than the destination, and its last buffer is not
      empty. The step on which the source runs out copies, but does not count. */
  lemma {:induction false} DestinationLagsExactly(src: seq<nat>, dst: seq<nat>, s: Cursor, d: Cursor)
    requires InBounds(src, s) && InBounds(dst, d)
    ensures var (n, s', d') := Copy(src, dst, s, d);
            Position(dst, d') < Position(dst, d) + n <==> Left(src, s) <= Left(dst, d) && LastHasBytes(src, s)
    decreases |src| - s.idx + |dst| - d.idx
  {
    hide Position, Sum;
    LeftIsNat(src, s);
    LeftIsNat(dst, d);
    LastCounts(src, s);
    if s.idx < |src| && d.idx < |dst| {
      var len := Chunk(src, dst, s, d);
      AdvanceMoves(src, s, len);
      AdvanceMoves(dst, d, len);
      var s' := Advanced(src, s, len);
      var d' := if s'.idx == |src| then d else Advanced(dst, d, len);
      CopiesMinimum(src, dst, s', d');
      DestinationLagsExactly(src, dst, s', d');
    }
  }

  lemma {:induction false} LastCounts(sizes: seq<nat>, c: Cursor)
    requires InBounds(sizes, c)
    ensures LastHasBytes(sizes, c) ==> Left(sizes, c) > 0
  {
    if LastHasBytes(sizes, c) {
      var k := |sizes| - 1;
      SumSplit(sizes, k);
      assert sizes[k..] == [sizes[k]] && Sum(sizes[k..]) == sizes[k] + Sum([]);
      SumSplit(sizes[..k], c.idx) by {
        assert c.idx <= k;
      }
      assert sizes[..k][..c.idx] == sizes[..c.idx];
      if c.idx < k {
        SumSplit(sizes[..k], c.idx + 1);
      }
    }
  }

  /** For example, copying 4 bytes into 8 leaves the destination cursor at the start. */
  lemma {:induction false} LagExample()
    ensures Copy([4], [8], Cursor(0, 0), Cursor(0, 0)) == (4, Cursor(1, 4), Cursor(0, 0))
  {
  }

  // ----- bytes

  function Flat(bs: seq<seq<byte>>): seq<byte> {
    if bs == [] then [] else bs[0] + Flat(bs[1..])
  }

  function SizesOf(bs: seq<seq<byte>>): seq<nat> {
    seq(|bs|, k requires 0 <= k < |bs| => |bs[k]|)
  }

  /** `x` written over `s` from position `p` on. */
  function Overlay(s: seq<byte>, p: nat, x: seq<byte>): (r: seq<byte>)
    requires p + |x| <= |s|
    ensures |r| == |s|
  {
    s[..p] + x + s[p + |x|..]
  }

  /** `after` is `before` with the `n` bytes of `from` at `q` written over position `p`. */
  ghost predicate Copied(before: seq<byte>, after: seq<byte>, from: seq<byte>, p: nat, q: nat, n: nat) {
    p + n <= |before| && q + n <= |from| && after == Overlay(before, p, from[q..q + n])
  }

  lemma CopiedNothing(s: seq<byte>, from: seq<byte>, p: nat, q: nat)
    requires p <= |s| && q <= |from|
    ensures Copied(s, s, from, p, q, 0)
  {
  }

  lemma CopiedTwice(a: seq<byte>, b: seq<byte>, c: seq<byte>, from: seq<byte>, p: nat, q: nat, n: nat, len: nat)
    requires Copied(a, b, from, p, q, n) && Copied(b, c, from, p + n, q + n, len)
    ensures Copied(a, c, from, p, q, n + len)
  {
  }

  lemma FlatTail(bs: seq<seq<byte>>, i: nat)
    requires 0 < i < |bs|
    ensures Flat(bs) == bs[0] + Flat(bs[1..]) && bs[1..][i - 1] == bs[i]
    ensures Sum(SizesOf(bs)[..i]) == |bs[0]| + Sum(SizesOf(bs[1..])[..i - 1])
  {
    assert SizesOf(bs)[..i][1..] == SizesOf(bs[1..])[..i - 1];
  }

  /** A piece of one buffer is a piece of the whole. */
  lemma {:induction false} PieceOfWhole(bs: seq<seq<byte>>, i: nat, off: nat, n: nat)
    requires i < |bs| && off + n <= |bs[i]|
    ensures var p := Sum(SizesOf(bs)[..i]) + off; p + n <= |Flat(bs)| && Flat(bs)[p..p + n] == bs[i][off..off + n]
  {
    if i > 0 {
      hide Flat, Sum;
      PieceOfWhole(bs[1..], i - 1, off, n);
      FlatTail(bs, i);
    }
  }

  /** Writing it is writing into the whole. */
  lemma {:induction false} WriteIntoWhole(bs: seq<seq<byte>>, i: nat, off: nat, x: seq<byte>, bs': seq<seq<byte>>)
    requires i < |bs| && off + |x| <= |bs[i]| && bs' == bs[i := Overlay(bs[i], off, x)]
    ensures var p := Sum(SizesOf(bs)[..i]) + off; p + |x| <= |Flat(bs)| && Flat(bs') == Overlay(Flat(bs), p, x)
  {
    PieceOfWhole(bs, i, off, |x|);
    if i > 0 {
      hide Flat, Sum, Overlay;
      WriteIntoWhole(bs[1..], i - 1, off, x, bs'[1..]);
      FlatTail(bs, i);
      FlatTail(bs', i);
      OverlayBehind(bs[0], Flat(bs[1..]), Sum(SizesOf(bs[1..])[..i - 1]) + off, x);
    } else {
      assert bs'[1..] == bs[1..];
      OverlayInFront(bs[0], Flat(bs[1..]), off, x);
    }
  }

  lemma OverlayBehind(a: seq<byte>, s: seq<byte>, p: nat, x: seq<byte>)
    requires p + |x| <= |s|
    ensures Overlay(a + s, |a| + p, x) == a + Overlay(s, p, x)
  {
  }

  lemma OverlayInFront(a: seq<byte>, s: seq<byte>, p: nat, x: seq<byte>)
    requires p + |x| <= |a|
    ensures Overlay(a + s, p, x) == Overlay(a, p, x) + s
  {
  }

  lemma {:induction false} FlatLength(bs: seq<seq<byte>>)
    ensures |Flat(bs)| == Sum(SizesOf(bs))
  {
    if bs != [] {
      FlatLength(bs[1..]);
      assert SizesOf(bs)[1..] == SizesOf(bs[1..]);
    }
  }

  // ----- the vectors

  class BufVec {
    const bufs: seq<array<byte>>
    var idx: nat
    var off: nat

    constructor (bufs: seq<array<byte>>)
      ensures this.bufs == bufs && At() == Cursor(0, 0)
    {
      this.bufs, idx, off := bufs, 0, 0;
    }

    ghost function At(): Cursor
      reads this
    {
      Cursor(idx, off)
    }

    ghost function Sizes(): seq<nat> {
      seq(|bufs|, k requires 0 <= k < |bufs| => bufs[k].Length)
    }

    ghost function Contents(): seq<seq<byte>>
      reads bufs
    {
      seq(|bufs|, k requires 0 <= k < |bufs| reads bufs => bufs[k][..])
    }

    ghost predicate Valid()
      reads this
    {
      InBounds(Sizes(), At()) && forall j, k :: 0 <= j < k < |bufs| ==> bufs[j] != bufs[k]
    }

    /** `fuse_buf_size`. */
    method Size() returns (size: nat)
      ensures size == Sum(Sizes())
    {
      size := 0;
      for i := 0 to |bufs|
        invariant size == Sum(Sizes()[..i])
      {
        SumSplit(Sizes(), i);
        size := size + bufs[i].Length;
      }
      assert Sizes()[..|bufs|] == Sizes();
    }

    /** `fuse_bufvec_advance`. */
    method Advance(len: nat) returns (more: bool)
      requires Valid() && (idx < |bufs| ==> off + len <= bufs[idx].Length)
      modifies this
      ensures Valid() && more == (idx < |bufs|)
      ensures At() == if old(idx) < |bufs| then Advanced(Sizes(), old(At()), len) else old(At())
    {
      if idx >= |bufs| {
        return false;
      }
      off := off + len;
      if off == bufs[idx].Length {
        idx := idx + 1;
        if idx == |bufs| {
          return false;
        }
        off := 0;
      }
      more := true;
    }
  }

  /** `fuse_buf_copy_one` between memory buffers, which may be the same one and overlap. */
  method CopyOne(dst: array<byte>, dstOff: nat, src: array<byte>, srcOff: nat, len: nat)
    requires dstOff + len <= dst.Length && srcOff + len <= src.Length
    modifies dst
    ensures dst[..] == Overlay(old(dst[..]), dstOff, old(src[srcOff..srcOff + len]))
  {
    forall k | 0 <= k < len {
      dst[dstOff + k] := src[srcOff + k];
    }
  }

  ghost predicate Apart(dst: BufVec, src: BufVec) {
    forall j, k :: 0 <= j < |dst.bufs| && 0 <= k < |src.bufs| ==> dst.bufs[j] != src.bufs[k]
  }

  /** One turn of the loop: the chunk goes where the destination cursor is. */
  method CopyChunk(dst: BufVec, src: BufVec, len: nat)
    requires dst.Valid() && src.Valid() && dst.idx < |dst.bufs| && src.idx < |src.bufs|
    requires dst.off + len <= dst.bufs[dst.idx].Length && src.off + len <= src.bufs[src.idx].Length
    modifies dst.bufs
    ensures Apart(dst, src) ==> src.Contents() == old(src.Contents())
    ensures Apart(dst, src) ==> Copied(old(Flat(dst.Contents())), Flat(dst.Contents()), Flat(src.Contents()),
                   Position(dst.Sizes(), dst.At()), Position(src.Sizes(), src.At()), len)
  {
    hide Overlay, Flat, Sum;
    ghost var before, from := dst.Contents(), src.Contents();
    ghost var x := src.bufs[src.idx][src.off..src.off + len];
    CopyOne(dst.bufs[dst.idx], dst.off, src.bufs[src.idx], src.off, len);
    if Apart(dst, src) {
      assert SizesOf(from) == src.Sizes() && SizesOf(before) == dst.Sizes();
      PieceOfWhole(from, src.idx, src.off, len);
      WriteIntoWhole(before, dst.idx, dst.off, x, dst.Contents());
      assert src.Contents() == from;
    }
  }

  /** The end of one turn: the destination moves only if the source has not run out. */
  method AdvanceBoth(dst: BufVec, src: BufVec, len: nat) returns (more: bool)
    requires dst != src && dst.Valid() && src.Valid() && dst.idx < |dst.bufs| && src.idx < |src.bufs|
    requires dst.off + len <= dst.bufs[dst.idx].Length && src.off + len <= src.bufs[src.idx].Length
    modifies dst, src
    ensures dst.Valid() && src.Valid() && more == (src.idx < |src.bufs| && dst.idx < |dst.bufs|)
    ensures src.At() == Advanced(src.Sizes(), old(src.At()), len)
    ensures dst.At() == if src.idx == |src.bufs| then old(dst.At()) else Advanced(dst.Sizes(), old(dst.At()), len)
  {
    hide Advanced;
    more := src.Advance(len);
    if more {
      more := dst.Advance(len);
    }
  }

  /** `fuse_buf_copy`. How much is copied and where the cursors go does not depend on
      the buffers being apart, but what they hold afterwards does. */
  method FuseBufCopy(dstv: BufVec, srcv: BufVec) returns (copied: nat)
    requires dstv.Valid() && srcv.Valid()
    modifies dstv, srcv, dstv.bufs
    ensures dstv == srcv ==>
              copied == Sum(dstv.Sizes()) && dstv.At() == old(dstv.At()) && dstv.Contents() == old(dstv.Contents())
    ensures dstv != srcv ==>
              && copied == Min(Left(srcv.Sizes(), old(srcv.At())), Left(dstv.Sizes(), old(dstv.At())))
              && (copied, srcv.At(), dstv.At()) == Copy(srcv.Sizes(), dstv.Sizes(), old(srcv.At()), old(dstv.At()))
    ensures dstv != srcv && Apart(dstv, srcv) ==>
              && srcv.Contents() == old(srcv.Contents())
              && Copied(old(Flat(dstv.Contents())), Flat(dstv.Contents()), Flat(srcv.Contents()),
                        Position(dstv.Sizes(), old(dstv.At())), Position(srcv.Sizes(), old(srcv.At())), copied)
  {
    hide Position, Left, Copied, Flat, Sum, BufVec.Contents, Copy, Reached, Advanced, Apart;
    copied := 0;
    if dstv == srcv {
      copied := dstv.Size();
      return;
    }
    ghost var apart := Apart(dstv, srcv);
    ghost var src, dst, s0, d0 := srcv.Sizes(), dstv.Sizes(), srcv.At(), dstv.At();
    ghost var p, q, before, from := Position(dst, d0), Position(src, s0), Flat(dstv.Contents()), Flat(srcv.Contents());
    CopiesMinimum(src, dst, s0, d0);
    PositionsFit(srcv);
    PositionsFit(dstv);
    CopiedNothing(before, from, p, q);
    ghost var s, d := s0, d0;
    ReachedStart(src, dst, s, d);
    while srcv.idx < |srcv.bufs| && dstv.idx < |dstv.bufs|
      invariant dstv.Valid() && srcv.Valid() && srcv.At() == s && dstv.At() == d
      invariant apart ==> srcv.Contents() == old(srcv.Contents())
      invariant Position(src, s) == q + copied && Position(dst, d) == p + copied
      invariant apart ==> Copied(before, Flat(dstv.Contents()), from, p, q, copied)
      invariant Reached(src, dst, s0, d0, copied, s, d)
      decreases |src| - s.idx + |dst| - d.idx
    {
      ghost var now := Flat(dstv.Contents());
      var srcLen, dstLen := srcv.bufs[srcv.idx].Length - srcv.off, dstv.bufs[dstv.idx].Length - dstv.off;
      var len := Min(srcLen, dstLen);
      CopyChunk(dstv, srcv, len);
      if apart {
        CopiedTwice(before, now, Flat(dstv.Contents()), from, p, q, copied, len);
      }
      ReachedTurn(src, dst, s0, d0, copied, s, d, len);
      copied := copied + len;
      AdvanceMoves(src, s, len);
      AdvanceMoves(dst, d, len);
      var more := AdvanceBoth(dstv, srcv, len);
      s, d := srcv.At(), dstv.At();
      if !more {
        break;
      }
    }
    ReachedEnd(src, dst, s0, d0, copied, s, d);
  }

  lemma PositionsFit(v: BufVec)
    requires v.Valid()
    ensures Position(v.Sizes(), v.At()) <= |Flat(v.Contents())|
  {
    FlatLength(v.Contents());
    assert SizesOf(v.Contents()) == v.Sizes();
    LeftIsNat(v.Sizes(), v.At());
  }
}
