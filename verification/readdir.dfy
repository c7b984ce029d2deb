/** READDIR from a filled list: as many records as fit go into each reply, and the
    kernel asks again from the offset of the last record it got. */
module ReadDir {
  import opened Wrappers

  /** `struct fuse_direntry`, and `struct fuse_dirent`. */
  datatype Entry = Entry(ino: nat, typ: nat, name: seq<byte>)

  datatype Dirent = Dirent(ino: nat, off: nat, typ: nat, name: seq<byte>)

  // ----- records

  const FUSE_NAME_OFFSET: nat := 24

  /** FUSE_DIRENT_ALIGN of the unpadded length. */
  function RecordLength(namelen: nat): nat {
    (FUSE_NAME_OFFSET + namelen + 7) / 8 * 8
  }

  /** The least multiple of 8 that the header and the name fit into. */
  lemma {:induction false} RecordIsLeast(namelen: nat, n: nat)
    ensures RecordLength(namelen) % 8 == 0 && RecordLength(namelen) >= FUSE_NAME_OFFSET + namelen
    ensures n % 8 == 0 && n >= FUSE_NAME_OFFSET + namelen ==> n >= RecordLength(namelen)
  {
  }

  /** An integer of `n` bytes, least significant first. */
  function Little(v: nat, n: nat): (s: seq<byte>)
    ensures |s| == n
  {
    if n == 0 then [] else [v % 256] + Little(v / 256, n - 1)
  }

  function FromLittle(s: seq<byte>): nat {
    if s == [] then 0 else s[0] + 256 * FromLittle(s[1..])
  }

  function Power256(n: nat): nat {
    if n == 0 then 1 else 256 * Power256(n - 1)
  }

  lemma {:induction false} LittleRoundTrip(v: nat, n: nat)
    requires v < Power256(n)
    ensures FromLittle(Little(v, n)) == v
  {
    if n > 0 {
      LittleRoundTrip(v / 256, n - 1);
      assert Little(v, n)[1..] == Little(v / 256, n - 1);
    }
  }

  lemma Powers()
    ensures Power256(4) == TWO_32 && Power256(8) == TWO_64
  {
  }

  function Zeros(n: nat): (s: seq<byte>)
    ensures |s| == n
  {
    seq(n, _ => 0)
  }

  function Header(d: Dirent): (s: seq<byte>)
    ensures |s| == FUSE_NAME_OFFSET
  {
    Little(d.ino, 8) + Little(d.off, 8) + Little(|d.name|, 4) + Little(d.typ, 4)
  }

  /** The bytes of a record. */
  function Encode(d: Dirent): (s: seq<byte>)
    ensures |s| == RecordLength(|d.name|)
  {
    Header(d) + d.name + Zeros(RecordLength(|d.name|) - FUSE_NAME_OFFSET - |d.name|)
  }

  function EncodeAll(ds: seq<Dirent>): seq<byte> {
    if ds == [] then [] else Encode(ds[0]) + EncodeAll(ds[1..])
  }

  /** Reading a reply record by record. */
  function DecodeAll(b: seq<byte>): seq<Dirent>
    decreases |b|
  {
    if |b| < FUSE_NAME_OFFSET then []
    else
      var n := FromLittle(b[16..20]);
      var len := RecordLength(n);
      if len > |b| then []
      else
        RecordIsLeast(n, 0);
        [Dirent(FromLittle(b[..8]), FromLittle(b[8..16]), FromLittle(b[20..24]), b[24..24 + n])] + DecodeAll(b[len..])
  }

  predicate Fits(d: Dirent) {
    d.ino < TWO_64 && d.off < TWO_64 && |d.name| < TWO_32 && d.typ < TWO_32
  }

  lemma {:induction false} DecodeHeader(d: Dirent, b: seq<byte>)
    requires Fits(d) && |b| >= 24 && b[..24] == Header(d)
    ensures FromLittle(b[..8]) == d.ino && FromLittle(b[8..16]) == d.off
    ensures FromLittle(b[16..20]) == |d.name| && FromLittle(b[20..24]) == d.typ
  {
    Powers();
    LittleRoundTrip(d.ino, 8);
    LittleRoundTrip(d.off, 8);
    LittleRoundTrip(|d.name|, 4);
    LittleRoundTrip(d.typ, 4);
    var h := Header(d);
    assert b[..8] == h[..8] == Little(d.ino, 8);
    assert b[8..16] == b[..24][8..16] == Little(d.off, 8);
    assert b[16..20] == b[..24][16..20] == Little(|d.name|, 4);
    assert b[20..24] == b[..24][20..24] == Little(d.typ, 4);
  }

  lemma {:induction false} DecodeOne(d: Dirent, rest: seq<byte>)
    requires Fits(d)
    ensures DecodeAll(Encode(d) + rest) == [d] + DecodeAll(rest)
  {
    var b, len := Encode(d) + rest, RecordLength(|d.name|);
    RecordIsLeast(|d.name|, 0);
    assert b[..24] == Header(d);
    DecodeHeader(d, b);
    assert b[24..24 + |d.name|] == d.name && b[len..] == rest;
  }

  lemma {:induction false} DecodeEncoded(ds: seq<Dirent>)
    requires forall d :: d in ds ==> Fits(d)
    ensures DecodeAll(EncodeAll(ds)) == ds
  {
    if ds != [] {
      DecodeOne(ds[0], EncodeAll(ds[1..]));
      DecodeEncoded(ds[1..]);
      assert ds == [ds[0]] + ds[1..];
    }
  }

  // ----- one reply

  /** The record of entry `k`; its offset is where reading goes on after it. */
  function RecordOf(list: seq<Entry>, k: nat): Dirent
    requires k < |list|
  {
    Dirent(list[k].ino, k + 1, list[k].typ, list[k].name)
  }

  function Records(list: seq<Entry>): seq<Dirent> {
    seq(|list|, k requires 0 <= k < |list| => RecordOf(list, k))
  }

  /** The records from position `pos` that fit into `room` bytes one after the other. */
  function Chunk(list: seq<Entry>, pos: nat, room: nat): seq<Dirent>
    decreases |list| - pos
  {
    if pos >= |list| || RecordLength(|list[pos].name|) > room then []
    else [RecordOf(list, pos)] + Chunk(list, pos + 1, room - RecordLength(|list[pos].name|))
  }

  lemma ChunkFirst(list: seq<Entry>, pos: nat, room: nat)
    requires pos < |list|
    ensures var c, len := Chunk(list, pos, room), RecordLength(|list[pos].name|);
            if len > room then c == [] && EncodeAll(c) == []
            else
              var rest := Chunk(list, pos + 1, room - len);
              c == [RecordOf(list, pos)] + rest && |EncodeAll(c)| == len + |EncodeAll(rest)|
  {
    var c, len := Chunk(list, pos, room), RecordLength(|list[pos].name|);
    if len <= room {
      var rest := Chunk(list, pos + 1, room - len);
      assert c == [RecordOf(list, pos)] + rest && c[1..] == rest;
    }
  }

  lemma {:induction false} ChunkIsConsecutive(list: seq<Entry>, pos: nat, room: nat, j: nat)
    requires pos <= |list| && j < |Chunk(list, pos, room)|
    ensures pos + j < |list| && Chunk(list, pos, room)[j] == RecordOf(list, pos + j)
    decreases j
  {
    if pos < |list| {
      ChunkFirst(list, pos, room);
      hide Chunk, RecordLength, EncodeAll;
      if j > 0 {
        ChunkIsConsecutive(list, pos + 1, room - RecordLength(|list[pos].name|), j - 1);
      }
    }
  }

  /** A reply fits into the request, and the record after it would not. */
  lemma {:induction false} ChunkTakesAllThatFit(list: seq<Entry>, pos: nat, room: nat)
    requires pos <= |list|
    ensures var c := Chunk(list, pos, room);
            && pos + |c| <= |list| && |EncodeAll(c)| <= room
            && (pos + |c| < |list| ==> |EncodeAll(c)| + RecordLength(|list[pos + |c|].name|) > room)
    decreases |list| - pos
  {
    if pos < |list| {
      hide Encode, RecordLength, Chunk, EncodeAll, RecordOf;
      ChunkFirst(list, pos, room);
      var len := RecordLength(|list[pos].name|);
      if len <= room {
        ChunkTakesAllThatFit(list, pos + 1, room - len);
      }
    }
  }

  class DirHandle {
    var first: seq<Entry>
    /** `contents`, of `size` bytes, `len` of them in use. */
    var contents: array<byte>
    var len: nat
    var needlen: nat

    /** `extend_contents`. */
    method ExtendContents(minsize: nat, memory: bool) returns (ok: bool)
      requires minsize < TWO_32
      modifies this`contents
      ensures ok <==> memory || minsize <= old(contents.Length)
      ensures ok ==> contents.Length >= minsize && (contents == old(contents) || fresh(contents))
      ensures ok ==> contents.Length >= old(contents.Length) && contents[..old(contents.Length)] == old(contents[..])
      ensures !ok ==> contents == old(contents)
    {
      ok := true;
      if minsize > contents.Length {
        var newsize := if contents.Length == 0 then 1024 else contents.Length;
        while newsize < minsize
          invariant newsize > 0 && (newsize >= contents.Length || newsize == TWO_32 - 1)
          decreases minsize - newsize
        {
          newsize := if newsize >= 0x8000_0000 then TWO_32 - 1 else newsize * 2;
        }
        if !memory {
          return false;
        }
        var newptr := new byte[newsize](_ => 0);
        forall k | 0 <= k < contents.Length {
          newptr[k] := contents[k];
        }
        contents := newptr;
      }
    }

    /** `readdir_fill_from_list`. */
    method FillFromList(off: nat, memory: bool) returns (ok: bool)
      requires needlen < TWO_32
      modifies this`contents, this`len, contents
      ensures ok <==> memory || needlen <= old(contents.Length)
      ensures ok ==> len <= needlen && len <= contents.Length && contents[..len] == EncodeAll(Chunk(first, off, needlen))
    {
      len := 0;
      ok := ExtendContents(needlen, memory);
      if !ok {
        return;
      }
      var pos, de := 0, 0;
      while pos < off && de < |first|
        invariant de == pos <= off && pos <= |first|
      {
        pos, de := pos + 1, de + 1;
      }
      ChunkAtEnd(first, off, needlen);
      AppendRecords(de);
    }

    /** The second loop of `readdir_fill_from_list`, from entry `de` on. */
    method AppendRecords(de0: nat)
      requires de0 <= |first| && len == 0 && needlen <= contents.Length
      modifies this`len, contents
      ensures len <= needlen && contents[..len] == EncodeAll(Chunk(first, de0, needlen))
    {
      hide *;
      var pos, de := de0, de0;
      ghost var all := EncodeAll(Chunk(first, de0, needlen));
      assert contents[..len] == [];
      AppendedStart(all, first, de0, needlen);
      while de < |first|
        invariant de == pos <= |first| && len <= needlen
        invariant Appended(all, first, pos, needlen - len, contents[..len])
        decreases |first| - de
      {
        pos := pos + 1;
        ghost var text := contents[..len];
        var thislen := AddDirentry(contents, len, needlen - len, first[de], pos);
        if len + thislen > needlen {
          AppendedAll(all, first, de, needlen - len, text);
          return;
        }
        AppendedOneMore(all, first, de, needlen - len, text, contents[len..len + thislen]);
        assert contents[..len + thislen] == text + contents[len..len + thislen];
        len := len + thislen;
        de := de + 1;
      }
      AppendedAll(all, first, pos, needlen - len, contents[..len]);
    }
  }

  lemma ChunkAtEnd(list: seq<Entry>, pos: nat, room: nat)
    ensures pos >= |list| ==> Chunk(list, pos, room) == [] == Chunk(list, |list|, room) && EncodeAll([]) == []
  {
  }

  lemma ChunkStep(list: seq<Entry>, k: nat, room: nat)
    requires k < |list|
    ensures var len := RecordLength(|list[k].name|);
            EncodeAll(Chunk(list, k, room)) ==
              if len > room then [] else Encode(RecordOf(list, k)) + EncodeAll(Chunk(list, k + 1, room - len))
  {
  }

  /** The reply `all` is `text` and what the entries from `pos` on still add to it. */
  ghost predicate Appended(all: seq<byte>, list: seq<Entry>, pos: nat, room: int, text: seq<byte>) {
    room >= 0 && all == text + EncodeAll(Chunk(list, pos, room))
  }

  lemma AppendedStart(all: seq<byte>, list: seq<Entry>, pos: nat, room: nat)
    requires all == EncodeAll(Chunk(list, pos, room))
    ensures Appended(all, list, pos, room, [])
  {
  }

  lemma AppendedOneMore(all: seq<byte>, list: seq<Entry>, pos: nat, room: nat, text: seq<byte>, more: seq<byte>)
    requires Appended(all, list, pos, room, text) && pos < |list| && RecordLength(|list[pos].name|) <= room
    requires more == Encode(Dirent(list[pos].ino, pos + 1, list[pos].typ, list[pos].name))
    ensures Appended(all, list, pos + 1, room - RecordLength(|list[pos].name|), text + more)
  {
    ChunkStep(list, pos, room);
    hide Chunk, EncodeAll, RecordLength, Encode;
  }

  lemma AppendedAll(all: seq<byte>, list: seq<Entry>, pos: nat, room: nat, text: seq<byte>)
    requires Appended(all, list, pos, room, text)
    requires pos >= |list| || RecordLength(|list[pos].name|) > room
    ensures all == text
  {
  }

  /** `fuse_add_direntry`, with `bufsize` bytes from `at` on, or without a buffer to ask
      for the size only. */
  method AddDirentry(buf: array?<byte>, at: nat, bufsize: nat, e: Entry, off: nat) returns (len: nat)
    requires buf != null ==> at + bufsize <= buf.Length
    modifies buf
    ensures len == RecordLength(|e.name|)
    ensures buf != null ==>
              && buf[..at] == old(buf[..at])
              && (len <= bufsize ==> buf[at..at + len] == Encode(Dirent(e.ino, off, e.typ, e.name)))
              && (len > bufsize ==> buf[..] == old(buf[..]))
  {
    var namelen := |e.name|;
    var entlen := FUSE_NAME_OFFSET + namelen;
    len := RecordLength(namelen);
    RecordIsLeast(namelen, 0);
    if buf == null || len > bufsize {
      return;
    }
    var d := Dirent(e.ino, off, e.typ, e.name);
    var header := Header(d);
    forall k | 0 <= k < FUSE_NAME_OFFSET {
      buf[at + k] := header[k];
    }
    forall k | 0 <= k < namelen {
      buf[at + FUSE_NAME_OFFSET + k] := e.name[k];
    }
    forall k | entlen <= k < len {
      buf[at + k] := 0;
    }
    assert buf[at..at + len] == Encode(d);
  }

  // ----- a whole directory

  /** What the kernel reads with requests of these sizes: each goes on from the
      offset of the last record got, and an empty reply is the end. */
  function Read(list: seq<Entry>, off: nat, sizes: seq<nat>): seq<Dirent>
    decreases |sizes|
  {
    if sizes == [] then []
    else
      var got := DecodeAll(EncodeAll(Chunk(list, off, sizes[0])));
      if got == [] then [] else got + Read(list, got[|got| - 1].off, sizes[1..])
  }

  /** A reply is a run of consecutive records, and is empty exactly at the end or
      when the next record does not fit. */
  lemma {:induction false} ChunkIsRun(list: seq<Entry>, pos: nat, room: nat)
    ensures var c := Chunk(list, pos, room);
            && (c != [] ==> pos + |c| <= |list| && c == Records(list)[pos..pos + |c|] && c[|c| - 1].off == pos + |c|)
            && (c == [] <==> pos >= |list| || RecordLength(|list[pos].name|) > room)
    decreases |list| - pos
  {
    var c := Chunk(list, pos, room);
    if c != [] {
      ChunkIsRun(list, pos + 1, room - RecordLength(|list[pos].name|));
      var rest := Chunk(list, pos + 1, room - RecordLength(|list[pos].name|));
      assert c == [RecordOf(list, pos)] + rest;
    }
  }

  /** What one request gets. */
  lemma {:induction false} ReadOne(list: seq<Entry>, off: nat, sizes: seq<nat>)
    requires off <= |list| && sizes != [] && forall d :: d in Records(list) ==> Fits(d)
    ensures var c := Chunk(list, off, sizes[0]);
            && off + |c| <= |list| && c == Records(list)[off..off + |c|]
            && (c == [] <==> off >= |list| || RecordLength(|list[off].name|) > sizes[0])
            && Read(list, off, sizes) == if c == [] then [] else c + Read(list, off + |c|, sizes[1..])
  {
    hide Chunk, Records, DecodeAll, EncodeAll, Fits, RecordLength;
    var c := Chunk(list, off, sizes[0]);
    ChunkIsRun(list, off, sizes[0]);
    EmptyRun(list, off);
    forall d | d in c ensures d in Records(list) {
      var k :| 0 <= k < |c| && c[k] == d;
      assert Records(list)[off + k] == d;
    }
    DecodeEncoded(c);
  }

  lemma EmptyRun(list: seq<Entry>, off: nat)
    requires off <= |list|
    ensures |Records(list)| == |list| && Records(list)[off..off] == []
  {
  }

  /** Some request is too small for entry `i`. */
  ghost predicate TooSmall(list: seq<Entry>, sizes: seq<nat>, i: nat)
    requires i < |list|
  {
    exists j :: 0 <= j < |sizes| && sizes[j] < RecordLength(|list[i].name|)
  }

  /** Whatever the sizes of the requests: no entry is skipped, repeated or changed,
      every request gets at least one, and only one that is too small for the next
      entry ends the reading early. */
  lemma {:induction false} ReadIsLossless(list: seq<Entry>, off: nat, sizes: seq<nat>)
    requires off <= |list| && forall d :: d in Records(list) ==> Fits(d)
    ensures var n := off + |Read(list, off, sizes)|;
            && n <= |list| && Read(list, off, sizes) == Records(list)[off..n]
            && (n < |list| ==> n - off >= |sizes| || TooSmall(list, sizes, n))
    decreases |sizes|
  {
    hide Read, Chunk, Records, RecordLength, Fits;
    var all := Records(list);
    assert |all| == |list| by {
      RecordsLength(list);
    }
    if sizes == [] {
      ReadNothing(list, off);
    } else {
      ReadOne(list, off, sizes);
      var c := Chunk(list, off, sizes[0]);
      var mid := off + |c|;
      if c != [] {
        ReadIsLossless(list, mid, sizes[1..]);
        var n := mid + |Read(list, mid, sizes[1..])|;
        assert all[off..n] == all[off..mid] + all[mid..n];
        if n < |list| && TooSmall(list, sizes[1..], n) {
          var j :| 0 <= j < |sizes[1..]| && sizes[1..][j] < RecordLength(|list[n].name|);
          assert sizes[j + 1] == sizes[1..][j];
        }
      }
    }
  }

  lemma ReadNothing(list: seq<Entry>, off: nat)
    requires off <= |list|
    ensures Read(list, off, []) == [] && Records(list)[off..off] == []
  {
  }

  lemma RecordsLength(list: seq<Entry>)
    ensures |Records(list)| == |list|
  {
  }

  /** So enough requests that are each large enough for any entry get the whole list. */
  lemma {:induction false} ReadIsComplete(list: seq<Entry>, sizes: seq<nat>)
    requires |list| <= |sizes| && forall d :: d in Records(list) ==> Fits(d)
    requires forall j, i :: 0 <= j < |sizes| && 0 <= i < |list| ==> sizes[j] >= RecordLength(|list[i].name|)
    ensures Read(list, 0, sizes) == Records(list)
  {
    ReadIsLossless(list, 0, sizes);
    assert Records(list)[0..|list|] == Records(list);
  }
}
