/** Building a path from its end: `add_name` writes names backwards into a buffer
    that it doubles as needed, moving what is there to the new end. */
module PathBuffer {
  import opened Wrappers
  import opened CStrings
  import opened PathTree
  import opened PathNames

  const UINT_MAX: nat := 0xffff_ffff

  // ----- the size of the buffer

  /** One turn of the loop that looks for a larger size. */
  function Grown(size: nat): nat {
    if size >= 0x8000_0000 then UINT_MAX else size * 2
  }

  function GrownTimes(size: nat, k: nat): nat {
    if k == 0 then size else Grown(GrownTimes(size, k - 1))
  }

  /** That loop ever ends exactly if what is needed fits an `unsigned`. */
  lemma {:induction false} GrowthEndsExactly(size: nat, needed: nat)
    requires 0 < size <= UINT_MAX
    ensures (exists k :: GrownTimes(size, k) >= needed) <==> needed <= UINT_MAX
  {
    forall k ensures GrownTimes(size, k) <= UINT_MAX {
      GrownIsBounded(size, k);
    }
    if needed <= UINT_MAX {
      GrownReaches(size, UINT_MAX);
      assert GrownTimes(size, UINT_MAX) >= needed;
    }
  }

  lemma {:induction false} GrownIsBounded(size: nat, k: nat)
    requires 0 < size <= UINT_MAX
    ensures 0 < GrownTimes(size, k) <= UINT_MAX
  {
    if k > 0 {
      GrownIsBounded(size, k - 1);
    }
  }

  lemma {:induction false} GrownReaches(size: nat, k: nat)
    requires 0 < size <= UINT_MAX && k <= UINT_MAX
    ensures GrownTimes(size, k) >= k
  {
    if k > 0 {
      GrownReaches(size, k - 1);
      GrownIsBounded(size, k - 1);
    }
  }

  // ----- writing

  /** `add_name`: puts "/" and `name` in front of the text that fills `buf` from `s`
      to its end. `memory` says whether a `realloc` succeeds. */
  method AddName(buf: array<char>, s: nat, name: string, memory: bool) returns (ok: bool, buf': array<char>, s': nat)
    requires s <= buf.Length && 0 < buf.Length <= UINT_MAX && buf.Length - s + |name| + 1 <= UINT_MAX
    modifies buf
    ensures ok <==> memory || |name| < s
    ensures ok ==> s' <= buf'.Length <= UINT_MAX && buf'[s'..] == "/" + name + old(buf[s..])
    ensures if ok && |name| >= s then fresh(buf') && buf'.Length > buf.Length else buf' == buf
    ensures buf[..if |name| < s then s - |name| - 1 else buf.Length] == old(buf[..if |name| < s then s - |name| - 1 else buf.Length])
  {
    var len := |name|;
    ok, buf', s' := true, buf, s;
    if s <= len {
      if !memory {
        return false, buf, s;
      }
      buf', s' := Grow(buf, s, len);
    }
    assert buf'[s'..] == old(buf[s..]);
    s' := s' - len;
    forall k | 0 <= k < len {
      buf'[s' + k] := name[k];
    }
    s' := s' - 1;
    buf'[s'] := '/';
  }

  /** The growing part of `add_name`. */
  method Grow(buf: array<char>, s: nat, len: nat) returns (buf': array<char>, s': nat)
    requires s <= buf.Length && 0 < buf.Length <= UINT_MAX && s <= len && buf.Length - s + len + 1 <= UINT_MAX
    ensures fresh(buf') && buf.Length < buf'.Length <= UINT_MAX
    ensures len < s' <= buf'.Length && buf'[s'..] == buf[s..]
  {
    var pathlen := buf.Length - s;
    var newbufsize := buf.Length;
    while newbufsize < pathlen + len + 1
      invariant buf.Length <= newbufsize <= UINT_MAX
    {
      newbufsize := Grown(newbufsize);
    }
    buf' := new char[newbufsize](_ => NUL);
    forall k | 0 <= k < buf.Length {
      buf'[k] := buf[k];
    }
    s' := newbufsize - pathlen;
    forall k | 0 <= k < pathlen {
      buf'[s' + k] := buf'[buf.Length - pathlen + k];
    }
  }

  /** The names in the order in which they are added, as one string. */
  function Collected(names: seq<string>): string {
    if names == [] then "" else Collected(names[1..]) + "/" + names[0]
  }

  lemma {:induction false} CollectOneMore(names: seq<string>, n: string)
    ensures Collected(names + [n]) == "/" + n + Collected(names)
  {
    if names == [] {
      assert ([] + [n])[1..] == [];
    } else {
      CollectOneMore(names[1..], n);
      assert (names + [n])[1..] == names[1..] + [n];
    }
  }

  lemma {:induction false} CollectedPrefix(names: seq<string>, i: nat)
    requires i <= |names|
    ensures |Collected(names[..i])| <= |Collected(names)|
    decreases |names| - i
  {
    if i < |names| {
      CollectOneMore(names[..i], names[i]);
      assert names[..i] + [names[i]] == names[..i + 1];
      CollectedPrefix(names, i + 1);
    } else {
      assert names[..i] == names;
    }
  }

  /** The buffer part of `try_get_path`: adds `names` one after the other and moves
      the result to the front. Reallocation `k` succeeds if `memory(k)`. */
  method BuildPath(names: seq<string>, memory: nat -> bool) returns (ok: bool, buf: array?<char>)
    requires |Collected(names)| + 1 <= UINT_MAX
    ensures (forall k :: memory(k)) ==> ok
    ensures ok ==> memory(0) && buf != null
    ensures ok ==>
              var path := if names == [] then "/" else Collected(names);
              |path| < buf.Length && buf[..|path| + 1] == path + [NUL]
  {
    if !memory(0) {
      return false, null;
    }
    buf := new char[256](_ => NUL);
    var s := buf.Length - 1;
    buf[s] := NUL;
    for i := 0 to |names|
      invariant buf != null && fresh(buf) && s < buf.Length <= UINT_MAX && buf.Length >= 2
      invariant buf[s..] == Collected(names[..i]) + [NUL]
    {
      CollectOneMore(names[..i], names[i]);
      assert names[..i] + [names[i]] == names[..i + 1];
      CollectedPrefix(names, i + 1);
      assert |buf[s..]| == |Collected(names[..i])| + 1;
      ghost var before := buf[s..];
      ok, buf, s := AddName(buf, s, names[i], memory(i + 1));
      if !ok {
        return;
      }
      assert buf[s..] == "/" + names[i] + before;
    }
    ok := true;
    assert names[..|names|] == names;
    StartsWithSlash(names);
    assert buf[s] == buf[s..][0];
    if buf[s] != NUL {
      ghost var text := buf[s..];
      forall k | 0 <= k < buf.Length - s {
        buf[k] := buf[s + k];
      }
      assert buf[..|text|] == text;
    } else {
      buf[0], buf[1] := '/', NUL;
    }
  }

  lemma {:induction false} StartsWithSlash(names: seq<string>)
    ensures names != [] ==> Collected(names) != "" && Collected(names)[0] == '/'
  {
    if names != [] {
      var n := |names| - 1;
      CollectOneMore(names[..n], names[n]);
      assert names[..n] + [names[n]] == names;
    }
  }

  /** The names that `try_get_path` adds: the last one first, then upwards. */
  function NamesUp(links: map<Id, Link>, c: seq<Id>, name: Option<string>): seq<string> {
    (if name.Some? then [name.value] else []) + seq(|c|, k requires 0 <= k < |c| => NameOf(links, c[k]))
  }

  /** So the buffer ends up holding the path string that is resolved again. */
  lemma {:induction false} CollectedIsPath(links: map<Id, Link>, c: seq<Id>, name: Option<string>)
    ensures var names := NamesUp(links, c, name);
            (if names == [] then "/" else Collected(names)) == PathString(links, c, name)
  {
    var up := NamesUp(links, c, None);
    CollectedIsPathTo(links, c);
    StartsWithSlash(up);
    if name.Some? {
      var names := NamesUp(links, c, name);
      assert names[1..] == up;
      assert Collected(names) == PathTo(links, c) + "/" + name.value == PathTo(links, c) + ("/" + name.value);
    }
  }

  lemma {:induction false} CollectedIsPathTo(links: map<Id, Link>, c: seq<Id>)
    ensures Collected(NamesUp(links, c, None)) == PathTo(links, c)
  {
    if c != [] {
      CollectedIsPathTo(links, c[1..]);
      assert NamesUp(links, c, None)[1..] == NamesUp(links, c[1..], None);
    }
  }
}
