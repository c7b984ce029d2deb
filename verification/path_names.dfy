/** The path of a node as a string, and what resolving that string gives. */
module PathNames {
  import opened Wrappers
  import opened PathTree

  /** The names along the way up `c`, root first, each after a slash. */
  function PathTo(links: map<Id, Link>, c: seq<Id>): string {
    if c == [] then ""
    else PathTo(links, c[1..]) + "/" + NameOf(links, c[0])
  }

  function NameOf(links: map<Id, Link>, i: Id): string {
    if i in links && links[i].Linked? then links[i].name else ""
  }

  /** The string that `try_get_path` returns for a way up and a last name. */
  function PathString(links: map<Id, Link>, c: seq<Id>, name: Option<string>): string {
    var s := PathTo(links, c) + if name.Some? then "/" + name.value else "";
    if s == "" then "/" else s
  }

  // ----- splitting a path

  /** How far the first component goes. */
  function Span(s: string): (n: nat)
    ensures n <= |s| && (n < |s| ==> s[n] == '/') && forall k :: 0 <= k < n ==> s[k] != '/'
  {
    if s == "" || s[0] == '/' then 0 else 1 + Span(s[1..])
  }

  /** What repeated `strtok_r(..., "/", ...)` gives. */
  function Tokens(s: string): seq<string>
    decreases |s|
  {
    if s == "" then []
    else if s[0] == '/' then Tokens(s[1..])
    else [s[..Span(s)]] + Tokens(s[Span(s)..])
  }

  /** `strtok_r` from position `pos`: the next component, if there is one. */
  method NextToken(path: string, pos: nat) returns (found: bool, start: nat, end: nat)
    requires pos <= |path|
    ensures found <==> Tokens(path[pos..]) != []
    ensures found ==> pos <= start < end <= |path| && Tokens(path[pos..]) == [path[start..end]] + Tokens(path[end..])
  {
    hide Tokens;
    start, end := pos, pos;
    while start < |path| && path[start] == '/'
      invariant pos <= start <= |path| && Tokens(path[pos..]) == Tokens(path[start..])
    {
      SkipSlash(path, start);
      start := start + 1;
    }
    if start == |path| {
      NoTokens(path);
      return false, start, start;
    }
    end := start;
    while end < |path| && path[end] != '/'
      invariant start <= end <= |path| && forall k :: start <= k < end ==> path[k] != '/'
    {
      end := end + 1;
    }
    found := true;
    TokenAt(path, start, end);
  }

  lemma NoTokens(path: string)
    ensures Tokens(path[|path|..]) == []
  {
  }

  lemma {:induction false} SkipSlash(path: string, pos: nat)
    requires pos < |path| && path[pos] == '/'
    ensures Tokens(path[pos..]) == Tokens(path[pos + 1..])
  {
    assert path[pos..][1..] == path[pos + 1..];
  }

  lemma {:induction false} TokenAt(path: string, start: nat, end: nat)
    requires start < end <= |path| && (end < |path| ==> path[end] == '/')
    requires forall k :: start <= k < end ==> path[k] != '/'
    ensures Tokens(path[start..]) == [path[start..end]] + Tokens(path[end..])
  {
    var s := path[start..];
    SpanOfName(path[start..end], path[end..]);
    assert s == path[start..end] + path[end..];
    assert Span(s) == end - start && s[..end - start] == path[start..end] && s[end - start..] == path[end..];
  }

  /** What the kernel allows as a name. */
  predicate IsName(s: string) {
    s != "" && '/' !in s
  }

  lemma {:induction false} SpanOfName(n: string, rest: string)
    requires '/' !in n && (rest == "" || rest[0] == '/')
    ensures Span(n + rest) == |n|
  {
    var s := n + rest;
    assert forall k :: 0 <= k < |n| ==> s[k] == n[k] && n[k] in n;
    assert rest != "" ==> s[|n|] == rest[0];
  }

  /** One more component at the end. */
  lemma {:induction false} TokensAppend(a: string, n: string)
    requires IsName(n)
    ensures Tokens(a + "/" + n) == Tokens(a) + [n]
    decreases |a|
  {
    var s := a + "/" + n;
    if a == "" {
      assert s[1..] == n;
      SpanOfName(n, "");
      assert n + "" == n && n[..|n|] == n && n[|n|..] == "";
    } else if a[0] == '/' {
      TokensAppend(a[1..], n);
      assert s[1..] == a[1..] + "/" + n;
    } else {
      var k := Span(a);
      SpanOfName(a[..k], a[k..] + "/" + n);
      assert s == a[..k] + (a[k..] + "/" + n);
      TokensAppend(a[k..], n);
      assert s[k..] == a[k..] + "/" + n && s[..k] == a[..k];
    }
  }

  predicate OnlySlashes(s: string) {
    forall k :: 0 <= k < |s| ==> s[k] == '/'
  }

  /** Names with slashes in front of each. */
  function Separated(names: seq<string>, slashes: seq<string>): string
    requires |slashes| == |names|
  {
    if names == [] then "" else slashes[0] + names[0] + Separated(names[1..], slashes[1..])
  }

  lemma {:induction false} SlashesSkipped(slashes: string, rest: string)
    requires OnlySlashes(slashes)
    ensures Tokens(slashes + rest) == Tokens(rest)
  {
    if slashes == "" {
      assert "" + rest == rest;
    } else {
      SlashesSkipped(slashes[1..], rest);
      assert (slashes + rest)[1..] == slashes[1..] + rest;
    }
  }

  lemma NameFirst(n: string, rest: string)
    requires IsName(n) && (rest == "" || rest[0] == '/')
    ensures Tokens(n + rest) == [n] + Tokens(rest)
  {
    SpanOfName(n, rest);
    assert (n + rest)[..|n|] == n && (n + rest)[|n|..] == rest;
  }

  /** The components of a path are its names, however many slashes stand before the first,
      between them and after the last. */
  lemma {:induction false} TokensAreTheNames(names: seq<string>, slashes: seq<string>, last: string)
    requires |slashes| == |names| && OnlySlashes(last)
    requires forall k :: 0 <= k < |names| ==> IsName(names[k]) && OnlySlashes(slashes[k]) && (k > 0 ==> slashes[k] != "")
    ensures Tokens(Separated(names, slashes) + last) == names
    decreases |names|, 1
  {
    if names == [] {
      SlashesSkipped(last, "");
      assert last + "" == last == "" + last;
    } else {
      var rest := Separated(names[1..], slashes[1..]) + last;
      TokensAfterFirst(names, slashes, last);
      if names[1..] != [] {
        assert slashes[1..][0] == slashes[1];
      }
      assert Separated(names, slashes) + last == slashes[0] + (names[0] + rest);
      SlashesSkipped(slashes[0], names[0] + rest);
      assert rest == "" || rest[0] == '/';
      NameFirst(names[0], rest);
    }
  }

  lemma {:induction false} TokensAfterFirst(names: seq<string>, slashes: seq<string>, last: string)
    requires names != [] && |slashes| == |names| && OnlySlashes(last)
    requires forall k :: 0 <= k < |names| ==> IsName(names[k]) && OnlySlashes(slashes[k]) && (k > 0 ==> slashes[k] != "")
    ensures Tokens(Separated(names[1..], slashes[1..]) + last) == names[1..]
    decreases |names|, 0
  {
    forall k | 0 <= k < |names[1..]| ensures IsName(names[1..][k]) && OnlySlashes(slashes[1..][k]) && (k > 0 ==> slashes[1..][k] != "") {
      assert names[1..][k] == names[k + 1] && slashes[1..][k] == slashes[k + 1];
    }
    TokensAreTheNames(names[1..], slashes[1..], last);
  }

  /** The names from the root down to the first node on a way up. */
  function NamesDown(links: map<Id, Link>, c: seq<Id>): seq<string> {
    if c == [] then [] else NamesDown(links, c[1..]) + [NameOf(links, c[0])]
  }

  ghost predicate GoodNames(links: map<Id, Link>) {
    forall i :: i in links && links[i].Linked? ==> IsName(links[i].name)
  }

  lemma {:induction false} TokensOfPath(links: map<Id, Link>, id: Id, c: seq<Id>)
    requires IsUp(links, id, c) && GoodNames(links)
    ensures Tokens(PathTo(links, c)) == NamesDown(links, c)
    decreases |c|
  {
    if c != [] {
      TokensOfPath(links, links[id].parent, c[1..]);
      TokensAppend(PathTo(links, c[1..]), links[id].name);
    }
  }

  // ----- resolving

  /** Following names down from a node through the name table. */
  function Walk(t: Tree, dir: Id, names: seq<string>): Option<Id>
    decreases |names|
  {
    if names == [] then Some(dir)
    else if (dir, names[0]) in t.names then Walk(t, t.names[(dir, names[0])], names[1..])
    else None
  }

  function Resolve(t: Tree, path: string): Option<Id> {
    Walk(t, ROOT, Tokens(path))
  }

  lemma {:induction false} WalkAppend(t: Tree, dir: Id, names: seq<string>, n: string)
    ensures var d := Walk(t, dir, names);
            Walk(t, dir, names + [n]) == if d.Some? then Lookup(t, d.value, n) else None
    decreases |names|
  {
    if names == [] {
      assert ([] + [n])[1..] == [];
    } else {
      assert (names + [n])[1..] == names[1..] + [n];
      if (dir, names[0]) in t.names {
        WalkAppend(t, t.names[(dir, names[0])], names[1..], n);
      }
    }
  }

  /** The way up from a linked node goes through its parent. */
  lemma {:induction false} WayThroughParent(t: Tree, i: Id)
    requires WellFormed(t) && i in t.links && t.links[i].Linked?
    ensures var p, links := t.links[i].parent, t.links;
            && i != ROOT && p in links
            && UpChain(links, i) == [i] + UpChain(links, p)
            && Top(links, i, UpChain(links, i)) == Top(links, p, UpChain(links, p))
            && NamesDown(links, UpChain(links, i)) == NamesDown(links, UpChain(links, p)) + [links[i].name]
  {
    var p, c := t.links[i].parent, UpChain(t.links, i);
    assert IsUp(t.links, p, c[1..]);
    UpIsUnique(t.links, p, c[1..], UpChain(t.links, p));
    assert c == [i] + c[1..];
    OnWayIsLinked(t.links, p, c[1..]);
    assert p in t.links;
  }

  /** Following names from the root arrives at a node exactly when its way up ends at
      the root and these are the names on it. */
  lemma {:induction false} WalkArrivesExactly(t: Tree, names: seq<string>, id: Id)
    requires WellFormed(t)
    ensures Walk(t, ROOT, names) == Some(id) <==>
              && id in t.links && Top(t.links, id, UpChain(t.links, id)) == ROOT
              && names == NamesDown(t.links, UpChain(t.links, id))
    decreases |names|
  {
    hide IsUp, WellFormed;
    RootWay(t);
    if names == [] {
      if id in t.links && t.links[id].Linked? {
        WayThroughParent(t, id);
      } else if id in t.links {
        UnlinkedWay(t, id);
      }
    } else {
      var init, n := names[..|names| - 1], names[|names| - 1];
      assert names == init + [n];
      WalkAppend(t, ROOT, init, n);
      var d := Walk(t, ROOT, init);
      if id in t.links && t.links[id].Linked? {
        WayThroughParent(t, id);
        WalkArrivesExactly(t, init, t.links[id].parent);
      } else if id in t.links {
        UnlinkedWay(t, id);
      }
      LookupIsLink(t, d, n, id);
    }
  }

  lemma RootWay(t: Tree)
    requires WellFormed(t)
    ensures ROOT in t.links && UpChain(t.links, ROOT) == [] && Top(t.links, ROOT, []) == ROOT
  {
  }

  lemma UnlinkedWay(t: Tree, i: Id)
    requires WellFormed(t) && i in t.links && t.links[i].Unlinked?
    ensures UpChain(t.links, i) == [] && Top(t.links, i, []) == i
  {
  }

  lemma LookupIsLink(t: Tree, d: Option<Id>, n: string, id: Id)
    requires WellFormed(t)
    ensures d.Some? ==> (Lookup(t, d.value, n) == Some(id) <==> id in t.links && t.links[id] == Linked(d.value, n))
  {
  }

  /** `lookup_path_in_cache` finds a node exactly under the paths whose components
      are the names on its way up. */
  lemma {:induction false} ResolveExactly(t: Tree, path: string, id: Id)
    requires WellFormed(t)
    ensures Resolve(t, path) == Some(id) <==>
              && id in t.links && Top(t.links, id, UpChain(t.links, id)) == ROOT
              && Tokens(path) == NamesDown(t.links, UpChain(t.links, id))
  {
    WalkArrivesExactly(t, Tokens(path), id);
  }

  /** Resolving the path that `try_get_path` builds for a node gives the node back,
      and with a last name what that name means in it. */
  lemma {:induction false} PathRoundTrip(t: Tree, id: Id, name: Option<string>)
    requires WellFormed(t) && GoodNames(t.links) && id in t.links
    requires Top(t.links, id, UpChain(t.links, id)) == ROOT && (name.Some? ==> IsName(name.value))
    ensures Resolve(t, PathString(t.links, UpChain(t.links, id), name)) ==
              if name.Some? then Lookup(t, id, name.value) else Some(id)
  {
    hide WellFormed, GoodNames;
    var c := UpChain(t.links, id);
    var dir := PathTo(t.links, c);
    WalkArrivesExactly(t, NamesDown(t.links, c), id);
    WellFormedGrounds(t, id);
    TokensOfPath(t.links, id, c);
    if name.Some? {
      assert dir + ("/" + name.value) == dir + "/" + name.value;
      TokensAppend(dir, name.value);
      WalkAppend(t, ROOT, Tokens(dir), name.value);
    } else {
      assert dir + "" == dir;
      assert Tokens("/") == [] by {
        assert "/"[1..] == "";
      }
    }
  }
}
