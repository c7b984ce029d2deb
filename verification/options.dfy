/** Options in one string: `add_opt` appends them with commas and backslashes
    escaped, `process_real_option_group` takes the string apart again, in place. */
module Options {

  import opened CStrings

  /** What is left of a string at its first NUL. */
  function Cut(s: string): string {
    if s == "" || s[0] == NUL then "" else [s[0]] + Cut(s[1..])
  }

  // ----- writing

  predicate Special(c: char) {
    c == ',' || c == '\\'
  }

  function Coded(c: char): string {
    if Special(c) then ['\\', c] else [c]
  }

  function Escape(opt: string): string {
    if opt == "" then "" else Coded(opt[0]) + Escape(opt[1..])
  }

  function Encoded(opt: string, esc: bool): string {
    if esc then Escape(opt) else opt
  }

  /** The string after one more option: no comma after an empty string. */
  function Appended(text: string, opt: string, esc: bool): string {
    (if text == "" then "" else text + ",") + Encoded(opt, esc)
  }

  lemma {:induction false} EscapeOneMore(opt: string, c: char)
    ensures Escape(opt + [c]) == Escape(opt) + Coded(c)
  {
    if opt == "" {
      assert ([] + [c])[1..] == [];
    } else {
      hide Coded;
      EscapeOneMore(opt[1..], c);
      assert (opt + [c])[1..] == opt[1..] + [c];
      Regroup(Coded(opt[0]), Escape(opt[1..]), Coded(c));
    }
  }

  lemma Regroup(a: string, b: string, c: string)
    ensures a + b + c == a + (b + c)
  {
  }

  lemma EncodedOneMore(opt: string, esc: bool, i: nat)
    requires i < |opt|
    ensures Encoded(opt[..i + 1], esc) == Encoded(opt[..i], esc) + if esc then Coded(opt[i]) else [opt[i]]
  {
    EscapeOneMore(opt[..i], opt[i]);
    assert opt[..i + 1] == opt[..i] + [opt[i]];
  }

  lemma {:induction false} EscapeHasNoNul(opt: string)
    requires NUL !in opt
    ensures NUL !in Escape(opt)
  {
    if opt != "" {
      EscapeHasNoNul(opt[1..]);
    }
  }

  /** The loop of `add_opt_common`: everything it writes fits. */
  method Write(a: array<char>, d: nat, opt: string, esc: bool) returns (d': nat)
    requires d + 2 * |opt| < a.Length
    modifies a
    ensures d' < a.Length && a[..d'] == old(a[..d]) + Encoded(opt, esc)
  {
    hide Encoded;
    d' := d;
    EncodedEnds(opt, esc);
    for i := 0 to |opt|
      invariant d' <= d + 2 * i
      invariant a[..d'] == old(a[..d]) + Encoded(opt[..i], esc)
    {
      EncodedOneMore(opt, esc, i);
      if esc && (opt[i] == ',' || opt[i] == '\\') {
        d' := Put(a, d', '\\');
      }
      d' := Put(a, d', opt[i]);
    }
  }

  lemma EncodedEnds(opt: string, esc: bool)
    ensures Encoded(opt[..0], esc) == "" && opt[..|opt|] == opt
  {
  }

  /** `add_opt_common`. */
  method AddOpt(opts: array?<char>, opt: string, esc: bool, memory: bool, ghost text: string)
    returns (ok: bool, opts': array?<char>)
    requires NUL !in opt && if opts == null then text == "" else IsString(opts, text)
    ensures ok == memory && (!ok ==> opts' == opts)
    ensures ok ==> opts' != null && IsString(opts', Appended(text, opt, esc))
  {
    var oldlen := 0;
    if opts != null {
      oldlen := StrLen(opts, text);
    }
    if !memory {
      return false, opts;
    }
    ok := true;
    var a := Extend(opts, oldlen, oldlen + 1 + |opt| * 2 + 1, text);
    var d := oldlen;
    if oldlen > 0 {
      d := Put(a, d, ',');
    }
    d := Write(a, d, opt, esc);
    a[d] := NUL;
    opts' := a;
    EscapeHasNoNul(opt);
  }

  // ----- reading

  /** A backslash with three octal digits, the first at most 3. */
  predicate IsOctal(s: string) {
    |s| >= 4 && s[0] == '\\' && '0' <= s[1] <= '3' && '0' <= s[2] <= '7' && '0' <= s[3] <= '7'
  }

  function OctalValue(a: char, b: char, c: char): char
    requires '0' <= a <= '3' && '0' <= b <= '7' && '0' <= c <= '7'
  {
    ((a as int - '0' as int) * 64 + (b as int - '0' as int) * 8 + (c as int - '0' as int)) as char
  }

  /** The next character of an option and how far it reaches. */
  function Unescape(s: string): (char, nat)
    requires s != ""
  {
    if IsOctal(s) then (OctalValue(s[1], s[2], s[3]), 4)
    else if s[0] == '\\' && |s| > 1 then (s[1], 2)
    else (s[0], 1)
  }

  /** The options that the string `s` stands for, `acc` being read already. */
  function Parse(s: string, acc: string): seq<string>
    decreases |s|
  {
    if s == "" then [Cut(acc)]
    else if s[0] == ',' then [Cut(acc)] + Parse(s[1..], "")
    else
      var (c, n) := Unescape(s);
      Parse(s[n..], acc + [c])
  }

  /** The unread rest of `text` is still in place. */
  ghost predicate Unread(a: array<char>, text: string, s: nat)
    reads a
  {
    s <= |text| < a.Length && a[s..|text|] == text[s..] && a[|text|] == NUL && NUL !in text
  }

  lemma UnreadAt(a: array<char>, text: string, s: nat)
    requires Unread(a, text, s)
    ensures s <= |text| < a.Length && a[|text|] == NUL
    ensures forall k :: s <= k < |text| ==> a[k] == text[k] && text[k] != NUL
  {
  }

  lemma UnreadHere(a: array<char>, text: string, s: nat)
    requires Unread(a, text, s)
    ensures s <= |text| && s < a.Length && (a[s] == NUL <==> s == |text|)
    ensures s < |text| ==> a[s] == text[s]
  {
    UnreadAt(a, text, s);
  }

  ghost predicate CutUpTo(s: string, n: nat) {
    n <= |s| && Cut(s) == s[..n] + Cut(s[n..])
  }

  lemma CutStarts(s: string)
    ensures CutUpTo(s, 0)
  {
    assert s[..0] == "" && s[0..] == s;
    hide Cut;
  }

  lemma CutOneMore(s: string, n: nat)
    requires CutUpTo(s, n) && n < |s| && s[n] != NUL
    ensures CutUpTo(s, n + 1)
  {
    assert s[n..][1..] == s[n + 1..];
    assert Cut(s[n..]) == [s[n]] + Cut(s[n + 1..]);
    hide Cut;
  }

  lemma CutEnds(s: string, n: nat)
    requires CutUpTo(s, n) && (n == |s| || s[n] == NUL)
    ensures Cut(s) == s[..n]
  {
    assert Cut(s[n..]) == "";
    hide Cut;
  }

  /** Passes on the option read so far, `acc`, which the NUL at `d` ends. */
  method Pass(a: array<char>, s: nat, d: nat, ghost text: string) returns (arg: string)
    requires d <= s && Unread(a, text, s)
    modifies a
    ensures arg == Cut(old(a[..d])) && (s < |text| ==> s + 1 <= |text| && Unread(a, text, s + 1))
  {
    hide CutUpTo, Cut;
    UnreadAt(a, text, s);
    ghost var acc := a[..d];
    a[d] := NUL;
    assert s < |text| ==> Unread(a, text, s + 1);
    hide Unread;
    CutStarts(acc);
    var n := 0;
    while a[n] != NUL
      invariant n <= d && a[..d] == acc && a[d] == NUL && CutUpTo(acc, n)
      invariant s < |text| ==> Unread(a, text, s + 1)
      decreases d - n
    {
      CutOneMore(acc, n);
      n := n + 1;
    }
    CutEnds(acc, n);
    arg := a[..n];
    assert arg == a[..d][..n];
  }

  /** Reads one character of an option, escaped or not. */
  method Take(a: array<char>, s: nat, d: nat, ghost text: string) returns (s': nat, d': nat)
    requires d <= s < |text| && Unread(a, text, s)
    modifies a
    ensures Unread(a, text, s') && d' <= s' && s < s' <= |text|
    ensures var (c, n) := Unescape(text[s..]); s' == s + n && a[..d'] == old(a[..d]) + [c] && d' == d + 1
  {
    UnreadAt(a, text, s);
    s' := s;
    if a[s'] == '\\' && a[s' + 1] != NUL {
      s' := s' + 1;
      if '0' <= a[s'] <= '3' && '0' <= a[s' + 1] <= '7' && '0' <= a[s' + 2] <= '7' {
        d' := Put(a, d, OctalValue(a[s'], a[s' + 1], a[s' + 2]));
        s' := s' + 2;
      } else {
        d' := Put(a, d, a[s']);
      }
    } else {
      d' := Put(a, d, a[s']);
    }
    s' := s' + 1;
  }

  lemma UnreadStart(a: array<char>, text: string)
    requires IsString(a, text)
    ensures Unread(a, text, 0) && text[0..] == text && a[..0] == ""
  {
  }

  lemma ParseEnds(text: string, s: nat, acc: string)
    requires s <= |text|
    ensures s == |text| ==> Parse(text[s..], acc) == [Cut(acc)] == [Cut(acc)] + []
    ensures s < |text| && text[s] == ',' ==> Parse(text[s..], acc) == [Cut(acc)] + Parse(text[s + 1..], "")
    ensures s < |text| && text[s] != ',' ==>
              var (c, n) := Unescape(text[s..]); Parse(text[s..], acc) == Parse(text[s + n..], acc + [c])
  {
  }

  ghost predicate AllAccepted(accepts: (nat, string) -> bool, passed: seq<string>) {
    forall k :: 0 <= k < |passed| ==> accepts(k, passed[k])
  }

  /** All but the last of the options were accepted. */
  ghost predicate LastRefused(accepts: (nat, string) -> bool, passed: seq<string>) {
    var k := |passed| - 1;
    k >= 0 && AllAccepted(accepts, passed[..k]) && !accepts(k, passed[k])
  }

  lemma AcceptOneMore(accepts: (nat, string) -> bool, passed: seq<string>, arg: string)
    requires AllAccepted(accepts, passed)
    ensures if accepts(|passed|, arg) then AllAccepted(accepts, passed + [arg]) else LastRefused(accepts, passed + [arg])
  {
    assert (passed + [arg])[..|passed|] == passed;
  }

  /** The options passed on so far, with the character array read up to position `s`. */
  ghost predicate PassedOn(text: string, passed: seq<string>, end: bool, s: nat, acc: string) {
    if end then Parse(text, "") == passed else s <= |text| && Parse(text, "") == passed + Parse(text[s..], acc)
  }

  lemma StartPassing(accepts: (nat, string) -> bool, text: string)
    ensures AllAccepted(accepts, []) && PassedOn(text, [], false, 0, "")
  {
    assert text[0..] == text;
  }

  lemma PassedMeans(text: string, passed: seq<string>, end: bool, s: nat, acc: string)
    requires PassedOn(text, passed, end, s, acc)
    ensures passed <= Parse(text, "") && (end ==> passed == Parse(text, ""))
  {
    hide Parse;
  }

  lemma ShiftOption(passed: seq<string>, arg: string, rest: seq<string>)
    ensures passed + ([arg] + rest) == passed + [arg] + rest
  {
  }

  lemma PassOneOn(text: string, passed: seq<string>, s: nat, acc: string)
    requires PassedOn(text, passed, false, s, acc) && (s == |text| || text[s] == ',')
    ensures PassedOn(text, passed + [Cut(acc)], s == |text|, s + 1, "")
  {
    ParseEnds(text, s, acc);
    hide Parse, Cut;
    if s < |text| {
      ShiftOption(passed, Cut(acc), Parse(text[s + 1..], ""));
    }
  }

  lemma ReadOneOn(text: string, passed: seq<string>, s: nat, acc: string)
    requires PassedOn(text, passed, false, s, acc) && s < |text| && text[s] != ','
    ensures var (c, n) := Unescape(text[s..]); PassedOn(text, passed, false, s + n, acc + [c])
  {
    ParseEnds(text, s, acc);
    hide Parse;
  }

  /** `process_real_option_group`: `s` reads and `d` writes in the same array, and
      the writer never overtakes the reader. Option `k` goes to `process_gopt`, which
      ends the loop if it does not accept it. */
  method ProcessRealOptionGroup(opts: array<char>, accepts: (nat, string) -> bool, ghost text: string)
    returns (ok: bool, passed: seq<string>)
    requires IsString(opts, text)
    modifies opts
    ensures passed <= Parse(text, "")
    ensures ok ==> passed == Parse(text, "") && AllAccepted(accepts, passed)
    ensures !ok ==> LastRefused(accepts, passed)
  {
    hide *;
    ok, passed := true, [];
    var s, d, end := 0, 0, false;
    UnreadStart(opts, text);
    StartPassing(accepts, text);
    while !end
      invariant 0 <= d <= s && d <= opts.Length && (!end ==> Unread(opts, text, s) && s <= |text|)
      invariant ok && AllAccepted(accepts, passed) && PassedOn(text, passed, end, s, opts[..d])
      decreases if end then 0 else |text| + 1 - s
    {
      UnreadHere(opts, text, s);
      if opts[s] == NUL {
        end := true;
      }
      if opts[s] == ',' || end {
        PassOneOn(text, passed, s, opts[..d]);
        var arg := Pass(opts, s, d, text);
        AcceptOneMore(accepts, passed, arg);
        ok, passed := accepts(|passed|, arg), passed + [arg];
        if !ok {
          PassedMeans(text, passed, end, s + 1, "");
          return;
        }
        d := 0;
        assert opts[..d] == "";
        s := s + 1;
      } else {
        ReadOneOn(text, passed, s, opts[..d]);
        s, d := Take(opts, s, d, text);
      }
    }
    PassedMeans(text, passed, end, s, opts[..d]);
  }

  // ----- round trip

  /** All of `list` appended, one after the other. */
  function AppendAll(text: string, list: seq<string>): string
    decreases |list|
  {
    if list == [] then text else AppendAll(Appended(text, list[0], true), list[1..])
  }

  lemma CutKeeps(s: string)
    requires NUL !in s
    ensures Cut(s) == s
  {
  }

  lemma ParseCharacter(c: char, e: string, acc: string)
    ensures Parse(Coded(c) + e, acc) == Parse(e, acc + [c])
  {
  }

  /** Reading an escaped option gives the option, whatever follows. */
  lemma {:induction false} ParseEscaped(opt: string, rest: string, acc: string)
    ensures Parse(Escape(opt) + rest, acc) == Parse(rest, acc + opt)
    decreases |opt|
  {
    if opt == "" {
      assert "" + rest == rest && acc + "" == acc;
    } else {
      hide Parse, Coded;
      var c, e := opt[0], Escape(opt[1..]) + rest;
      ParseCharacter(c, e, acc);
      Regroup(Coded(c), Escape(opt[1..]), rest);
      ParseEscaped(opt[1..], rest, acc + [c]);
      Regroup(acc, [c], opt[1..]);
      assert [c] + opt[1..] == opt;
    }
  }

  /** The options that follow a first one, each after its comma. */
  function Following(list: seq<string>): string {
    if list == [] then "" else "," + Escape(list[0]) + Following(list[1..])
  }

  lemma {:induction false} AppendAllFollows(text: string, list: seq<string>)
    requires text != ""
    ensures AppendAll(text, list) == text + Following(list)
    decreases |list|
  {
    if list != [] {
      AppendAllFollows(Appended(text, list[0], true), list[1..]);
    }
  }

  lemma {:induction false} ParseFollowing(list: seq<string>, acc: string)
    requires NUL !in acc && forall o :: o in list ==> NUL !in o
    ensures Parse(Following(list), acc) == [acc] + list
    decreases |list|
  {
    CutKeeps(acc);
    if list != [] {
      var s := Following(list);
      assert s[1..] == Escape(list[0]) + Following(list[1..]);
      assert list[0] in list;
      ParseEscaped(list[0], Following(list[1..]), "");
      assert "" + list[0] == list[0];
      ParseFollowing(list[1..], list[0]);
      assert list == [list[0]] + list[1..];
    }
  }

  /** The list without the empty options at its front, of which one stays if there
      is nothing else. */
  function Trimmed(list: seq<string>): seq<string> {
    if |list| > 1 && list[0] == "" then Trimmed(list[1..]) else list
  }

  /** Taking apart what was put together gives the same options, except that empty
      ones at the front are lost. */
  lemma {:induction false} OptionsRoundTrip(list: seq<string>)
    requires list != [] && forall o :: o in list ==> NUL !in o
    ensures Parse(AppendAll("", list), "") == Trimmed(list)
    decreases |list|
  {
    var o := list[0];
    assert o in list && Appended("", o, true) == Escape(o);
    if o == "" && |list| > 1 {
      OptionsRoundTrip(list[1..]);
    } else {
      ParseEscaped(o, Following(list[1..]), "");
      assert "" + o == o && [o] + list[1..] == list;
      ParseFollowing(list[1..], o);
      if |list| > 1 {
        AppendAllFollows(Escape(o), list[1..]);
      } else {
        assert list[1..] == [] && Escape(o) + Following([]) == Escape(o);
      }
    }
  }

  /** So they come back unchanged exactly if the first is not empty or is alone. */
  lemma {:induction false} RoundTripExactly(list: seq<string>)
    requires list != [] && forall o :: o in list ==> NUL !in o
    ensures Parse(AppendAll("", list), "") == list <==> list[0] != "" || |list| == 1
  {
    OptionsRoundTrip(list);
    if |list| > 1 && list[0] == "" {
      TrimmedIsShorter(list[1..]);
    }
  }

  lemma {:induction false} TrimmedIsShorter(list: seq<string>)
    ensures |Trimmed(list)| <= |list|
  {
    if |list| > 1 && list[0] == "" {
      TrimmedIsShorter(list[1..]);
    }
  }

  // ----- every way to spell an option

  datatype Form = Plain | Backslash | Octal

  function Digit(n: nat): char
    requires n < 8
  {
    ('0' as int + n) as char
  }

  /** A character as it is, with a backslash before it, or as its code in octal. */
  function Spelled(c: char, form: Form): string
    requires form == Octal ==> c as int < 256
  {
    match form
    case Plain => [c]
    case Backslash => ['\\', c]
    case Octal => ['\\', Digit(c as int / 64), Digit(c as int / 8 % 8), Digit(c as int % 8)]
  }

  function Chars(spelling: seq<(char, Form)>): string {
    if spelling == [] then "" else [spelling[0].0] + Chars(spelling[1..])
  }

  ghost predicate Codes(spelling: seq<(char, Form)>) {
    forall k :: 0 <= k < |spelling| && spelling[k].1 == Octal ==> spelling[k].0 as int < 256
  }

  function Spell(spelling: seq<(char, Form)>): string
    requires Codes(spelling)
  {
    if spelling == [] then "" else Spelled(spelling[0].0, spelling[0].1) + Spell(spelling[1..])
  }

  /** A plain character is no comma and no backslash, and a backslash with a character
      does not begin three octal digits by accident. */
  ghost predicate Unambiguous(spelling: seq<(char, Form)>, rest: string)
    requires Codes(spelling)
    decreases |spelling|
  {
    spelling == [] ||
    var (c, form) := spelling[0];
    && (form == Plain ==> !Special(c))
    && (form == Backslash ==> !IsOctal(Spell(spelling) + rest))
    && Unambiguous(spelling[1..], rest)
  }

  lemma DigitValue(a: nat, b: nat, c: nat)
    requires a < 4 && b < 8 && c < 8
    ensures '0' <= Digit(a) <= '3' && '0' <= Digit(b) <= '7' && '0' <= Digit(c) <= '7'
    ensures OctalValue(Digit(a), Digit(b), Digit(c)) as int == a * 64 + b * 8 + c
  {
  }

  lemma OctalParts(n: nat)
    requires n < 256
    ensures n / 64 < 4 && n / 8 % 8 < 8 && n % 8 < 8 && n / 64 * 64 + n / 8 % 8 * 8 + n % 8 == n
  {
  }

  /** Three octal digits stand for the character with that code. */
  lemma {:induction false} OctalStandsFor(c: char, rest: string)
    requires c as int < 256
    ensures Unescape(Spelled(c, Octal) + rest) == (c, 4)
  {
    OctalParts(c as int);
    DigitValue(c as int / 64, c as int / 8 % 8, c as int % 8);
    assert Spelled(c, Octal)[0] == '\\';
  }

  /** However its characters are spelled, the option is read as these characters. */
  lemma {:induction false} ParseSpelled(spelling: seq<(char, Form)>, rest: string, acc: string)
    requires Codes(spelling) && Unambiguous(spelling, rest)
    ensures Parse(Spell(spelling) + rest, acc) == Parse(rest, acc + Chars(spelling))
    decreases |spelling|
  {
    if spelling == [] {
      assert "" + rest == rest && acc + "" == acc;
    } else {
      var (c, form) := spelling[0];
      var e := Spell(spelling[1..]) + rest;
      SpellFirst(spelling, rest, e);
      ParseOne(c, form, e, acc);
      hide Parse, Spell, Spelled, IsOctal, Chars;
      ParseSpelled(spelling[1..], rest, acc + [c]);
      CharsFirst(spelling, acc);
    }
  }

  lemma SpellFirst(spelling: seq<(char, Form)>, rest: string, e: string)
    requires Codes(spelling) && spelling != [] && e == Spell(spelling[1..]) + rest
    ensures Spell(spelling) + rest == Spelled(spelling[0].0, spelling[0].1) + e
  {
    var first, more := Spelled(spelling[0].0, spelling[0].1), Spell(spelling[1..]);
    assert Spell(spelling) == first + more;
    hide Spell, Spelled;
    Regroup(first, more, rest);
  }

  lemma CharsFirst(spelling: seq<(char, Form)>, acc: string)
    requires spelling != []
    ensures acc + [spelling[0].0] + Chars(spelling[1..]) == acc + Chars(spelling)
  {
    Regroup(acc, [spelling[0].0], Chars(spelling[1..]));
  }

  lemma {:induction false} ParseOne(c: char, form: Form, e: string, acc: string)
    requires (form == Octal ==> c as int < 256) && (form == Plain ==> !Special(c))
    requires form == Backslash ==> !IsOctal(Spelled(c, form) + e)
    ensures Parse(Spelled(c, form) + e, acc) == Parse(e, acc + [c])
  {
    var s := Spelled(c, form) + e;
    if form == Octal {
      OctalStandsFor(c, e);
    }
    assert s != "" && s[0] != ',' && Unescape(s) == (c, |Spelled(c, form)|);
    assert s[|Spelled(c, form)|..] == e;
    hide Unescape, Spelled;
  }
}
