/** The command line that `mount.fuse` hands to the shell: every argument in single
    quotes, and a single quote in it as '\'' (sections 2.2.1 and 2.2.2 of the Shell
    Command Language chapter of POSIX.1-2017). */
module ShellQuote {
  import opened Wrappers
  import opened CStrings

  const SIZE_MAX: nat := 0xffff_ffff_ffff_ffff

  // ----- writing

  function Body(opt: string): string {
    if opt == "" then "" else (if opt[0] == '\'' then "'\\''" else [opt[0]]) + Body(opt[1..])
  }

  function Quoted(opt: string): string {
    "'" + Body(opt) + "'"
  }

  lemma QuotedInParts(pre: string, opt: string)
    ensures pre + ['\''] + Body(opt) + ['\''] == pre + Quoted(opt)
  {
    hide Body;
  }

  lemma {:induction false} BodyOneMore(opt: string, i: nat)
    requires i < |opt|
    ensures Body(opt[..i + 1]) == Body(opt[..i]) + if opt[i] == '\'' then "'\\''" else [opt[i]]
  {
    if i == 0 {
      assert opt[..1][1..] == "";
    } else {
      BodyOneMore(opt[1..], i - 1);
      assert opt[..i + 1][1..] == opt[1..][..i] && opt[..i][1..] == opt[1..][..i - 1];
    }
  }

  lemma {:induction false} BodyHasNoNul(opt: string)
    requires NUL !in opt
    ensures NUL !in Body(opt)
  {
    if opt != "" {
      BodyHasNoNul(opt[1..]);
    }
  }

  /** The loop of `add_arg`. */
  method WriteBody(cmd: array<char>, s: nat, opt: string) returns (s': nat)
    requires s + 4 * |opt| < cmd.Length
    modifies cmd
    ensures s' <= s + 4 * |opt| && cmd[..s'] == old(cmd[..s]) + Body(opt)
  {
    s' := s;
    assert opt[..0] == "" && old(cmd[..s]) + "" == old(cmd[..s]);
    for i := 0 to |opt|
      invariant s' <= s + 4 * i && cmd[..s'] == old(cmd[..s]) + Body(opt[..i])
    {
      BodyOneMore(opt, i);
      hide Body;
      if opt[i] == '\'' {
        s' := Put(cmd, s', '\'');
        s' := Put(cmd, s', '\\');
        s' := Put(cmd, s', '\'');
        s' := Put(cmd, s', '\'');
      } else {
        s' := Put(cmd, s', opt[i]);
      }
    }
    assert opt[..|opt|] == opt;
  }

  /** `add_arg`; `tooLong` is the exit with an error message. The size computed after
      the guard does not overflow, and what is written fits into it. */
  method AddArg(cmdp: array?<char>, opt: string, ghost text: string) returns (tooLong: bool, cmd: array?<char>)
    requires NUL !in opt && |text| + 4 <= SIZE_MAX && if cmdp == null then text == "" else IsString(cmdp, text)
    ensures tooLong ==> 4 * |opt| + |text| + 8 > SIZE_MAX
    ensures !tooLong ==> |text| + 4 * |opt| + 4 <= SIZE_MAX
    ensures !tooLong ==> cmd != null && IsString(cmd, (if cmdp == null then "" else text + " ") + Quoted(opt))
  {
    hide Body;
    var cmdlen := 0;
    if cmdp != null {
      cmdlen := StrLen(cmdp, text);
    }
    if |opt| >= (SIZE_MAX - cmdlen - 4) / 4 {
      return true, null;
    }
    tooLong := false;
    var a := Extend(cmdp, cmdlen, cmdlen + |opt| * 4 + 4, text);
    var s := cmdlen;
    if cmdp != null {
      s := Put(a, s, ' ');
    }
    s := Put(a, s, '\'');
    s := WriteBody(a, s, opt);
    s := Put(a, s, '\'');
    ghost var pre := if cmdp == null then "" else text + " ";
    ghost var written := pre + Quoted(opt);
    QuotedInParts(pre, opt);
    assert a[..s] == written;
    a[s] := NUL;
    BodyHasNoNul(opt);
    assert a[..|written|] == written;
    cmd := a;
  }

  // ----- splitting as the shell does

  /** Between words, in a word, and in single quotes. */
  datatype Mode = Between | InWord | InQuotes

  /** Characters that mean something to the shell when they are not quoted, apart
      from the backslash, the single quote and blanks. */
  predicate Meta(c: char) {
    c in "|&;<>()$`\"\n*?[#~=%"
  }

  function Prepend(word: string, words: Option<seq<string>>): Option<seq<string>> {
    if words.Some? then Some([word] + words.value) else None
  }

  /** The words of a command line, with `word` read already. There is no result if
      a quote is left open, or if anything but quoting is asked of the shell. */
  function Words(s: string, mode: Mode, word: string): Option<seq<string>>
    decreases |s|
  {
    if s == "" then
      match mode
      case Between => Some([])
      case InWord => Some([word])
      case InQuotes => None
    else if mode == InQuotes then
      if s[0] == '\'' then Words(s[1..], InWord, word) else Words(s[1..], InQuotes, word + [s[0]])
    else if s[0] == ' ' || s[0] == '\t' then
      if mode == Between then Words(s[1..], Between, "") else Prepend(word, Words(s[1..], Between, ""))
    else if s[0] == '\'' then Words(s[1..], InQuotes, word)
    else if s[0] == '\\' then
      if |s| == 1 then None
      else if s[1] == '\n' then Words(s[2..], mode, word)
      else Words(s[2..], InWord, word + [s[1]])
    else if Meta(s[0]) then None
    else Words(s[1..], InWord, word + [s[0]])
  }

  // ----- round trip

  /** A single quote in an argument: the quotes are closed, a quoted quote follows,
      and the quotes are opened again. */
  lemma QuoteInQuotes(rest: string, word: string)
    ensures Words("'\\''" + rest, InQuotes, word) == Words(rest, InQuotes, word + ['\''])
  {
    var s := "'\\''" + rest;
    var t, u := "\\''" + rest, "'" + rest;
    assert s[1..] == t && t[2..] == u && u[1..] == rest;
    assert Words(s, InQuotes, word) == Words(t, InWord, word);
    assert Words(t, InWord, word) == Words(u, InWord, word + ['\'']);
  }

  lemma CharInQuotes(c: char, rest: string, word: string)
    requires c != '\''
    ensures Words([c] + rest, InQuotes, word) == Words(rest, InQuotes, word + [c])
  {
    assert ([c] + rest)[1..] == rest;
  }

  lemma BlankEndsWord(rest: string, word: string)
    ensures Words(" " + rest, InWord, word) == Prepend(word, Words(rest, Between, ""))
  {
    assert (" " + rest)[1..] == rest;
  }

  lemma Regroup(a: string, b: string, c: string)
    ensures a + b + c == a + (b + c)
  {
  }

  lemma BodyFirst(opt: string, rest: string, e: string)
    requires opt != "" && e == Body(opt[1..]) + rest
    ensures Body(opt) + rest == (if opt[0] == '\'' then "'\\''" else [opt[0]]) + e
  {
    var first, body := if opt[0] == '\'' then "'\\''" else [opt[0]], Body(opt[1..]);
    assert Body(opt) == first + body;
    hide Body;
    Regroup(first, body, rest);
  }

  lemma MoveFirst(word: string, opt: string)
    requires opt != ""
    ensures word + [opt[0]] + opt[1..] == word + opt
  {
  }

  lemma {:induction false} BodyInQuotes(opt: string, rest: string, word: string)
    ensures Words(Body(opt) + rest, InQuotes, word) == Words(rest, InQuotes, word + opt)
    decreases |opt|
  {
    if opt == "" {
      assert "" + rest == rest && word + "" == word;
    } else {
      hide *;
      var e := Body(opt[1..]) + rest;
      BodyFirst(opt, rest, e);
      if opt[0] == '\'' {
        QuoteInQuotes(e, word);
      } else {
        CharInQuotes(opt[0], e, word);
      }
      BodyInQuotes(opt[1..], rest, word + [opt[0]]);
      MoveFirst(word, opt);
    }
  }

  lemma {:induction false} QuotedIsWord(opt: string, rest: string)
    ensures Words(Quoted(opt) + rest, Between, "") == Words(rest, InWord, opt)
  {
    var s := Quoted(opt) + rest;
    assert s[0] == '\'' && s[1..] == Body(opt) + ("'" + rest);
    BodyInQuotes(opt, "'" + rest, "");
    assert "" + opt == opt && ("'" + rest)[1..] == rest;
  }

  /** The command after all of `args`, starting from an earlier one. */
  function AddAll(text: string, args: seq<string>): string
    decreases |args|
  {
    if args == [] then text else AddAll(text + " " + Quoted(args[0]), args[1..])
  }

  /** The command built from nothing by one `add_arg` per argument. */
  function Command(args: seq<string>): string {
    if args == [] then "" else AddAll(Quoted(args[0]), args[1..])
  }

  function Following(args: seq<string>): string {
    if args == [] then "" else " " + Quoted(args[0]) + Following(args[1..])
  }

  lemma {:induction false} AddAllFollows(text: string, args: seq<string>)
    ensures AddAll(text, args) == text + Following(args)
    decreases |args|
  {
    if args == [] {
      assert text + "" == text;
    } else {
      AddAllFollows(text + " " + Quoted(args[0]), args[1..]);
    }
  }

  lemma {:induction false} FollowingWords(args: seq<string>, word: string)
    ensures Words(Following(args), InWord, word) == Some([word] + args)
    decreases |args|
  {
    if args == [] {
      assert [word] + args == [word];
    } else {
      hide Words, Quoted;
      var rest := Following(args[1..]);
      BlankEndsWord(Quoted(args[0]) + rest, word);
      assert Following(args) == " " + (Quoted(args[0]) + rest);
      QuotedIsWord(args[0], rest);
      FollowingWords(args[1..], args[0]);
      assert [args[0]] + args[1..] == args;
    }
  }

  /** The shell splits the command into exactly the arguments, whatever characters
      are in them, and finds nothing in it that it would act on. */
  lemma {:induction false} ShellRoundTrip(args: seq<string>)
    ensures Words(Command(args), Between, "") == Some(args)
  {
    if args != [] {
      AddAllFollows(Quoted(args[0]), args[1..]);
      QuotedIsWord(args[0], Following(args[1..]));
      FollowingWords(args[1..], args[0]);
      assert [args[0]] + args[1..] == args;
    }
  }
}
