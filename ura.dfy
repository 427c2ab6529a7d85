/**
 * The `ura` command-line wrapper of src/lib/ura.ts: parsing the output of
 * `ura --help` into a dictionary of commands with their required `<…>` and
 * optional `[…]` arguments, caching it, and parsing only when the version
 * probe found the tool. The output of `ura --version` and `ura --help` are
 * inputs, and the per-line pattern is an oracle (`LineMatch`).
 */
module Ura {
  import opened Wrappers
  import opened Text

  // ---------------------------------------------------------------------
  // Bracketed arguments
  // ---------------------------------------------------------------------

  /** The first index at or after `from` holding `close` or a line terminator, or `|s|`. */
  function FirstStop(s: string, close: char, from: nat): (e: nat)
    requires from <= |s|
    ensures from <= e <= |s|
    ensures forall k :: from <= k < e ==> s[k] != close && !IsLineTerminator(s[k])
    ensures e < |s| ==> s[e] == close || IsLineTerminator(s[e])
    decreases |s| - from
  {
    if from == |s| || s[from] == close || IsLineTerminator(s[from]) then from else FirstStop(s, close, from + 1)
  }

  /**
   * `s.match(/<.*?>/g)` for the brackets `open` and `close`: from each
   * `open`, the shortest run up to a `close` that stays on one line; the
   * scan resumes after each match.
   */
  function BracketMatches(s: string, open: char, close: char): seq<string>
    decreases |s|
  {
    if s == [] then []
    else if s[0] == open then
      var e := FirstStop(s, close, 1);
      if e < |s| && s[e] == close then [s[..e + 1]] + BracketMatches(s[e + 1..], open, close)
      else BracketMatches(s[1..], open, close)
    else BracketMatches(s[1..], open, close)
  }

  /** `.replace(/[<>]/g, "")`: every bracket character removed. */
  function StripBrackets(s: string, open: char, close: char): (r: string)
    ensures open !in r && close !in r
    ensures open !in s && close !in s ==> r == s
  {
    if s == [] then []
    else (if s[0] == open || s[0] == close then [] else [s[0]]) + StripBrackets(s[1..], open, close)
  }

  /** `usage.match(/<.*?>/g)?.map(…)`: the bracket contents in order, `None` when there is no match. */
  function ArgList(usage: string, open: char, close: char): (r: Option<seq<string>>)
    ensures r.None? <==> BracketMatches(usage, open, close) == []
    ensures r.Some? ==> forall a :: a in r.value ==> open !in a && close !in a
  {
    var ms := BracketMatches(usage, open, close);
    if ms == [] then None
    else
      var r := seq(|ms|, i requires 0 <= i < |ms| => StripBrackets(ms[i], open, close));
      assert forall a :: a in r ==> exists i :: 0 <= i < |ms| && a == StripBrackets(ms[i], open, close);
      Some(r)
  }

  /** Required arguments, written `<name>`. */
  function Args(usage: string): Option<seq<string>> {
    ArgList(usage, '<', '>')
  }

  /** Optional arguments, written `[name]`. */
  function OptArgs(usage: string): Option<seq<string>> {
    ArgList(usage, '[', ']')
  }

  /** Text before the first bracket is skipped, and a one-line bracketed run is one match. */
  lemma {:induction false} BracketMatchesStep(pre: string, content: string, rest: string, open: char, close: char)
    requires open !in pre && close !in content && open != close
    requires forall k :: 0 <= k < |content| ==> !IsLineTerminator(content[k])
    ensures BracketMatches(pre + [open] + content + [close] + rest, open, close) ==
      [[open] + content + [close]] + BracketMatches(rest, open, close)
  {
    var s := pre + [open] + content + [close] + rest;
    if pre == [] {
      assert s == [open] + content + [close] + rest;
      var e := FirstStop(s, close, 1);
      assert s[1 + |content|] == close;
      assert forall k :: 1 <= k < 1 + |content| ==> s[k] == content[k - 1];
      assert e == 1 + |content|;
      assert s[..e + 1] == [open] + content + [close];
      assert s[e + 1..] == rest;
    } else {
      assert s[0] == pre[0] && s[0] != open;
      assert s[1..] == pre[1..] + [open] + content + [close] + rest;
      BracketMatchesStep(pre[1..], content, rest, open, close);
    }
  }

  /** Arguments written out one after another, each in brackets and followed by a space. */
  function Bracketed(args: seq<string>, open: char, close: char): string {
    if args == [] then [] else [open] + args[0] + [close, ' '] + Bracketed(args[1..], open, close)
  }

  /** Plain argument names: no brackets of the kind and no line terminator. */
  predicate PlainArgs(args: seq<string>, open: char, close: char) {
    forall i :: 0 <= i < |args| ==>
      open !in args[i] && close !in args[i] && forall k :: 0 <= k < |args[i]| ==> !IsLineTerminator(args[i][k])
  }

  /** Parsing what `Bracketed` writes gives the arguments back. */
  lemma {:induction false} ArgListRoundTrip(args: seq<string>, open: char, close: char)
    requires PlainArgs(args, open, close) && open != close && open != ' ' && !IsLineTerminator(open)
    ensures args != [] ==> ArgList(Bracketed(args, open, close), open, close) == Some(args)
    ensures args == [] ==> ArgList(Bracketed(args, open, close), open, close) == None
  {
    MatchesOfBracketed(args, open, close);
    if args != [] {
      var ms := BracketMatches(Bracketed(args, open, close), open, close);
      var r := ArgList(Bracketed(args, open, close), open, close).value;
      forall i | 0 <= i < |args| ensures r[i] == args[i] {
        assert ms[i] == [open] + args[i] + [close];
        StripWrapped(args[i], open, close);
      }
      assert r == args;
    }
  }

  lemma {:induction false} MatchesOfBracketed(args: seq<string>, open: char, close: char)
    requires PlainArgs(args, open, close) && open != close && open != ' ' && !IsLineTerminator(open)
    ensures var ms := BracketMatches(Bracketed(args, open, close), open, close);
      |ms| == |args| && forall i :: 0 <= i < |args| ==> ms[i] == [open] + args[i] + [close]
  {
    if args != [] {
      PlainArgsTail(args, open, close);
      MatchesOfBracketed(args[1..], open, close);
      BracketedStep(args, open, close);
    }
  }

  lemma PlainArgsTail(args: seq<string>, open: char, close: char)
    requires args != [] && PlainArgs(args, open, close)
    ensures PlainArgs(args[1..], open, close)
  {
    forall i | 0 <= i < |args[1..]| ensures args[1..][i] == args[i + 1] { }
  }

  /** The matches of written arguments: the first one, then those of the rest. */
  lemma BracketedStep(args: seq<string>, open: char, close: char)
    requires args != [] && PlainArgs(args, open, close) && open != close && open != ' '
    ensures BracketMatches(Bracketed(args, open, close), open, close) ==
      [[open] + args[0] + [close]] + BracketMatches(Bracketed(args[1..], open, close), open, close)
  {
    var tail := Bracketed(args[1..], open, close);
    var rest := [' '] + tail;
    assert Bracketed(args, open, close) == [] + [open] + args[0] + [close] + rest;
    BracketMatchesStep([], args[0], rest, open, close);
    assert rest[0] == ' ' && rest[1..] == tail;
  }

  lemma StripWrapped(a: string, open: char, close: char)
    requires open !in a && close !in a && open != close
    ensures StripBrackets([open] + a + [close], open, close) == a
  {
    var w := [open] + a + [close];
    assert w[1..] == a + [close];
    StripConcat(a, [close], open, close);
    assert StripBrackets([close], open, close) == [] by { assert [close][1..] == []; }
  }

  lemma {:induction false} StripConcat(a: string, b: string, open: char, close: char)
    ensures StripBrackets(a + b, open, close) == StripBrackets(a, open, close) + StripBrackets(b, open, close)
  {
    if a == [] {
      assert a + b == b;
    } else {
      assert (a + b)[1..] == a[1..] + b;
      StripConcat(a[1..], b, open, close);
    }
  }

  /** One bracketed argument between text that holds no opening bracket gives just that argument. */
  lemma SingleArg(pre: string, a: string, post: string, open: char, close: char)
    requires open !in pre && open !in post && open != close
    requires close !in a && open !in a && forall k :: 0 <= k < |a| ==> !IsLineTerminator(a[k])
    ensures ArgList(pre + [open] + a + [close] + post, open, close) == Some([a])
  {
    BracketMatchesStep(pre, a, post, open, close);
    NoOpenNoMatches(post, open, close);
    var ms := BracketMatches(pre + [open] + a + [close] + post, open, close);
    assert ms == [[open] + a + [close]];
    StripWrapped(a, open, close);
    var r := ArgList(pre + [open] + a + [close] + post, open, close).value;
    assert |r| == 1 && r[0] == StripBrackets(ms[0], open, close);
    assert r == [a];
  }

  /** The usage "<name> [dir]" has the required argument "name" and the optional one "dir". */
  lemma UsageExample()
    ensures Args("<name> [dir]") == Some(["name"])
    ensures OptArgs("<name> [dir]") == Some(["dir"])
  {
    UsageRequired();
    UsageOptional();
  }

  lemma UsageRequired()
    ensures Args("<name> [dir]") == Some(["name"])
  {
    var name, post := "name", " [dir]";
    assert '<' !in post && '>' !in name && '<' !in name;
    assert "<name> [dir]" == [] + ['<'] + name + ['>'] + post;
    SingleArg([], name, post, '<', '>');
  }

  lemma UsageOptional()
    ensures OptArgs("<name> [dir]") == Some(["dir"])
  {
    var pre, dir := "<name> ", "dir";
    assert '[' !in pre && ']' !in dir && '[' !in dir;
    assert "<name> [dir]" == pre + ['['] + dir + [']'] + [];
    SingleArg(pre, dir, [], '[', ']');
  }

  lemma {:induction false} NoOpenNoMatches(s: string, open: char, close: char)
    requires open !in s
    ensures BracketMatches(s, open, close) == []
  {
    if s != [] {
      assert s[0] in s;
      assert open !in s[1..] by {
        forall k | 0 <= k < |s[1..]| ensures s[1..][k] != open { assert s[1..][k] == s[k + 1]; }
      }
      NoOpenNoMatches(s[1..], open, close);
    }
  }

  // ---------------------------------------------------------------------
  // The help text
  // ---------------------------------------------------------------------

  const HEADER: string := "Commands:\n"

  /** Where `(.*\n)*` stops from `from`: after the last complete line it can take. */
  function CommandBlockEnd(s: string, from: nat): (e: nat)
    requires from <= |s|
    ensures from <= e <= |s|
    ensures e == from || s[e - 1] == '\n'
    ensures forall k :: from <= k < e ==> s[k] == '\n' || !IsLineTerminator(s[k])
    ensures !(LineEnd(s, e) < |s| && s[LineEnd(s, e)] == '\n')
    decreases |s| - from
  {
    var l := LineEnd(s, from);
    if l < |s| && s[l] == '\n' then CommandBlockEnd(s, l + 1) else from
  }

  /**
   * The lines `getCommands` parses: the first match of the header
   * "Commands:" with its newline, followed by as many complete lines as
   * possible, without its header and split at "\n"; no lines when the
   * help has no header.
   */
  function CommandLines(help: string): seq<string> {
    match IndexOf(help, HEADER)
    case None => []
    case Some(i) =>
      var start := i + |HEADER|;
      SplitLines(help[start..CommandBlockEnd(help, start)])
  }

  /**
   * The parsed lines are exactly the complete lines that follow the first
   * header, up to the first line the block cannot take; they end with the
   * empty piece after the block's final "\n".
   */
  lemma CommandLinesFacts(help: string)
    ensures IndexOf(help, HEADER).None? ==> CommandLines(help) == []
    ensures IndexOf(help, HEADER).Some? ==>
      var start := IndexOf(help, HEADER).value + |HEADER|;
      var lines := CommandLines(help);
      start <= |help| && OccursAt(help, HEADER, start - |HEADER|) &&
      JoinLines(lines) == help[start..CommandBlockEnd(help, start)] &&
      lines[|lines| - 1] == [] &&
      forall j :: 0 <= j < |lines| ==> forall k :: 0 <= k < |lines[j]| ==> !IsLineTerminator(lines[j][k])
  {
    if IndexOf(help, HEADER).Some? {
      var start := IndexOf(help, HEADER).value + |HEADER|;
      var e := CommandBlockEnd(help, start);
      assert CommandLines(help) == SplitLines(help[start..e]);
      BlockBody(help, start, e);
    }
  }

  /** The pieces of a stretch of `help` that consists of complete lines. */
  lemma BlockBody(help: string, start: nat, e: nat)
    requires start <= e <= |help| && (e == start || help[e - 1] == '\n')
    requires forall k :: start <= k < e ==> help[k] == '\n' || !IsLineTerminator(help[k])
    ensures var lines := SplitLines(help[start..e]);
      JoinLines(lines) == help[start..e] && lines[|lines| - 1] == [] &&
      forall j :: 0 <= j < |lines| ==> forall k :: 0 <= k < |lines[j]| ==> !IsLineTerminator(lines[j][k])
  {
    var body := help[start..e];
    forall k | 0 <= k < |body| ensures body[k] == '\n' || !IsLineTerminator(body[k]) {
      assert body[k] == help[start + k];
    }
    BlockLines(body);
  }

  /** The pieces of a block of complete lines: they join back to it, the last one is empty, none holds a terminator. */
  lemma BlockLines(body: string)
    requires body == [] || body[|body| - 1] == '\n'
    requires forall k :: 0 <= k < |body| ==> body[k] == '\n' || !IsLineTerminator(body[k])
    ensures var lines := SplitLines(body);
      JoinLines(lines) == body && lines[|lines| - 1] == [] &&
      forall j :: 0 <= j < |lines| ==> forall k :: 0 <= k < |lines[j]| ==> !IsLineTerminator(lines[j][k])
  {
    SplitLinesShape(body);
    SplitLinesLast(body);
    NoTerminatorsInPieces(body);
  }

  /** Pieces of a text whose only line terminators are "\n" hold no line terminator. */
  lemma NoTerminatorsInPieces(body: string)
    requires forall k :: 0 <= k < |body| ==> body[k] == '\n' || !IsLineTerminator(body[k])
    ensures forall j :: 0 <= j < |SplitLines(body)| ==> forall k :: 0 <= k < |SplitLines(body)[j]| ==> !IsLineTerminator(SplitLines(body)[j][k])
  {
    SplitLinesShape(body);
    forall j, k | 0 <= j < |SplitLines(body)| && 0 <= k < |SplitLines(body)[j]|
      ensures !IsLineTerminator(SplitLines(body)[j][k])
    {
      PieceCharsFromBody(body, j, k);
    }
  }

  /** Every character of a piece of `split("\n")` is a character of the text. */
  lemma {:induction false} PieceCharsFromBody(body: string, j: nat, k: nat)
    requires j < |SplitLines(body)| && k < |SplitLines(body)[j]|
    ensures SplitLines(body)[j][k] in body
    decreases |body|
  {
    if body != [] {
      var tail := SplitLines(body[1..]);
      if body[0] == '\n' {
        PieceCharsFromBody(body[1..], j - 1, k);
        assert body == [body[0]] + body[1..];
      } else if j == 0 && k == 0 {
      } else if j == 0 {
        PieceCharsFromBody(body[1..], 0, k - 1);
        assert body == [body[0]] + body[1..];
      } else {
        PieceCharsFromBody(body[1..], j, k);
        assert body == [body[0]] + body[1..];
      }
    }
  }

  // ---------------------------------------------------------------------
  // The command dictionary
  // ---------------------------------------------------------------------

  datatype CmdInfo = CmdInfo(usage: string, args: Option<seq<string>>, optArgs: Option<seq<string>>, description: string)

  /** The per-line pattern: the command name, its usage and its description, when the line matches. */
  type LineMatch = string -> Option<(string, string, string)>

  function InfoOf(usage: string, description: string): CmdInfo {
    CmdInfo(usage, Args(usage), OptArgs(usage), description)
  }

  /** The dictionary after the first `n` lines: each matching line sets its command's entry. */
  function Absorbed(lines: seq<string>, lineMatch: LineMatch): map<string, CmdInfo> {
    if lines == [] then map[]
    else
      var before := Absorbed(lines[..|lines| - 1], lineMatch);
      match lineMatch(lines[|lines| - 1])
      case None => before
      case Some(m) => before[m.0 := InfoOf(m.1, m.2)]
  }

  /** A command is in the dictionary iff some line names it. */
  lemma {:induction false} AbsorbedDomain(lines: seq<string>, lineMatch: LineMatch, cmd: string)
    ensures cmd in Absorbed(lines, lineMatch) <==>
      exists j :: 0 <= j < |lines| && lineMatch(lines[j]).Some? && lineMatch(lines[j]).value.0 == cmd
  {
    if lines != [] {
      var init := lines[..|lines| - 1];
      AbsorbedDomain(init, lineMatch, cmd);
      assert forall j :: 0 <= j < |init| ==> init[j] == lines[j];
    }
  }

  /** The entry of a command comes from the last line that names it: a later line overwrites an earlier one. */
  lemma {:induction false} AbsorbedLastWins(lines: seq<string>, lineMatch: LineMatch, j: nat)
    requires j < |lines| && lineMatch(lines[j]).Some?
    requires forall k :: j < k < |lines| ==>
      lineMatch(lines[k]).None? || lineMatch(lines[k]).value.0 != lineMatch(lines[j]).value.0
    ensures var m := lineMatch(lines[j]).value;
      m.0 in Absorbed(lines, lineMatch) && Absorbed(lines, lineMatch)[m.0] == InfoOf(m.1, m.2)
  {
    var init := lines[..|lines| - 1];
    if j < |lines| - 1 {
      assert init[j] == lines[j];
      forall k | j < k < |init| ensures lineMatch(init[k]).None? || lineMatch(init[k]).value.0 != lineMatch(lines[j]).value.0 {
        assert init[k] == lines[k];
      }
      AbsorbedLastWins(init, lineMatch, j);
    }
  }

  /** The `forEach` over the lines: each matching line writes its command's entry. */
  method ParseLines(lines: seq<string>, lineMatch: LineMatch) returns (cmds: map<string, CmdInfo>)
    ensures cmds == Absorbed(lines, lineMatch)
  {
    cmds := map[];
    for i := 0 to |lines|
      invariant cmds == Absorbed(lines[..i], lineMatch)
    {
      assert lines[..i + 1][..i] == lines[..i];
      match lineMatch(lines[i])
      case None =>
      case Some(m) =>
        cmds := cmds[m.0 := InfoOf(m.1, m.2)];
    }
    assert lines[..|lines|] == lines;
  }

  /** The dictionary `getCommands` builds from a help text. */
  function ParseHelp(help: string, lineMatch: LineMatch): map<string, CmdInfo> {
    Absorbed(CommandLines(help), lineMatch)
  }

  // ---------------------------------------------------------------------
  // The wrapper object
  // ---------------------------------------------------------------------

  /** What `getUraVersion` stores: the probe output, or the marker "uninstall" when it threw. */
  datatype VersionProbe = Uninstall | Installed(output: string)

  class UraCli {
    var version: Option<VersionProbe>
    /** `_cmds`: the parsed dictionary, once computed. */
    var cmds: Option<map<string, CmdInfo>>

    /** `new UraCli()`: probe the version, and parse the commands unless the tool is missing. */
    constructor (probe: Option<string>, help: string, lineMatch: LineMatch)
      ensures version == Some(if probe.None? then Uninstall else Installed(probe.value))
      ensures probe.None? ==> cmds.None?
      ensures probe.Some? ==> cmds == Some(ParseHelp(help, lineMatch))
    {
      version := None;
      cmds := None;
      new;
      var v := GetUraVersion(probe);
      if v != Uninstall {
        var c := GetCommands(help, lineMatch);
      }
    }

    /** `getUraVersion`: the output of `ura --version`, or "uninstall" when it failed. */
    method GetUraVersion(probe: Option<string>) returns (v: VersionProbe)
      modifies this`version
      ensures v == (if probe.None? then Uninstall else Installed(probe.value))
      ensures version == Some(v)
    {
      v := if probe.None? then Uninstall else Installed(probe.value);
      version := Some(v);
    }

    /** `getCommands`: the cached dictionary if there is one (even an empty one), otherwise parse and cache. */
    method GetCommands(help: string, lineMatch: LineMatch) returns (result: map<string, CmdInfo>)
      modifies this`cmds
      ensures old(cmds).Some? ==> result == old(cmds).value && cmds == old(cmds)
      ensures old(cmds).None? ==> result == ParseHelp(help, lineMatch) && cmds == Some(result)
    {
      if cmds.Some? {
        return cmds.value;
      }
      var lines := CommandLines(help);
      result := ParseLines(lines, lineMatch);
      cmds := Some(result);
    }
  }

  /** Later calls return the first result whatever the help text says by then. */
  method CommandsAreCached(cli: UraCli, help1: string, help2: string, lineMatch: LineMatch)
    returns (first: map<string, CmdInfo>, second: map<string, CmdInfo>)
    modifies cli
    ensures second == first
  {
    first := cli.GetCommands(help1, lineMatch);
    second := cli.GetCommands(help2, lineMatch);
  }
}
