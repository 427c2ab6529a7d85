/**
 * The shared helpers of src/lib/common.ts (`CommonModule`): turning a
 * package name into an identifier, the row/column arithmetic of
 * `locateTextDocument`, resolving plugins from package.json and the
 * Capacitor configuration, and the file-mutation callback registry.
 *
 * File reads, `require.resolve`, TypeScript loading and the regular
 * expression engine are parameters: `Resolver`, `MetaReader` and the match
 * lists given to `LocateTextDocument`.
 */
module Common {
  import opened Wrappers
  import opened Text

  // ---------------------------------------------------------------------
  // Paths (Node's posix `path.basename` and `path.dirname`)
  // ---------------------------------------------------------------------

  /** `s` without its trailing '/' characters. */
  function TrimTrailingSlashes(s: string): (r: string)
    ensures |r| <= |s| && r == s[..|r|]
    ensures r != [] ==> r[|r| - 1] != '/'
    ensures forall k :: |r| <= k < |s| ==> s[k] == '/'
  {
    if s != [] && s[|s| - 1] == '/' then TrimTrailingSlashes(s[..|s| - 1]) else s
  }

  /** `path.basename(p)`: the last segment after trailing slashes are dropped ("" for a path of slashes). */
  function Basename(p: string): string {
    var t := TrimTrailingSlashes(p);
    match LastIndexOf(t, '/')
    case None => t
    case Some(i) => t[i + 1..]
  }

  /** The basename holds no '/' and is the final segment of a path that ends in it. */
  lemma BasenameFacts(dir: string, leaf: string)
    requires leaf != [] && '/' !in leaf
    ensures '/' !in Basename(dir)
    ensures Basename(dir + "/" + leaf) == leaf
    ensures Basename(dir + "/" + leaf + "/") == leaf
  {
    BasenameHasNoSlash(dir);
    var p := dir + "/" + leaf;
    assert p[|p| - 1] == leaf[|leaf| - 1];
    assert TrimTrailingSlashes(p) == p;
    LastIndexOfJoin(dir, '/', leaf);
    assert p[|dir| + 1..] == leaf;
    var q := p + "/";
    assert q[..|q| - 1] == p;
    assert TrimTrailingSlashes(q) == p;
  }

  lemma BasenameHasNoSlash(p: string)
    ensures '/' !in Basename(p)
  {
    var t := TrimTrailingSlashes(p);
    if LastIndexOf(t, '/').Some? {
      var i := LastIndexOf(t, '/').value;
      var u := t[i + 1..];
      forall k | 0 <= k < |u| ensures u[k] != '/' {
        assert u[k] == t[i + 1 + k];
      }
    }
  }

  /**
   * `path.dirname(p)` for the normalized file paths `require.resolve`
   * returns: everything before the last '/', "/" when that is the root, "."
   * when there is none.
   */
  function Dirname(p: string): string {
    match LastIndexOf(p, '/')
    case None => "."
    case Some(i) => if i == 0 then "/" else p[..i]
  }

  // ---------------------------------------------------------------------
  // fixName
  // ---------------------------------------------------------------------

  /** `.replace(/\//g, "_").replace(/-/g, "_").replace(/@/g, "")`. */
  function NormalizeSeparators(s: string): (r: string)
    ensures '@' !in r && '/' !in r && '-' !in r
    ensures |r| <= |s|
  {
    if s == [] then []
    else
      var rest := NormalizeSeparators(s[1..]);
      if s[0] == '/' || s[0] == '-' then "_" + rest
      else if s[0] == '@' then rest
      else [s[0]] + rest
  }

  /** `.replace(/_\w/g, m => m[1].toUpperCase())`, scanning left to right without overlap. */
  function CamelizeUnderscores(s: string): (r: string)
    ensures |r| <= |s|
  {
    if |s| >= 2 && s[0] == '_' && IsWordChar(s[1]) then [UpperChar(s[1])] + CamelizeUnderscores(s[2..])
    else if s == [] then []
    else [s[0]] + CamelizeUnderscores(s[1..])
  }

  /** `name.charAt(0).toUpperCase() + name.slice(1)`. */
  function CapitalizeFirst(s: string): (r: string)
    ensures |r| == |s|
    ensures s != [] ==> r[0] == UpperChar(s[0]) && r[1..] == s[1..]
  {
    if s == [] then [] else [UpperChar(s[0])] + s[1..]
  }

  /** Capitalizing twice is capitalizing once, and a capitalized name never starts with a lower-case letter. */
  lemma CapitalizeFirstIdempotent(s: string)
    ensures CapitalizeFirst(CapitalizeFirst(s)) == CapitalizeFirst(s)
    ensures CapitalizeFirst(s) != [] ==> !('a' <= CapitalizeFirst(s)[0] <= 'z')
  {
    if s != [] {
      var r := CapitalizeFirst(s);
      assert r[1..] == s[1..];
      assert CapitalizeFirst(r) == [UpperChar(r[0])] + r[1..];
    }
  }

  /** Names starting with ".", "~" or "/" are paths: only their basename is used. */
  predicate IsPathLike(name: string) {
    StartsWith(name, ".") || StartsWith(name, "~") || StartsWith(name, "/")
  }

  /** `fixName`: a package name or path turned into an identifier. */
  function FixName(name: string): string {
    var base := if IsPathLike(name) then Basename(name) else name;
    CapitalizeFirst(CamelizeUnderscores(NormalizeSeparators(base)))
  }

  /** Camel-casing never introduces '@', '/' or '-'. */
  lemma {:induction false} CamelizeKeepsOut(s: string, c: char)
    requires c == '@' || c == '/' || c == '-'
    requires c !in s
    ensures c !in CamelizeUnderscores(s)
  {
    if |s| >= 2 && s[0] == '_' && IsWordChar(s[1]) {
      CamelizeKeepsOut(s[2..], c);
    } else if s != [] {
      CamelizeKeepsOut(s[1..], c);
    }
  }

  /** A fixed name contains no '@', '/' or '-', and its first character is upper case when it is a letter. */
  lemma FixNameIsIdentifier(name: string)
    ensures '@' !in FixName(name) && '/' !in FixName(name) && '-' !in FixName(name)
    ensures |FixName(name)| <= |name|
    ensures FixName(name) != [] ==> !('a' <= FixName(name)[0] <= 'z')
  {
    var base := if IsPathLike(name) then Basename(name) else name;
    var n := NormalizeSeparators(base);
    CamelizeKeepsOut(n, '@');
    CamelizeKeepsOut(n, '/');
    CamelizeKeepsOut(n, '-');
    var c := CamelizeUnderscores(n);
    var r := CapitalizeFirst(c);
    forall ch | ch == '@' || ch == '/' || ch == '-' ensures ch !in r {
      if r != [] {
        assert r == [r[0]] + c[1..];
        assert ch !in c[1..];
      }
    }
    if IsPathLike(name) {
      assert |TrimTrailingSlashes(name)| <= |name|;
    }
  }

  /** A path-like name keeps only its last segment: the directories never reach the identifier. */
  lemma FixNameOfPath(dir: string, leaf: string)
    requires StartsWith(dir, ".") || StartsWith(dir, "~") || StartsWith(dir, "/")
    requires leaf != [] && '/' !in leaf
    ensures FixName(dir + "/" + leaf) == CapitalizeFirst(CamelizeUnderscores(NormalizeSeparators(leaf)))
  {
    BasenameFacts(dir, leaf);
    var p := dir + "/" + leaf;
    assert p[..1] == dir[..1];
    assert IsPathLike(p);
  }

  /** Scoped package names: "@scope/name" becomes "Scope" + "Name", each capitalized ("@capacitor/camera" gives "CapacitorCamera"). */
  lemma FixNameScoped(scope: string, name: string)
    requires scope != [] && name != [] && IsWordChar(name[0])
    requires forall c :: c in scope + name ==> c != '/' && c != '-' && c != '@' && c != '_'
    ensures FixName("@" + scope + "/" + name) ==
      [UpperChar(scope[0])] + scope[1..] + [UpperChar(name[0])] + name[1..]
  {
    var full := "@" + scope + "/" + name;
    assert full[..1] == "@";
    assert !IsPathLike(full);
    NormalizeScoped(scope, name);
    CamelizeScoped(scope, name);
    var c := scope + [UpperChar(name[0])] + name[1..];
    assert CapitalizeFirst(c) == [UpperChar(scope[0])] + c[1..];
    assert c[1..] == scope[1..] + [UpperChar(name[0])] + name[1..];
  }

  lemma NormalizeScoped(scope: string, name: string)
    requires forall c :: c in scope + name ==> c != '/' && c != '-' && c != '@' && c != '_'
    ensures NormalizeSeparators("@" + scope + "/" + name) == scope + "_" + name
  {
    assert forall c :: c in scope ==> c in scope + name;
    assert forall c :: c in name ==> c in scope + name;
    NormalizeIdentity(scope);
    NormalizeIdentity(name);
    assert NormalizeSeparators("@") == [];
    assert NormalizeSeparators("/") == "_";
    NormalizeConcat("@", scope);
    NormalizeConcat("@" + scope, "/");
    NormalizeConcat("@" + scope + "/", name);
  }

  lemma CamelizeScoped(scope: string, name: string)
    requires name != [] && IsWordChar(name[0])
    requires forall c :: c in scope + name ==> c != '_'
    ensures CamelizeUnderscores(scope + "_" + name) == scope + [UpperChar(name[0])] + name[1..]
  {
    assert forall c :: c in scope ==> c in scope + name;
    assert forall c :: c in name[1..] ==> c in scope + name;
    CamelizeConcat(scope, "_" + name);
    assert ("_" + name)[2..] == name[1..];
    CamelizeIdentity(name[1..]);
    assert CamelizeUnderscores("_" + name) == [UpperChar(name[0])] + name[1..];
    assert scope + "_" + name == scope + ("_" + name);
  }

  /** Strings with none of '/', '-', '@' pass through the separator rewrite unchanged. */
  lemma {:induction false} NormalizeIdentity(s: string)
    requires '/' !in s && '-' !in s && '@' !in s
    ensures NormalizeSeparators(s) == s
  {
    if s != [] {
      NormalizeIdentity(s[1..]);
      assert s == [s[0]] + s[1..];
    }
  }

  /** The separator rewrite works character by character. */
  lemma {:induction false} NormalizeConcat(a: string, b: string)
    ensures NormalizeSeparators(a + b) == NormalizeSeparators(a) + NormalizeSeparators(b)
  {
    if a != [] {
      assert (a + b)[1..] == a[1..] + b;
      NormalizeConcat(a[1..], b);
    } else {
      assert a + b == b;
    }
  }

  /** Strings without '_' are not changed by camel-casing. */
  lemma {:induction false} CamelizeIdentity(s: string)
    requires '_' !in s
    ensures CamelizeUnderscores(s) == s
  {
    if s != [] {
      CamelizeIdentity(s[1..]);
      assert s == [s[0]] + s[1..];
    }
  }

  /** Camel-casing splits at a prefix without underscores. */
  lemma {:induction false} CamelizeConcat(a: string, b: string)
    requires '_' !in a
    ensures CamelizeUnderscores(a + b) == a + CamelizeUnderscores(b)
  {
    if a != [] {
      assert (a + b)[1..] == a[1..] + b;
      assert (a + b)[0] == a[0];
      CamelizeConcat(a[1..], b);
      assert a == [a[0]] + a[1..];
    } else {
      assert a + b == b;
    }
  }

  // ---------------------------------------------------------------------
  // locateTextDocument: positions of regular-expression matches
  // ---------------------------------------------------------------------

  /** One result of `matchAll`: where it starts and the matched text (`value[0]`). */
  datatype RegexMatch = RegexMatch(index: nat, text: string)

  /** `TextDocumentInfo`: zero-based start and end positions of a match in a file. */
  datatype TextInfo = TextInfo(col: nat, row: nat, colend: nat, rowend: nat, text: string, path: string)

  function Last(lines: seq<string>): string
    requires |lines| >= 1
  {
    lines[|lines| - 1]
  }

  /** The row and column of offset `k` of `context`: newlines before it, characters since the last one. */
  function PositionOf(context: string, k: nat): (nat, nat)
    requires k <= |context|
  {
    (Count(context[..k], '\n'), |AfterLastNewline(context[..k])|)
  }

  /**
   * The position record of one match as the source computes it: the end
   * column adds the length of the match's last line to the START column,
   * also when the match spans several lines.
   */
  function LocateAsWritten(context: string, m: RegexMatch, path: string): TextInfo {
    var pre := context[..if m.index <= |context| then m.index else |context|];
    var lines := SplitLines(m.text);
    var preLines := SplitLines(pre);
    TextInfo(|Last(preLines)|, |preLines| - 1, |Last(preLines)| + |Last(lines)|,
             |preLines| + |lines| - 2, m.text, path)
  }

  /**
   * The position record of one match with the end column intended: the
   * length of the last line of the match when it spans lines, the start
   * column plus the match length otherwise.
   */
  function Locate(context: string, m: RegexMatch, path: string): TextInfo {
    var info := LocateAsWritten(context, m, path);
    if '\n' in m.text then info.(colend := |AfterLastNewline(m.text)|) else info
  }

  /**
   * The start of a match is the position of its index, its end row adds the
   * newlines inside the match, and a match without newlines ends on its
   * start row, `|text|` columns further.
   */
  lemma LocateCounts(context: string, m: RegexMatch, path: string)
    requires m.index <= |context|
    ensures var info := Locate(context, m, path);
      (info.row, info.col) == PositionOf(context, m.index) &&
      info.rowend == info.row + Count(m.text, '\n') &&
      info.text == m.text && info.path == path &&
      ('\n' !in m.text ==> info.rowend == info.row && info.colend == info.col + |m.text|) &&
      ('\n' in m.text ==> info.colend == |AfterLastNewline(m.text)|)
  {
    var pre := context[..m.index];
    LinesOf(pre);
    LinesOf(m.text);
  }

  /** The number of pieces of `split("\n")` and its last piece, in terms of the string. */
  lemma LinesOf(s: string)
    ensures |SplitLines(s)| == Count(s, '\n') + 1 && Last(SplitLines(s)) == AfterLastNewline(s)
    ensures '\n' !in s ==> AfterLastNewline(s) == s && Count(s, '\n') == 0
  {
    SplitLinesShape(s);
    SplitLinesLast(s);
    var lines := SplitLines(s);
    assert Last(lines) == lines[|lines| - 1];
    if '\n' !in s {
      NoNewlineIdentity(s);
      CountAbsent(s, '\n');
    }
  }

  lemma {:induction false} CountAbsent(s: string, c: char)
    requires c !in s
    ensures Count(s, c) == 0
  {
    if s != [] {
      assert s[0] != c;
      assert forall x :: x in s[1..] ==> x in s;
      CountAbsent(s[1..], c);
    }
  }

  /** For a match that really is in the text, the intended end is the position of the match's end offset. */
  lemma LocateEndIsMatchEnd(context: string, m: RegexMatch, path: string)
    requires m.index + |m.text| <= |context| && context[m.index..m.index + |m.text|] == m.text
    ensures var info, e := Locate(context, m, path), PositionOf(context, m.index + |m.text|);
      info.rowend == e.0 && info.colend == e.1
  {
    LocateClosed(context, m, path);
    PositionAfter(context, m.index, m.text);
  }

  /** The position after a piece `t` of the text, from the position before it. */
  lemma PositionAfter(context: string, k: nat, t: string)
    requires k + |t| <= |context| && context[k..k + |t|] == t
    ensures var pre, e := context[..k], PositionOf(context, k + |t|);
      e.0 == Count(pre, '\n') + Count(t, '\n') &&
      e.1 == if '\n' in t then |AfterLastNewline(t)| else |AfterLastNewline(pre)| + |t|
  {
    var pre := context[..k];
    assert context[..k + |t|] == pre + t;
    CountConcat(pre, t, '\n');
    AfterLastNewlineConcat(pre, t);
  }

  /** `Locate` in terms of newline counts and last lines, without `split`. */
  lemma LocateClosed(context: string, m: RegexMatch, path: string)
    requires m.index <= |context|
    ensures var pre := context[..m.index];
      Locate(context, m, path) ==
        TextInfo(|AfterLastNewline(pre)|, Count(pre, '\n'),
                 if '\n' in m.text then |AfterLastNewline(m.text)| else |AfterLastNewline(pre)| + |m.text|,
                 Count(pre, '\n') + Count(m.text, '\n'), m.text, path)
  {
    LinesOf(context[..m.index]);
    LinesOf(m.text);
  }

  /**
   * For "ab{\nc}" with the match "{\nc}" at offset 2 the source reports the
   * end column 4 although the match ends at row 1, column 2.
   */
  lemma LocateAsWrittenMultilineEnd()
    ensures var m := RegexMatch(2, "{\nc}");
      LocateAsWritten("ab{\nc}", m, "f").colend == 4 &&
      PositionOf("ab{\nc}", 2 + |m.text|) == (1, 2)
  {
    var ctx := "ab{\nc}";
    assert ctx[..2] == "ab";
    SplitLinesSingle("ab");
    SplitLinesExample();
    assert ctx[..6] == ctx;
    ExamplePosition();
  }

  lemma SplitLinesExample()
    ensures SplitLines("{\nc}") == ["{", "c}"]
  {
    SplitLinesSingle("c}");
    assert "\nc}"[1..] == "c}";
    var tail := SplitLines("\nc}");
    assert tail == [[], "c}"];
    assert "{\nc}"[1..] == "\nc}";
    assert SplitLines("{\nc}") == [['{'] + tail[0]] + tail[1..];
    assert ['{'] + tail[0] == "{";
    assert tail[1..] == ["c}"];
  }

  lemma ExamplePosition()
    ensures Count("ab{\nc}", '\n') == 1 && AfterLastNewline("ab{\nc}") == "c}"
  {
    var a, b := "ab{", "c}";
    assert '\n' !in a && '\n' !in b;
    assert a + "\n" + b == "ab{\nc}";
    ExampleCount(a, b);
    AfterLastNewlineConcat(a + "\n", b);
    NoNewlineIdentity(b);
  }

  lemma ExampleCount(a: string, b: string)
    requires '\n' !in a && '\n' !in b
    ensures Count(a + "\n" + b, '\n') == 1
  {
    CountAbsent(a, '\n');
    CountAbsent(b, '\n');
    CountConcat(a + "\n", b, '\n');
    CountConcat(a, "\n", '\n');
    assert Count("\n", '\n') == 1 by { assert "\n"[1..] == ""; }
  }

  /** Newlines of a concatenation add up. */
  lemma {:induction false} CountConcat(a: string, b: string, c: char)
    ensures Count(a + b, c) == Count(a, c) + Count(b, c)
  {
    if a == [] {
      assert a + b == b;
    } else {
      assert (a + b)[1..] == a[1..] + b;
      CountConcat(a[1..], b, c);
    }
  }

  /** The last line of a concatenation is the last line of `b`, extended by `a`'s when `b` has no newline. */
  lemma {:induction false} AfterLastNewlineConcat(a: string, b: string)
    ensures AfterLastNewline(a + b) ==
      if '\n' in b then AfterLastNewline(b) else AfterLastNewline(a) + b
    decreases |b|
  {
    if b == [] {
      assert a + b == a;
    } else {
      var init := b[..|b| - 1];
      assert (a + b)[..|a + b| - 1] == a + init;
      AfterLastNewlineConcat(a, init);
      if b[|b| - 1] != '\n' {
        assert '\n' in b <==> '\n' in init by {
          assert b == init + [b[|b| - 1]];
        }
        assert b == init + [b[|b| - 1]];
        if '\n' !in b {
          assert AfterLastNewline(a) + b == (AfterLastNewline(a) + init) + [b[|b| - 1]];
        }
      }
    }
  }

  /**
   * `locateTextDocument` after `matchAll`: one position record per match, in
   * match order, each as the source computes it. A record differs from the
   * intended `Locate` at most in its end column, and only for a match that
   * spans lines.
   */
  method LocateTextDocument(path: string, context: string, matches: seq<RegexMatch>) returns (results: seq<TextInfo>)
    ensures |results| == |matches|
    ensures forall i :: 0 <= i < |matches| ==> results[i] == LocateAsWritten(context, matches[i], path)
    ensures forall i :: 0 <= i < |matches| ==> results[i] == Locate(context, matches[i], path).(colend := results[i].colend)
    ensures forall i :: 0 <= i < |matches| && '\n' !in matches[i].text ==> results[i] == Locate(context, matches[i], path)
  {
    results := [];
    for i := 0 to |matches|
      invariant |results| == i
      invariant forall k :: 0 <= k < i ==> results[k] == LocateAsWritten(context, matches[k], path)
    {
      results := results + [LocateAsWritten(context, matches[i], path)];
    }
  }

  // ---------------------------------------------------------------------
  // package.json, capacitor.config.ts and plugin resolution
  // ---------------------------------------------------------------------

  /** The parts of package.json that are read: dependency maps as key/value lists in key order. */
  datatype PackageJson = PackageJson(
    dependencies: Option<seq<(string, string)>>,
    devDependencies: Option<seq<(string, string)>>)

  /** A configuration value: a string, an object holding `text`, or absent. */
  datatype ConfigValue = Absent | Str(s: string) | WithText(text: Option<string>)

  datatype AndroidConfig = AndroidConfig(
    localPlugins: Option<seq<string>>,
    includePlugins: Option<seq<string>>)

  /** The parts of the loaded capacitor.config.ts that are read. */
  datatype CapacitorConfig = CapacitorConfig(
    appId: ConfigValue,
    appName: ConfigValue,
    localPlugins: Option<seq<string>>,
    includePlugins: Option<seq<string>>,
    android: Option<AndroidConfig>)

  /** Keys of an optional dependency map (`Object.keys(x || {})`). */
  function Keys(deps: Option<seq<(string, string)>>): (ks: seq<string>)
    ensures deps.None? ==> ks == []
    ensures deps.Some? ==> |ks| == |deps.value| && forall i :: 0 <= i < |ks| ==> ks[i] == deps.value[i].0
  {
    if deps.None? then [] else seq(|deps.value|, i requires 0 <= i < |deps.value| => deps.value[i].0)
  }

  /** `config?.android?.localPlugins || config?.localPlugins || []`: an array is truthy even when empty. */
  function LocalPluginsOf(config: Option<CapacitorConfig>): (r: seq<string>)
    ensures config.Some? && config.value.android.Some? && config.value.android.value.localPlugins.Some? ==>
      r == config.value.android.value.localPlugins.value
    ensures config.None? ==> r == []
    ensures config.Some? && (config.value.android.None? || config.value.android.value.localPlugins.None?) ==>
      r == config.value.localPlugins.GetOr([])
  {
    if config.None? then []
    else if config.value.android.Some? && config.value.android.value.localPlugins.Some? then
      config.value.android.value.localPlugins.value
    else config.value.localPlugins.GetOr([])
  }

  datatype PluginInfo = PluginInfo(id: string, name: string, version: string, rootPath: string, local: bool)

  /** The fields of a plugin's own package.json that are read; `capacitor` is its truthiness. */
  datatype PackageMeta = PackageMeta(name: Option<string>, version: string, capacitor: bool)

  /** `require.resolve(path, {paths: [ROOT_PATH]})`: the resolved file, `None` when it throws. */
  type Resolver = string -> Option<string>

  /** `JSON.parse(readFileSync(path))`: the parsed metadata, `None` when reading or parsing throws or yields null. */
  type MetaReader = string -> Option<PackageMeta>

  const FILE_PREFIX: string := "file:"
  const LINK_PREFIX: string := "link:"

  /** `[nameOrPath.replace(/^file:/, ""), "package.json"].join(sep)` with the posix separator. */
  function PackageJsonPath(nameOrPath: string): (r: string)
    ensures StartsWith(nameOrPath, FILE_PREFIX) ==> r == nameOrPath[|FILE_PREFIX|..] + "/package.json"
    ensures !StartsWith(nameOrPath, FILE_PREFIX) ==> r == nameOrPath + "/package.json"
  {
    (if StartsWith(nameOrPath, FILE_PREFIX) then nameOrPath[|FILE_PREFIX|..] else nameOrPath) + "/" + "package.json"
  }

  /**
   * Only one leading "file:" is stripped, so "file:" + p and p name the same
   * package.json whenever p has no such prefix of its own; "link:" is kept.
   */
  lemma PackageJsonPathFacts(p: string)
    ensures PackageJsonPath(FILE_PREFIX + p) == p + "/package.json"
    ensures !StartsWith(p, FILE_PREFIX) ==> PackageJsonPath(FILE_PREFIX + p) == PackageJsonPath(p)
    ensures PackageJsonPath(LINK_PREFIX + p) == LINK_PREFIX + p + "/package.json"
  {
    var f := FILE_PREFIX + p;
    assert f[..|FILE_PREFIX|] == FILE_PREFIX && f[|FILE_PREFIX|..] == p;
    var l := LINK_PREFIX + p;
    assert l[0] != FILE_PREFIX[0];
  }

  /** `resolvePlugin`: the plugin's metadata when its package.json resolves, parses and declares `capacitor`. */
  function ResolvePlugin(nameOrPath: string, resolve: Resolver, read: MetaReader): (r: Option<PluginInfo>)
    ensures r.Some? ==> r.value.id == nameOrPath
    ensures r.Some? ==> (r.value.local <==> StartsWith(nameOrPath, LINK_PREFIX) || StartsWith(nameOrPath, FILE_PREFIX))
    ensures r.Some? <==>
      var p := resolve(PackageJsonPath(nameOrPath));
      p.Some? && p.value != "" && read(p.value).Some? && read(p.value).value.capacitor &&
      read(p.value).value.name.Some?
    ensures r.Some? ==>
      var p := resolve(PackageJsonPath(nameOrPath)).value;
      r.value.rootPath == Dirname(p) && r.value.name == FixName(read(p).value.name.value) &&
      r.value.version == read(p).value.version
  {
    var local := StartsWith(nameOrPath, LINK_PREFIX) || StartsWith(nameOrPath, FILE_PREFIX);
    match resolve(PackageJsonPath(nameOrPath))
    case None => None
    case Some(packagePath) =>
      if packagePath == "" then None
      else
        match read(packagePath)
        case None => None
        case Some(meta) =>
          if !meta.capacitor then None
          else if meta.name.None? then None
          else Some(PluginInfo(nameOrPath, FixName(meta.name.value), meta.version, Dirname(packagePath), local))
  }

  /** The plugins of `names` that resolve, in order, marked local when listed among the local plugins. */
  function Collected(names: seq<string>, localPlugins: seq<string>, resolve: Resolver, read: MetaReader): seq<PluginInfo> {
    ConcatMap(names, name => CollectedOne(name, localPlugins, resolve, read))
  }

  /** The contributions of `names`, in order, concatenated. */
  function ConcatMap(names: seq<string>, one: string -> seq<PluginInfo>): seq<PluginInfo> {
    if names == [] then [] else one(names[0]) + ConcatMap(names[1..], one)
  }

  /** One more name appends its contribution. */
  lemma {:induction false} ConcatMapSnoc(names: seq<string>, key: string, one: string -> seq<PluginInfo>)
    ensures ConcatMap(names + [key], one) == ConcatMap(names, one) + one(key)
  {
    if names == [] {
      assert names + [key] == [key];
    } else {
      var whole := names + [key];
      assert whole[0] == names[0] && whole[1..] == names[1..] + [key];
      ConcatMapSnoc(names[1..], key, one);
    }
  }

  /** What one candidate name contributes: its plugin, marked local when listed, or nothing. */
  function CollectedOne(name: string, localPlugins: seq<string>, resolve: Resolver, read: MetaReader): seq<PluginInfo> {
    match ResolvePlugin(name, resolve, read)
    case None => []
    case Some(info) => [info.(local := info.local || name in localPlugins)]
  }

  /** The collected plugins are exactly the resolving names, with the local flag raised for listed ones. */
  lemma {:induction false} CollectedFacts(names: seq<string>, localPlugins: seq<string>, resolve: Resolver, read: MetaReader)
    ensures |Collected(names, localPlugins, resolve, read)| <= |names|
    ensures Collected(names, localPlugins, resolve, read) == [] <==>
      forall i :: 0 <= i < |names| ==> ResolvePlugin(names[i], resolve, read).None?
    ensures forall p :: p in Collected(names, localPlugins, resolve, read) ==>
      p.id in names && ResolvePlugin(p.id, resolve, read).Some? &&
      (p.local <==> ResolvePlugin(p.id, resolve, read).value.local || p.id in localPlugins)
  {
    if names != [] {
      CollectedFacts(names[1..], localPlugins, resolve, read);
      if ResolvePlugin(names[0], resolve, read).None? {
        assert forall i :: 1 <= i < |names| ==> names[i] == names[1..][i - 1];
      }
    }
  }

  /**
   * The loop of `getPluginsArray`: resolve each candidate name in order,
   * mark the ones listed among the local plugins, and return `None` rather
   * than an empty list when none resolves.
   */
  method CollectPlugins(possible: seq<string>, localPlugins: seq<string>, resolve: Resolver, read: MetaReader)
    returns (plugins: Option<seq<PluginInfo>>)
    ensures plugins.None? <==> Collected(possible, localPlugins, resolve, read) == []
    ensures plugins.Some? ==> plugins.value == Collected(possible, localPlugins, resolve, read)
  {
    plugins := None;
    for i := 0 to |possible|
      invariant plugins.None? <==> Collected(possible[..i], localPlugins, resolve, read) == []
      invariant plugins.Some? ==> plugins.value == Collected(possible[..i], localPlugins, resolve, read)
    {
      var key := possible[i];
      var info := ResolvePlugin(key, resolve, read);
      CollectedPrefix(possible, i, localPlugins, resolve, read);
      if info.Some? {
        var item := info.value;
        if plugins.None? {
          plugins := Some([]);
        }
        if key in localPlugins {
          item := item.(local := true);
        }
        plugins := Some(plugins.value + [item]);
      }
    }
    assert possible[..|possible|] == possible;
  }

  /** Collecting one more name appends its plugin, if it resolves. */
  lemma CollectedSnoc(names: seq<string>, key: string, localPlugins: seq<string>, resolve: Resolver, read: MetaReader)
    ensures Collected(names + [key], localPlugins, resolve, read) ==
      Collected(names, localPlugins, resolve, read) + CollectedOne(key, localPlugins, resolve, read)
  {
    ConcatMapSnoc(names, key, name => CollectedOne(name, localPlugins, resolve, read));
  }

  /** Collecting a prefix one name longer appends that name's plugin, if it resolves. */
  lemma CollectedPrefix(names: seq<string>, i: nat, localPlugins: seq<string>, resolve: Resolver, read: MetaReader)
    requires i < |names|
    ensures Collected(names[..i + 1], localPlugins, resolve, read) ==
      Collected(names[..i], localPlugins, resolve, read) + CollectedOne(names[i], localPlugins, resolve, read)
  {
    assert names[..i + 1] == names[..i] + [names[i]];
    CollectedSnoc(names[..i], names[i], localPlugins, resolve, read);
  }

  /** The names `getPluginsArray` tries: dependencies, then devDependencies, then local plugins. */
  function PossiblePlugins(pkg: PackageJson, config: Option<CapacitorConfig>): seq<string> {
    Keys(pkg.dependencies) + Keys(pkg.devDependencies) + LocalPluginsOf(config)
  }

  /** `name` is a key of the optional dependency map. */
  predicate IsKey(deps: Option<seq<(string, string)>>, name: string) {
    deps.Some? && exists i :: 0 <= i < |deps.value| && deps.value[i].0 == name
  }

  /**
   * The names tried are exactly the dependency keys, the devDependency keys
   * and the local plugins, one try per entry.
   */
  lemma PossiblePluginsMembership(pkg: PackageJson, config: Option<CapacitorConfig>, name: string)
    ensures name in PossiblePlugins(pkg, config) <==>
      IsKey(pkg.dependencies, name) || IsKey(pkg.devDependencies, name) || name in LocalPluginsOf(config)
    ensures |PossiblePlugins(pkg, config)| ==
      |pkg.dependencies.GetOr([])| + |pkg.devDependencies.GetOr([])| + |LocalPluginsOf(config)|
  {
    var a, b, c := Keys(pkg.dependencies), Keys(pkg.devDependencies), LocalPluginsOf(config);
    assert name in a + b + c <==> name in a || name in b || name in c;
    if IsKey(pkg.dependencies, name) {
      var i :| 0 <= i < |pkg.dependencies.value| && pkg.dependencies.value[i].0 == name;
      assert a[i] == name;
    }
    if IsKey(pkg.devDependencies, name) {
      var i :| 0 <= i < |pkg.devDependencies.value| && pkg.devDependencies.value[i].0 == name;
      assert b[i] == name;
    }
  }

  /** Every candidate that resolves shows up among the collected plugins, with its local flag raised when listed. */
  lemma {:induction false} CollectedComplete(names: seq<string>, i: nat, localPlugins: seq<string>, resolve: Resolver, read: MetaReader)
    requires i < |names| && ResolvePlugin(names[i], resolve, read).Some?
    ensures var info := ResolvePlugin(names[i], resolve, read).value;
      info.(local := info.local || names[i] in localPlugins) in Collected(names, localPlugins, resolve, read)
    decreases i
  {
    assert Collected(names, localPlugins, resolve, read) ==
      CollectedOne(names[0], localPlugins, resolve, read) + Collected(names[1..], localPlugins, resolve, read);
    if i > 0 {
      assert names[1..][i - 1] == names[i];
      CollectedComplete(names[1..], i - 1, localPlugins, resolve, read);
    }
  }

  /**
   * A local plugin that resolves is always collected and marked local, from
   * the android list or the top-level one, whatever the dependency maps hold.
   */
  lemma LocalPluginCollected(pkg: PackageJson, config: Option<CapacitorConfig>, name: string, resolve: Resolver, read: MetaReader)
    requires name in LocalPluginsOf(config) && ResolvePlugin(name, resolve, read).Some?
    ensures ResolvePlugin(name, resolve, read).value.(local := true) in
      Collected(PossiblePlugins(pkg, config), LocalPluginsOf(config), resolve, read)
  {
    var names := PossiblePlugins(pkg, config);
    PossiblePluginsMembership(pkg, config, name);
    var i :| 0 <= i < |names| && names[i] == name;
    CollectedComplete(names, i, LocalPluginsOf(config), resolve, read);
  }

  // ---------------------------------------------------------------------
  // The module object
  // ---------------------------------------------------------------------

  datatype ObserveType = Save | Change | Delete | Create

  /** A callback registered with `addFileMutation`, identified by the caller. */
  type CallbackId = nat

  /** The state of `CommonModule` that the modelled operations read and write. */
  class CommonModule {
    var packageJson: Option<PackageJson>
    var capacitorConfig: Option<CapacitorConfig>
    var plugins: Option<seq<PluginInfo>>
    /** The callback sets per event type, in insertion order (a JavaScript `Set`). */
    var mutations: map<ObserveType, seq<CallbackId>>

    ghost predicate Valid()
      reads this
    {
      forall t :: t in mutations ==> NoDuplicates(mutations[t])
    }

    constructor (packageJson: Option<PackageJson>, capacitorConfig: Option<CapacitorConfig>)
      ensures Valid()
      ensures this.packageJson == packageJson && this.capacitorConfig == capacitorConfig && plugins == None
      ensures mutations == map[Save := [], Change := [], Delete := [], Create := []]
    {
      this.packageJson := packageJson;
      this.capacitorConfig := capacitorConfig;
      plugins := None;
      mutations := map[Save := [], Change := [], Delete := [], Create := []];
    }

    /** `addFileMutation`: add the callback to the set of its type; adding it twice changes nothing. */
    method AddFileMutation(t: ObserveType, callback: CallbackId)
      requires Valid()
      modifies this`mutations
      ensures Valid()
      ensures var cur := if t in old(mutations) then old(mutations)[t] else [];
        mutations == old(mutations)[t := if callback in cur then cur else cur + [callback]]
    {
      var cur := if t in mutations then mutations[t] else [];
      if callback !in cur {
        cur := cur + [callback];
      }
      mutations := mutations[t := cur];
    }

    /** The listener of one event type: every registered callback of that type, in insertion order. */
    function CallbacksFor(t: ObserveType): (cbs: seq<CallbackId>)
      reads this
      requires Valid()
      ensures NoDuplicates(cbs)
    {
      if t in mutations then mutations[t] else []
    }

    /**
     * `getPluginsArray` once the configuration is loaded: collect the
     * plugins of package.json and the local plugins and store them in the
     * `plugins` field.
     */
    method GetPluginsArray(resolve: Resolver, read: MetaReader) returns (result: Option<seq<PluginInfo>>)
      requires packageJson.Some?
      modifies this`plugins
      ensures var all := Collected(PossiblePlugins(packageJson.value, capacitorConfig), LocalPluginsOf(capacitorConfig), resolve, read);
        result == (if all == [] then None else Some(all))
      ensures plugins == result
    {
      var possible := PossiblePlugins(packageJson.value, capacitorConfig);
      result := CollectPlugins(possible, LocalPluginsOf(capacitorConfig), resolve, read);
      plugins := result;
    }
  }

  predicate NoDuplicates<T(==)>(s: seq<T>) {
    forall i, j :: 0 <= i < j < |s| ==> s[i] != s[j]
  }
}
