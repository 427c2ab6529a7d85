/**
 * The configuration tree of src/entry/configuration.ts: the labels and
 * values of the "Project" entries, which file events trigger a refresh,
 * and the accumulation of resolved plugins in the provider's `plugins`
 * field. Regular-expression tests are an oracle (`PatternTest`); the
 * values of the entries are inputs.
 */
module Configuration {
  import opened Wrappers
  import opened Text
  import opened Common

  // ---------------------------------------------------------------------
  // Labels
  // ---------------------------------------------------------------------

  predicate IsUpper(c: char) {
    'A' <= c <= 'Z'
  }

  /** `.replace(/[A-Z]/g, m => " " + m.toUpperCase())`. */
  function SpaceBeforeCapitals(s: string): (r: string)
    ensures |r| == |s| + CountUpper(s)
  {
    if s == [] then []
    else (if IsUpper(s[0]) then [' ', s[0]] else [s[0]]) + SpaceBeforeCapitals(s[1..])
  }

  function CountUpper(s: string): nat {
    if s == [] then 0 else (if IsUpper(s[0]) then 1 else 0) + CountUpper(s[1..])
  }

  /** `s` without its spaces. */
  function Unspace(s: string): string {
    if s == [] then [] else (if s[0] == ' ' then [] else [s[0]]) + Unspace(s[1..])
  }

  /** The tree label of a configuration key: first letter upper-cased, a space before each later capital. */
  function Label(key: string): string
    requires key != []
  {
    [UpperChar(key[0])] + SpaceBeforeCapitals(key[1..])
  }

  /**
   * Dropping the inserted spaces from a label gives back the key with its
   * first letter upper-cased, and every space of the label precedes a
   * capital letter.
   */
  lemma LabelRoundTrip(key: string)
    requires key != [] && ' ' !in key
    ensures Unspace(Label(key)) == [UpperChar(key[0])] + key[1..]
    ensures SpacesPrecedeCapitalsIn(Label(key))
  {
    assert key[0] in key;
    assert UpperChar(key[0]) != ' ';
    UnspaceSpaced(key[1..]);
    SpacesPrecedeCapitals(key[1..]);
    var l := Label(key);
    assert l == [UpperChar(key[0])] + SpaceBeforeCapitals(key[1..]);
    UnspaceCons(UpperChar(key[0]), SpaceBeforeCapitals(key[1..]));
    var t := SpaceBeforeCapitals(key[1..]);
    assert SpacesPrecedeCapitalsIn(t);
    forall i | 0 <= i < |l| && l[i] == ' ' ensures i + 1 < |l| && IsUpper(l[i + 1]) {
      assert i > 0;
      assert l[i] == t[i - 1];
      assert l[i + 1] == t[i];
    }
  }

  lemma UnspaceCons(c: char, s: string)
    requires c != ' '
    ensures Unspace([c] + s) == [c] + Unspace(s)
  {
    assert ([c] + s)[1..] == s;
  }

  lemma {:induction false} UnspaceSpaced(s: string)
    requires ' ' !in s
    ensures Unspace(SpaceBeforeCapitals(s)) == s
  {
    if s != [] {
      UnspaceSpaced(s[1..]);
      var head := if IsUpper(s[0]) then [' ', s[0]] else [s[0]];
      UnspaceConcat(head, SpaceBeforeCapitals(s[1..]));
      if IsUpper(s[0]) {
        assert Unspace(head) == [s[0]] by { assert head[1..] == [s[0]]; assert head[1..][1..] == []; }
      } else {
        assert Unspace(head) == [s[0]] by { assert head[1..] == []; }
      }
      assert s == [s[0]] + s[1..];
    }
  }

  lemma {:induction false} UnspaceConcat(a: string, b: string)
    ensures Unspace(a + b) == Unspace(a) + Unspace(b)
  {
    if a == [] {
      assert a + b == b;
    } else {
      assert (a + b)[1..] == a[1..] + b;
      UnspaceConcat(a[1..], b);
    }
  }

  /** Every space of `r` is followed by a capital letter. */
  predicate SpacesPrecedeCapitalsIn(r: string) {
    forall i :: 0 <= i < |r| && r[i] == ' ' ==> i + 1 < |r| && IsUpper(r[i + 1])
  }

  lemma {:induction false} SpacesPrecedeCapitals(s: string)
    requires ' ' !in s
    ensures SpacesPrecedeCapitalsIn(SpaceBeforeCapitals(s))
  {
    if s != [] {
      assert s[0] in s;
      assert ' ' !in s[1..] by {
        forall k | 0 <= k < |s[1..]| ensures s[1..][k] != ' ' { assert s[1..][k] == s[k + 1]; }
      }
      SpacesPrecedeCapitals(s[1..]);
      var r := SpaceBeforeCapitals(s);
      var t := SpaceBeforeCapitals(s[1..]);
      assert SpacesPrecedeCapitalsIn(t);
      var head := if IsUpper(s[0]) then [' ', s[0]] else [s[0]];
      assert r == head + t;
      forall i | 0 <= i < |r| && r[i] == ' ' ensures i + 1 < |r| && IsUpper(r[i + 1]) {
        if i >= |head| {
          var j := i - |head|;
          assert t[j] == ' ';
          assert j + 1 < |t| && IsUpper(t[j + 1]);
          assert r[i + 1] == t[j + 1];
        } else {
          assert i == 0 && IsUpper(s[0]);
          assert r[1] == s[0];
        }
      }
    }
  }

  /** "appId" is shown as "App Id". */
  lemma LabelAppId()
    ensures Label("appId") == "App Id"
  {
    LabelTwoWords("app", 'I', "d");
    assert "app" + ['I'] + "d" == "appId";
  }

  /**
   * A two-word camel-case key gets a space before its second word: "appName"
   * is shown as "App Name" and "versionCode" as "Version Code".
   */
  lemma LabelTwoWords(first: string, c: char, rest: string)
    requires first != [] && IsUpper(c)
    requires forall i :: 0 <= i < |first| ==> 'a' <= first[i] <= 'z'
    requires forall i :: 0 <= i < |rest| ==> 'a' <= rest[i] <= 'z'
    ensures Label(first + [c] + rest) == [UpperChar(first[0])] + first[1..] + [' ', c] + rest
  {
    var key := first + [c] + rest;
    assert key[0] == first[0];
    assert key[1..] == first[1..] + [c] + rest;
    SpaceAtCapital(first[1..], c, rest);
    SpaceLowercase(rest);
  }

  /** A key in lower case only keeps its letters: "version" is shown as "Version". */
  lemma LabelOneWord(key: string)
    requires key != [] && forall i :: 0 <= i < |key| ==> 'a' <= key[i] <= 'z'
    ensures Label(key) == [UpperChar(key[0])] + key[1..]
  {
    SpaceLowercase(key[1..]);
  }

  lemma {:induction false} SpaceLowercase(s: string)
    requires forall i :: 0 <= i < |s| ==> 'a' <= s[i] <= 'z'
    ensures SpaceBeforeCapitals(s) == s
  {
    if s != [] {
      SpaceLowercase(s[1..]);
      assert s == [s[0]] + s[1..];
    }
  }

  lemma SpaceAtCapital(a: string, c: char, b: string)
    requires forall i :: 0 <= i < |a| ==> 'a' <= a[i] <= 'z'
    requires IsUpper(c)
    ensures SpaceBeforeCapitals(a + [c] + b) == a + [' ', c] + SpaceBeforeCapitals(b)
  {
    SpaceConcat(a, [c] + b);
    SpaceLowercase(a);
    assert ([c] + b)[1..] == b;
    assert a + [c] + b == a + ([c] + b);
  }

  lemma {:induction false} SpaceConcat(a: string, b: string)
    ensures SpaceBeforeCapitals(a + b) == SpaceBeforeCapitals(a) + SpaceBeforeCapitals(b)
  {
    if a == [] {
      assert a + b == b;
    } else {
      assert (a + b)[1..] == a[1..] + b;
      SpaceConcat(a[1..], b);
    }
  }

  // ---------------------------------------------------------------------
  // "Project" children
  // ---------------------------------------------------------------------

  /** The keys of the project entries, in the order the object literal lists them. */
  const PROJECT_KEYS: seq<string> := ["appId", "appName", "versionCode", "version"]

  /** `typeof v === "string" ? v : v?.text`. */
  function DisplayValue(v: ConfigValue): Option<string> {
    match v
    case Absent => None
    case Str(s) => Some(s)
    case WithText(t) => t
  }

  /** An entry shown under "Project": its label and its value. */
  datatype ConItem = ConItem(name: string, description: string)

  /** The entries for the values taken in key order: skipped when undefined or empty. */
  function ProjectItems(keys: seq<string>, values: seq<ConfigValue>): (r: seq<ConItem>)
    requires |keys| == |values| && forall i :: 0 <= i < |keys| ==> keys[i] != []
  {
    if keys == [] then []
    else
      var rest := ProjectItems(keys[1..], values[1..]);
      match DisplayValue(values[0])
      case Some(s) => if s == [] then rest else [ConItem(Label(keys[0]), s)] + rest
      case None => rest
  }

  /** Every item is a shown key with its non-empty value, and every such key has an item. */
  lemma {:induction false} ProjectItemsFacts(keys: seq<string>, values: seq<ConfigValue>)
    requires |keys| == |values| && forall i :: 0 <= i < |keys| ==> keys[i] != []
    ensures |ProjectItems(keys, values)| <= |keys|
    ensures forall item :: item in ProjectItems(keys, values) ==>
      exists i :: 0 <= i < |keys| && DisplayValue(values[i]).Some? &&
        item == ConItem(Label(keys[i]), DisplayValue(values[i]).value) && item.description != []
    ensures forall i :: 0 <= i < |keys| && DisplayValue(values[i]).Some? && DisplayValue(values[i]).value != [] ==>
      ConItem(Label(keys[i]), DisplayValue(values[i]).value) in ProjectItems(keys, values)
  {
    if keys != [] {
      ProjectItemsFacts(keys[1..], values[1..]);
      forall i | 1 <= i < |keys| ensures keys[i] == keys[1..][i - 1] && values[i] == values[1..][i - 1] {
      }
    }
  }

  /** The items of a suffix of the keys: the first key's item, if it has one, before those of the rest. */
  lemma ProjectItemsStep(keys: seq<string>, values: seq<ConfigValue>, i: nat)
    requires |keys| == |values| && forall j :: 0 <= j < |keys| ==> keys[j] != []
    requires i < |keys|
    ensures var v := DisplayValue(values[i]);
      ProjectItems(keys[i..], values[i..]) ==
        (if v.Some? && v.value != [] then [ConItem(Label(keys[i]), v.value)] else []) +
        ProjectItems(keys[i + 1..], values[i + 1..])
  {
    assert keys[i..][1..] == keys[i + 1..] && values[i..][1..] == values[i + 1..];
  }

  /** `generateChild`, with the four project values taken from the loaded configuration. */
  method GenerateChild(treeLabel: string, appId: ConfigValue, appName: ConfigValue,
                       versionCode: ConfigValue, version: ConfigValue)
    returns (children: seq<ConItem>)
    ensures treeLabel != "Project" ==> children == []
    ensures treeLabel == "Project" ==> children == ProjectItems(PROJECT_KEYS, [appId, appName, versionCode, version])
  {
    children := [];
    if treeLabel != "Project" {
      return;
    }
    var values := [appId, appName, versionCode, version];
    var keys := PROJECT_KEYS;
    assert forall j :: 0 <= j < |keys| ==> keys[j] != [];
    var i := |keys|;
    var tail: seq<ConItem> := [];
    // The items are built from the last key back, so that `tail` always holds those of keys[i..].
    while i > 0
      invariant 0 <= i <= |keys|
      invariant tail == ProjectItems(keys[i..], values[i..])
    {
      i := i - 1;
      ProjectItemsStep(keys, values, i);
      var value := DisplayValue(values[i]);
      if value.Some? && value.value != [] {
        tail := [ConItem(Label(keys[i]), value.value)] + tail;
      }
    }
    children := tail;
  }

  /** With only the application id and name set, the project shows exactly "App Id" and "App Name". */
  lemma ProjectItemsExample(id: string, name: string)
    requires id != [] && name != []
    ensures ProjectItems(PROJECT_KEYS, [Str(id), Str(name), Absent, WithText(None)]) ==
      [ConItem(Label("appId"), id), ConItem(Label("appName"), name)]
  {
    var keys := PROJECT_KEYS;
    TwoShown(keys[0], keys[1], keys[2], keys[3], id, name);
    assert [keys[0], keys[1], keys[2], keys[3]] == keys;
  }

  lemma TwoShown(k0: string, k1: string, k2: string, k3: string, id: string, name: string)
    requires k0 != [] && k1 != [] && k2 != [] && k3 != [] && id != [] && name != []
    ensures ProjectItems([k0, k1, k2, k3], [Str(id), Str(name), Absent, WithText(None)]) ==
      [ConItem(Label(k0), id), ConItem(Label(k1), name)]
  {
    var keys, values := [k0, k1, k2, k3], [Str(id), Str(name), Absent, WithText(None)];
    ProjectItemsStep(keys, values, 3);
    ProjectItemsStep(keys, values, 2);
    ProjectItemsStep(keys, values, 1);
    ProjectItemsStep(keys, values, 0);
    assert keys[0..] == keys && values[0..] == values;
  }

  /** `getChildren`: nothing without a package.json or capacitor.config.ts, one "Project" category at the root. */
  function RootChildren(hasPackageJson: bool, hasConfigFile: bool): (r: seq<string>)
    ensures r != [] <==> hasPackageJson && hasConfigFile
  {
    if !hasPackageJson || !hasConfigFile then [] else ["Project"]
  }

  // ---------------------------------------------------------------------
  // File events
  // ---------------------------------------------------------------------

  /** The observed files: capacitor.config.ts and package.json under the root, and build.gradle. */
  datatype ObservedPattern = CapacitorConfigTs | RootPackageJson | BuildGradle

  const OBSERVED_PATTERNS: seq<ObservedPattern> := [CapacitorConfigTs, RootPackageJson, BuildGradle]

  /** `RegExp.prototype.test` of one observed pattern on a path. */
  type PatternTest = (ObservedPattern, string) -> bool

  /** `observedFilesRegExp.find(reg => reg.test(path))`: the index of the first matching pattern. */
  function FindPattern(patterns: seq<ObservedPattern>, path: string, test: PatternTest): (r: Option<nat>)
    ensures r.Some? ==> (r.value < |patterns| && test(patterns[r.value], path) &&
      forall k :: 0 <= k < r.value ==> !test(patterns[k], path))
    ensures r.None? <==> forall k :: 0 <= k < |patterns| ==> !test(patterns[k], path)
  {
    if patterns == [] then None
    else if test(patterns[0], path) then Some(0)
    else
      var rest := FindPattern(patterns[1..], path, test);
      assert forall k :: 1 <= k < |patterns| ==> patterns[k] == patterns[1..][k - 1];
      if rest.None? then None else Some(rest.value + 1)
  }

  /** `shouldBeObserved`: some observed pattern matches the path. */
  function ShouldBeObserved(path: string, test: PatternTest): (r: bool)
    ensures r <==> exists k :: 0 <= k < |OBSERVED_PATTERNS| && test(OBSERVED_PATTERNS[k], path)
  {
    FindPattern(OBSERVED_PATTERNS, path, test).Some?
  }

  /** `onFileEvent`: the paths of the event that are observed, in order (`filter`). */
  function ObservedFiles(paths: seq<string>, test: PatternTest): (r: seq<string>)
    ensures forall p :: p in r <==> p in paths && ShouldBeObserved(p, test)
  {
    if paths == [] then []
    else
      assert forall p :: p in paths <==> p == paths[0] || p in paths[1..];
      (if ShouldBeObserved(paths[0], test) then [paths[0]] else []) + ObservedFiles(paths[1..], test)
  }

  /** A file event refreshes the tree iff at least one of its paths is observed. */
  lemma OnFileEventRefreshes(paths: seq<string>, test: PatternTest)
    ensures ObservedFiles(paths, test) != [] <==> exists i :: 0 <= i < |paths| && ShouldBeObserved(paths[i], test)
  {
    var r := ObservedFiles(paths, test);
    if r != [] {
      assert r[0] in r;
    }
    if i :| 0 <= i < |paths| && ShouldBeObserved(paths[i], test) {
      assert paths[i] in paths;
    }
  }

  // ---------------------------------------------------------------------
  // The provider's plugin list
  // ---------------------------------------------------------------------

  /** The names `getPluginsInfo` tries: dependencies (not devDependencies), then the local plugins. */
  function PluginCandidates(pkg: PackageJson, config: Option<CapacitorConfig>): seq<string> {
    Keys(pkg.dependencies) + LocalPluginsOf(config)
  }

  /** The resolved plugins of `names`, in order, each as `resolvePlugin` returns it. */
  function Resolved(names: seq<string>, resolve: Resolver, read: MetaReader): seq<PluginInfo> {
    if names == [] then []
    else
      var rest := Resolved(names[1..], resolve, read);
      match ResolvePlugin(names[0], resolve, read)
      case None => rest
      case Some(info) => [info] + rest
  }

  lemma {:induction false} ResolvedSnoc(names: seq<string>, key: string, resolve: Resolver, read: MetaReader)
    ensures Resolved(names + [key], resolve, read) ==
      Resolved(names, resolve, read) + (match ResolvePlugin(key, resolve, read) case None => [] case Some(info) => [info])
  {
    if names == [] {
      assert names + [key] == [key];
    } else {
      assert (names + [key])[1..] == names[1..] + [key];
      ResolvedSnoc(names[1..], key, resolve, read);
    }
  }

  /** One more candidate of a list: its prefix resolves to the shorter prefix's plugins plus that candidate's own. */
  lemma ResolvedPrefix(names: seq<string>, i: nat, resolve: Resolver, read: MetaReader)
    requires i < |names|
    ensures Resolved(names[..i + 1], resolve, read) ==
      Resolved(names[..i], resolve, read) + (match ResolvePlugin(names[i], resolve, read) case None => [] case Some(info) => [info])
  {
    assert names[..i + 1] == names[..i] + [names[i]];
    ResolvedSnoc(names[..i], names[i], resolve, read);
  }

  /** Resolved plugins are exactly the candidates that resolve, each with its `resolvePlugin` result. */
  lemma {:induction false} ResolvedFacts(names: seq<string>, resolve: Resolver, read: MetaReader)
    ensures |Resolved(names, resolve, read)| <= |names|
    ensures forall p :: p in Resolved(names, resolve, read) ==>
      p.id in names && ResolvePlugin(p.id, resolve, read) == Some(p)
    ensures forall n :: n in names && ResolvePlugin(n, resolve, read).Some? ==>
      ResolvePlugin(n, resolve, read).value in Resolved(names, resolve, read)
  {
    if names != [] {
      ResolvedFacts(names[1..], resolve, read);
      forall n | n in names && ResolvePlugin(n, resolve, read).Some?
        ensures ResolvePlugin(n, resolve, read).value in Resolved(names, resolve, read)
      {
        if n != names[0] {
          assert n in names[1..];
        }
      }
    }
  }

  /** The state of the configuration provider that `getPluginsInfo` reads and writes. */
  class ConfigurationView {
    var capacitorConfig: Option<CapacitorConfig>
    var plugins: seq<PluginInfo>

    constructor ()
      ensures capacitorConfig.None? && plugins == []
    {
      capacitorConfig := None;
      plugins := [];
    }

    /** `getPluginsInfo`: append every resolved candidate to `plugins`, which is never cleared. */
    method GetPluginsInfo(pkg: PackageJson, resolve: Resolver, read: MetaReader) returns (all: seq<PluginInfo>)
      modifies this`plugins
      ensures plugins == old(plugins) + Resolved(PluginCandidates(pkg, capacitorConfig), resolve, read)
      ensures all == plugins
    {
      var possible := PluginCandidates(pkg, capacitorConfig);
      ghost var start := plugins;
      for i := 0 to |possible|
        invariant plugins == start + Resolved(possible[..i], resolve, read)
      {
        ResolvedPrefix(possible, i, resolve, read);
        var info := ResolvePlugin(possible[i], resolve, read);
        if info.Some? {
          plugins := plugins + [info.value];
        }
      }
      assert possible[..|possible|] == possible;
      all := plugins;
    }
  }

  /** Two refreshes with unchanged inputs hold every resolved plugin twice. */
  method RefreshTwice(view: ConfigurationView, pkg: PackageJson, resolve: Resolver, read: MetaReader)
    modifies view
    ensures var once := Resolved(PluginCandidates(pkg, old(view.capacitorConfig)), resolve, read);
      view.plugins == old(view.plugins) + once + once
  {
    var a := view.GetPluginsInfo(pkg, resolve, read);
    var b := view.GetPluginsInfo(pkg, resolve, read);
  }
}
