/**
 * The dependency tree of src/entry/dependencies.ts: the items built from
 * package.json, the category rules of `getChildren`, whether the view
 * registers at all, and the version list of the "select version" command.
 * `npm view`, `JSON.parse`, the quick pick and `npm install` are inputs.
 */
module Dependencies {
  import opened Wrappers
  import opened Text
  import opened Common

  /** A tree item for one package: label, description and tooltip. */
  datatype Dependency = Dependency(name: string, description: string, tooltip: string)

  /** `new Dependency(name, version, …)`: the tooltip is "name-version". */
  function ToDependency(name: string, version: string): Dependency {
    Dependency(name, version, name + "-" + version)
  }

  /** The items of one dependency map, in key order; a missing map gives none. */
  function DepsOf(section: Option<seq<(string, string)>>): (r: seq<Dependency>)
    ensures section.None? ==> r == []
    ensures section.Some? ==> (|r| == |section.value| &&
      forall i :: 0 <= i < |r| ==>
        r[i].name == section.value[i].0 && r[i].description == section.value[i].1 &&
        r[i].tooltip == section.value[i].0 + "-" + section.value[i].1)
  {
    if section.None? then []
    else seq(|section.value|, i requires 0 <= i < |section.value| => ToDependency(section.value[i].0, section.value[i].1))
  }

  datatype Deps = Deps(dependencies: seq<Dependency>, devDependencies: seq<Dependency>)

  /** `getDepsInPackageJson`. */
  function GetDepsInPackageJson(pkg: PackageJson): (d: Deps)
    ensures |d.dependencies| == |Keys(pkg.dependencies)| && |d.devDependencies| == |Keys(pkg.devDependencies)|
  {
    Deps(DepsOf(pkg.dependencies), DepsOf(pkg.devDependencies))
  }

  /** The labels of the items are the keys of the map. */
  lemma DepsLabelsAreKeys(section: Option<seq<(string, string)>>)
    ensures var r := DepsOf(section);
      |r| == |Keys(section)| && forall i :: 0 <= i < |r| ==> r[i].name == Keys(section)[i]
  {
  }

  /** `registerModule`: the view is registered unless both dependency maps are empty or missing. */
  predicate ShouldRegister(pkg: Option<PackageJson>) {
    pkg.Some? && (Keys(pkg.value.dependencies) != [] || Keys(pkg.value.devDependencies) != [])
  }

  /** Registering happens exactly when the root would show at least one category. */
  lemma RegisterIffCategories(pkg: PackageJson)
    ensures ShouldRegister(Some(pkg)) <==> RootCategories(GetDepsInPackageJson(pkg)) != []
  {
  }

  datatype DepNode = Category(name: string) | Package(dep: Dependency)

  /** The root categories: "Dependencies" then "DevDependencies", each only when it has items. */
  function RootCategories(d: Deps): seq<string> {
    (if d.dependencies != [] then ["Dependencies"] else []) +
    (if d.devDependencies != [] then ["DevDependencies"] else [])
  }

  function Packages(ds: seq<Dependency>): (r: seq<DepNode>)
    ensures |r| == |ds| && forall i :: 0 <= i < |ds| ==> r[i] == Package(ds[i])
  {
    seq(|ds|, i requires 0 <= i < |ds| => Package(ds[i]))
  }

  /**
   * Expanding a category shows one package node per key of its section, in
   * key order, each labelled with the key and described with its version.
   */
  lemma PackagesAreKeyNodes(section: Option<seq<(string, string)>>)
    ensures var nodes := Packages(DepsOf(section));
      |nodes| == |Keys(section)| &&
      forall i :: 0 <= i < |nodes| ==>
        nodes[i].Package? && nodes[i].dep.name == Keys(section)[i] && nodes[i].dep.description == section.value[i].1
  {
  }

  /** The dependency tree provider; `deps` holds the lists of the last root expansion. */
  class DepNodeProvider {
    var deps: Deps

    constructor ()
      ensures deps == Deps([], [])
    {
      deps := Deps([], []);
    }

    /**
     * `getChildren`: a category returns the lists stored at the last root
     * expansion; the root re-reads package.json and lists its non-empty
     * categories.
     */
    method GetChildren(element: Option<string>, pkg: Option<PackageJson>) returns (children: seq<DepNode>)
      modifies this`deps
      ensures pkg.None? ==> children == [] && deps == old(deps)
      ensures pkg.Some? && element == Some("Dependencies") ==>
        children == Packages(old(deps).dependencies) && deps == old(deps)
      ensures pkg.Some? && element == Some("DevDependencies") ==>
        children == Packages(old(deps).devDependencies) && deps == old(deps)
      ensures pkg.Some? && element != Some("Dependencies") && element != Some("DevDependencies") ==>
        deps == GetDepsInPackageJson(pkg.value) &&
        |children| == |RootCategories(deps)| &&
        forall i :: 0 <= i < |children| ==> children[i] == Category(RootCategories(deps)[i])
    {
      if pkg.None? {
        return [];
      }
      if element == Some("Dependencies") {
        return Packages(deps.dependencies);
      }
      if element == Some("DevDependencies") {
        return Packages(deps.devDependencies);
      }
      deps := GetDepsInPackageJson(pkg.value);
      children := [];
      if |deps.dependencies| > 0 {
        children := children + [Category("Dependencies")];
      }
      if |deps.devDependencies| > 0 {
        children := children + [Category("DevDependencies")];
      }
    }
  }

  /** Expanding a category after the root shows the items of the package.json the root read. */
  method ExpandAfterRoot(provider: DepNodeProvider, pkg: PackageJson) returns (items: seq<DepNode>)
    modifies provider
    ensures items == Packages(DepsOf(pkg.dependencies))
  {
    var root := provider.GetChildren(None, Some(pkg));
    items := provider.GetChildren(Some("Dependencies"), Some(pkg));
  }

  // ---------------------------------------------------------------------
  // selectVersion
  // ---------------------------------------------------------------------

  /** `stdout.replace(/'/g, '"')`. */
  function SingleToDoubleQuotes(s: string): (r: string)
    ensures |r| == |s|
    ensures forall i :: 0 <= i < |s| ==> r[i] == (if s[i] == '\'' then '"' else s[i])
  {
    seq(|s|, i requires 0 <= i < |s| => if s[i] == '\'' then '"' else s[i])
  }

  /** After the rewrite no single quote is left, and nothing else changed. */
  lemma QuotesRewritten(s: string)
    ensures '\'' !in SingleToDoubleQuotes(s)
    ensures '\'' !in s ==> SingleToDoubleQuotes(s) == s
  {
    var r := SingleToDoubleQuotes(s);
    forall i | 0 <= i < |r| ensures r[i] != '\'' {
    }
  }

  /** What `JSON.parse` of the version text yields, as far as `selectVersion` looks at it. */
  datatype Parsed =
    | NotJson                      // JSON.parse throws
    | VersionList(versions: seq<string>)
    | OtherJson(truthyLength: bool) // a string, number, object or `null`; `reverse` is not a function on it, and on `null` reading `length` throws

  /** The reverse of a sequence. */
  function Reversed(s: seq<string>): (r: seq<string>)
    ensures |r| == |s| && forall i :: 0 <= i < |s| ==> r[i] == s[|s| - 1 - i]
  {
    seq(|s|, i requires 0 <= i < |s| => s[|s| - 1 - i])
  }

  /** Reversing twice gives back the original order. */
  lemma ReversedTwice(s: seq<string>)
    ensures Reversed(Reversed(s)) == s
  {
  }

  /** `Array.prototype.reverse`: reverse the array in place. */
  method ReverseInPlace(a: array<string>)
    modifies a
    ensures a[..] == Reversed(old(a[..]))
  {
    var i, j := 0, a.Length - 1;
    while i < j
      invariant 0 <= i <= a.Length && j == a.Length - 1 - i
      invariant i <= j + 1
      invariant forall k :: 0 <= k < i ==> a[k] == old(a[a.Length - 1 - k])
      invariant forall k :: j < k < a.Length ==> a[k] == old(a[a.Length - 1 - k])
      invariant forall k :: i <= k <= j ==> a[k] == old(a[k])
    {
      a[i], a[j] := a[j], a[i];
      i, j := i + 1, j - 1;
    }
  }

  datatype VersionChoice =
    | ParseFailed                 // the command shows "Can't get version of …"
    | NoVersions                  // `undefined`
    | Picked(choice: Option<string>)

  /**
   * `selectVersion`: the `npm view` output (`None` when it failed), parsed,
   * reversed once for the message and once more for the quick pick. The
   * results are the choice, the list shown in the message and the list
   * offered to the quick pick.
   */
  method SelectVersion(stdout: Option<string>, parse: string -> Parsed, pick: seq<string> -> Option<string>)
    returns (result: VersionChoice, shown: seq<string>, offered: seq<string>)
    ensures var text := if stdout.Some? then SingleToDoubleQuotes(stdout.value) else "[]";
      match parse(text)
      case NotJson => result == ParseFailed
      case OtherJson(truthy) => result == (if truthy then ParseFailed else NoVersions)
      case VersionList(vs) =>
        (vs == [] ==> result == NoVersions) &&
        (vs != [] ==> shown == Reversed(vs) && offered == vs && result == Picked(pick(vs)))
  {
    var versions := "[]";
    if stdout.Some? {
      versions := SingleToDoubleQuotes(stdout.value);
    }
    shown, offered := [], [];
    match parse(versions)
    case NotJson =>
      return ParseFailed, shown, offered;
    case OtherJson(truthy) =>
      return if truthy then ParseFailed else NoVersions, shown, offered;
    case VersionList(vs) =>
      if |vs| == 0 {
        return NoVersions, shown, offered;
      }
      var arr := new string[|vs|](i requires 0 <= i < |vs| => vs[i]);
      assert arr[..] == vs;
      ReverseInPlace(arr);
      shown := arr[..];
      ReverseInPlace(arr);
      offered := arr[..];
      ReversedTwice(vs);
      result := Picked(pick(offered));
  }

  /** `ver?.trim()` is truthy: an install happens only for a non-blank choice. */
  predicate ShouldInstall(choice: VersionChoice) {
    choice.Picked? && choice.choice.Some? && Trim(choice.choice.value) != []
  }

  /** A choice made only of whitespace, or none, installs nothing. */
  lemma BlankChoiceInstallsNothing(choice: VersionChoice)
    ensures ShouldInstall(choice) <==>
      choice.Picked? && choice.choice.Some? &&
      exists k :: 0 <= k < |choice.choice.value| && !IsWhitespace(choice.choice.value[k])
  {
    if choice.Picked? && choice.choice.Some? {
      TrimEmpty(choice.choice.value);
    }
  }
}
