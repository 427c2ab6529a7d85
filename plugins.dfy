/**
 * The plugin tree of src/entry/plugins.ts: which plugins appear under
 * "Local", "NPM" and "Ignore", and the edits that `activatePlugin` and
 * `ignorePlugin` make to the `includePlugins` list of the loaded Capacitor
 * configuration. Rewriting the text of capacitor.config.ts and the VS Code
 * tree items themselves are outside the model.
 */
module Plugins {
  import opened Wrappers
  import opened Common

  // ---------------------------------------------------------------------
  // Classification
  // ---------------------------------------------------------------------

  /** `config?.android?.includePlugins || config?.includePlugins`: an array is truthy even when empty. */
  function IncludeListOf(config: Option<CapacitorConfig>): (r: Option<seq<string>>)
    ensures config.None? ==> r.None?
    ensures config.Some? && config.value.android.Some? && config.value.android.value.includePlugins.Some? ==>
      r == config.value.android.value.includePlugins
    ensures config.Some? && (config.value.android.None? || config.value.android.value.includePlugins.None?) ==>
      r == config.value.includePlugins
  {
    if config.None? then None
    else if config.value.android.Some? && config.value.android.value.includePlugins.Some? then
      config.value.android.value.includePlugins
    else config.value.includePlugins
  }

  /**
   * The commands edit the top-level `includePlugins`, but the tree reads the
   * android list first: an edit shows in the tree exactly when the android
   * section has no `includePlugins` of its own.
   */
  lemma TopLevelEditShadowed(config: CapacitorConfig, list: Option<seq<string>>)
    ensures config.android.Some? && config.android.value.includePlugins.Some? ==>
      IncludeListOf(Some(config.(includePlugins := list))) == IncludeListOf(Some(config))
    ensures config.android.None? || config.android.value.includePlugins.None? ==>
      IncludeListOf(Some(config.(includePlugins := list))) == list
  {
  }

  datatype PluginType = Local | Npm | Ignore

  /** A plugin counts as included when there is no include list or its id is on it. */
  predicate Included(includeIds: Option<seq<string>>, id: string) {
    includeIds.None? || id in includeIds.value
  }

  /** Which group of the tree a plugin belongs to. */
  predicate InGroup(p: PluginInfo, includeIds: Option<seq<string>>, group: PluginType) {
    match group
    case Ignore => includeIds.Some? && p.id !in includeIds.value
    case Local => p.local && Included(includeIds, p.id)
    case Npm => !p.local && Included(includeIds, p.id)
  }

  /** The plugins of one group, in their original order. */
  function Select(plugins: seq<PluginInfo>, includeIds: Option<seq<string>>, group: PluginType): seq<PluginInfo> {
    if plugins == [] then []
    else (if InGroup(plugins[0], includeIds, group) then [plugins[0]] else []) + Select(plugins[1..], includeIds, group)
  }

  /** A group holds exactly the plugins that belong to it, each taken from the list. */
  lemma {:induction false} SelectMembers(plugins: seq<PluginInfo>, includeIds: Option<seq<string>>, group: PluginType)
    ensures |Select(plugins, includeIds, group)| <= |plugins|
    ensures forall p :: p in Select(plugins, includeIds, group) <==> p in plugins && InGroup(p, includeIds, group)
  {
    if plugins != [] {
      SelectMembers(plugins[1..], includeIds, group);
      assert plugins == [plugins[0]] + plugins[1..];
    }
  }

  /** Selecting from a longer list extends the selection at the end: the order is kept. */
  lemma {:induction false} SelectSnoc(plugins: seq<PluginInfo>, p: PluginInfo, includeIds: Option<seq<string>>, group: PluginType)
    ensures Select(plugins + [p], includeIds, group) ==
      Select(plugins, includeIds, group) + (if InGroup(p, includeIds, group) then [p] else [])
  {
    var whole := plugins + [p];
    if plugins == [] {
      assert whole == [p];
    } else {
      assert whole[0] == plugins[0] && whole[1..] == plugins[1..] + [p];
      var head := if InGroup(plugins[0], includeIds, group) then [plugins[0]] else [];
      var tail := if InGroup(p, includeIds, group) then [p] else [];
      SelectSnoc(plugins[1..], p, includeIds, group);
      calc {
        Select(whole, includeIds, group);
        head + Select(plugins[1..] + [p], includeIds, group);
        head + (Select(plugins[1..], includeIds, group) + tail);
        (head + Select(plugins[1..], includeIds, group)) + tail;
        Select(plugins, includeIds, group) + tail;
      }
    }
  }

  /**
   * With an include list every plugin is in exactly one group; without
   * one, nothing is ignored and every plugin is Local or NPM.
   */
  lemma GroupsPartition(p: PluginInfo, includeIds: Option<seq<string>>)
    ensures includeIds.None? ==> !InGroup(p, includeIds, Ignore) && (InGroup(p, includeIds, Local) != InGroup(p, includeIds, Npm))
    ensures includeIds.Some? ==>
      (InGroup(p, includeIds, Ignore) && !InGroup(p, includeIds, Local) && !InGroup(p, includeIds, Npm)) ||
      (!InGroup(p, includeIds, Ignore) && (InGroup(p, includeIds, Local) != InGroup(p, includeIds, Npm)))
  {
  }

  /** A node of the plugin tree: a category, or a plugin under one. */
  datatype TreeNode = Category(kind: PluginType) | PluginNode(name: string, id: string, local: bool, kind: PluginType)

  function ItemsOf(ps: seq<PluginInfo>, kind: PluginType): (items: seq<TreeNode>)
    ensures |items| == |ps|
    ensures forall i :: 0 <= i < |ps| ==> items[i] == PluginNode(ps[i].name, ps[i].id, ps[i].local, kind)
  {
    seq(|ps|, i requires 0 <= i < |ps| => PluginNode(ps[i].name, ps[i].id, ps[i].local, kind))
  }

  /**
   * The items under a category are exactly the plugins of its group, each
   * shown with its own name, id and local flag: under "Local" every item is
   * local, under "NPM" none is.
   */
  lemma CategoryItems(plugins: seq<PluginInfo>, includeIds: Option<seq<string>>, kind: PluginType)
    ensures forall n :: n in ItemsOf(Select(plugins, includeIds, kind), kind) <==>
      exists p :: p in plugins && InGroup(p, includeIds, kind) && n == PluginNode(p.name, p.id, p.local, kind)
  {
    var sel := Select(plugins, includeIds, kind);
    var items := ItemsOf(sel, kind);
    SelectMembers(plugins, includeIds, kind);
    forall n | n in items
      ensures exists p :: p in plugins && InGroup(p, includeIds, kind) && n == PluginNode(p.name, p.id, p.local, kind)
    {
      var i :| 0 <= i < |items| && items[i] == n;
      assert sel[i] in sel;
    }
    forall p | p in plugins && InGroup(p, includeIds, kind)
      ensures PluginNode(p.name, p.id, p.local, kind) in items
    {
      var i :| 0 <= i < |sel| && sel[i] == p;
      assert items[i] == PluginNode(p.name, p.id, p.local, kind);
    }
  }

  /** The categories shown at the root: each non-empty group, in the order Local, NPM, Ignore. */
  function RootCategories(plugins: seq<PluginInfo>, includeIds: Option<seq<string>>): seq<PluginType> {
    (if Select(plugins, includeIds, Local) != [] then [Local] else []) +
    (if Select(plugins, includeIds, Npm) != [] then [Npm] else []) +
    (if Select(plugins, includeIds, Ignore) != [] then [Ignore] else [])
  }

  /** A category is shown iff some plugin belongs to it. */
  lemma RootCategoriesShown(plugins: seq<PluginInfo>, includeIds: Option<seq<string>>, g: PluginType)
    ensures g in RootCategories(plugins, includeIds) <==> exists p :: p in plugins && InGroup(p, includeIds, g)
  {
    ShownIffSelected(plugins, includeIds, g);
    SelectNonEmpty(plugins, includeIds, g);
  }

  lemma ShownIffSelected(plugins: seq<PluginInfo>, includeIds: Option<seq<string>>, g: PluginType)
    ensures g in RootCategories(plugins, includeIds) <==> Select(plugins, includeIds, g) != []
  {
  }

  /** A group is non-empty iff some plugin belongs to it. */
  lemma {:induction false} SelectNonEmpty(plugins: seq<PluginInfo>, includeIds: Option<seq<string>>, g: PluginType)
    ensures Select(plugins, includeIds, g) != [] <==> exists p :: p in plugins && InGroup(p, includeIds, g)
  {
    if plugins != [] {
      SelectNonEmpty(plugins[1..], includeIds, g);
      if !InGroup(plugins[0], includeIds, g) {
        forall p | p in plugins && InGroup(p, includeIds, g) ensures p in plugins[1..] {
          assert plugins == [plugins[0]] + plugins[1..];
        }
      }
    }
  }

  /** Without an include list nothing is ignored. */
  lemma {:induction false} NothingIgnoredWithoutList(plugins: seq<PluginInfo>)
    ensures Select(plugins, None, Ignore) == []
    ensures Ignore !in RootCategories(plugins, None)
  {
    if plugins != [] {
      NothingIgnoredWithoutList(plugins[1..]);
    }
  }

  /** The categories come in the order Local, NPM, Ignore without repetition, and there are none without plugins. */
  lemma RootCategoriesOrdered(plugins: seq<PluginInfo>, includeIds: Option<seq<string>>)
    ensures var r := RootCategories(plugins, includeIds);
      (forall i, j :: 0 <= i < j < |r| ==> Rank(r[i]) < Rank(r[j])) && (plugins == [] ==> r == [])
  {
  }

  /** The display order of the categories. */
  function Rank(g: PluginType): nat {
    match g
    case Local => 0
    case Npm => 1
    case Ignore => 2
  }

  /** The category a tree label names, if any; other labels fall to the default branch. */
  function LabelKind(treeLabel: Option<string>): Option<PluginType> {
    if treeLabel == Some("Local") then Some(Local)
    else if treeLabel == Some("NPM") then Some(Npm)
    else if treeLabel == Some("Ignore") then Some(Ignore)
    else None
  }

  /** The `forEach` of the default branch: split the included plugins into local and npm buckets. */
  method BucketPlugins(plugins: seq<PluginInfo>, includeIds: Option<seq<string>>)
    returns (local: seq<PluginInfo>, npm: seq<PluginInfo>)
    ensures local == Select(plugins, includeIds, Local)
    ensures npm == Select(plugins, includeIds, Npm)
  {
    local, npm := [], [];
    for i := 0 to |plugins|
      invariant local == Select(plugins[..i], includeIds, Local)
      invariant npm == Select(plugins[..i], includeIds, Npm)
    {
      var p := plugins[i];
      assert plugins[..i + 1] == plugins[..i] + [p];
      SelectSnoc(plugins[..i], p, includeIds, Local);
      SelectSnoc(plugins[..i], p, includeIds, Npm);
      if Included(includeIds, p.id) {
        if p.local {
          local := local + [p];
        } else {
          npm := npm + [p];
        }
      }
    }
    assert plugins[..|plugins|] == plugins;
  }

  /**
   * `generateChild`: no plugins gives no children; a category label gives
   * that group's plugins; any other label gives the root categories.
   */
  method GenerateChild(treeLabel: Option<string>, plugins: Option<seq<PluginInfo>>, config: Option<CapacitorConfig>)
    returns (children: seq<TreeNode>)
    ensures plugins.None? || plugins.value == [] ==> children == []
    ensures plugins.Some? && plugins.value != [] && LabelKind(treeLabel).Some? ==>
      var kind := LabelKind(treeLabel).value;
      children == ItemsOf(Select(plugins.value, IncludeListOf(config), kind), kind)
    ensures plugins.Some? && plugins.value != [] && LabelKind(treeLabel).None? ==>
      var cats := RootCategories(plugins.value, IncludeListOf(config));
      |children| == |cats| && forall i :: 0 <= i < |cats| ==> children[i] == Category(cats[i])
  {
    if plugins.None? || plugins.value == [] {
      return [];
    }
    var includeIds := IncludeListOf(config);
    var ps := plugins.value;
    match LabelKind(treeLabel)
    case Some(kind) =>
      children := ItemsOf(Select(ps, includeIds, kind), kind);
    case None =>
      var local, npm := BucketPlugins(ps, includeIds);
      var ignored := Select(ps, includeIds, Ignore);
      children := [];
      if |local| > 0 {
        children := children + [Category(Local)];
      }
      if |npm| > 0 {
        children := children + [Category(Npm)];
      }
      if |ignored| > 0 {
        children := children + [Category(Ignore)];
      }
  }

  /** `getChildren`: nothing without a package.json or a capacitor.config.ts. */
  method GetChildren(hasPackageJson: bool, hasCapacitorConfigFile: bool, treeLabel: Option<string>,
                     plugins: Option<seq<PluginInfo>>, config: Option<CapacitorConfig>)
    returns (children: seq<TreeNode>)
    ensures !hasPackageJson || !hasCapacitorConfigFile ==> children == []
    ensures hasPackageJson && hasCapacitorConfigFile && (plugins.None? || plugins.value == []) ==> children == []
    ensures hasPackageJson && hasCapacitorConfigFile && plugins.Some? && plugins.value != [] && LabelKind(treeLabel).Some? ==>
      var kind := LabelKind(treeLabel).value;
      children == ItemsOf(Select(plugins.value, IncludeListOf(config), kind), kind)
    ensures hasPackageJson && hasCapacitorConfigFile && plugins.Some? && plugins.value != [] && LabelKind(treeLabel).None? ==>
      var cats := RootCategories(plugins.value, IncludeListOf(config));
      |children| == |cats| && forall i :: 0 <= i < |cats| ==> children[i] == Category(cats[i])
    ensures forall i :: 0 <= i < |children| ==> children[i].Category? ==> LabelKind(treeLabel).None?
  {
    if !hasPackageJson || !hasCapacitorConfigFile {
      return [];
    }
    children := GenerateChild(treeLabel, plugins, config);
  }

  // ---------------------------------------------------------------------
  // Editing includePlugins
  // ---------------------------------------------------------------------

  /** `indexOf` on a list of strings: the first index of `x`, or -1. */
  function IndexOfElem(list: seq<string>, x: string): (i: int)
    ensures -1 <= i < |list|
    ensures i == -1 <==> x !in list
    ensures i >= 0 ==> list[i] == x && forall k :: 0 <= k < i ==> list[k] != x
  {
    if list == [] then -1
    else if list[0] == x then 0
    else
      var j := IndexOfElem(list[1..], x);
      assert forall k :: 1 <= k < |list| ==> list[k] == list[1..][k - 1];
      if j == -1 then -1 else j + 1
  }

  /** `list.splice(start, 1)`: a negative start counts from the end, a start past the end removes nothing. */
  function SpliceOne(list: seq<string>, start: int): (r: seq<string>)
    ensures 0 <= start < |list| ==> r == list[..start] + list[start + 1..]
    ensures start >= |list| ==> r == list
    ensures start < 0 && list != [] ==> r == (var s := if |list| + start < 0 then 0 else |list| + start; list[..s] + list[s + 1..])
    ensures list == [] ==> r == []
  {
    var s := if start >= 0 then start else if |list| + start < 0 then 0 else |list| + start;
    if s >= |list| then list else list[..s] + list[s + 1..]
  }

  /** The index `splice` starts at: a negative start counts from the end, clamped at 0. */
  function SpliceStart(list: seq<string>, start: int): nat {
    if start >= 0 then start else if |list| + start < 0 then 0 else |list| + start
  }

  /**
   * A splice that starts inside the list removes exactly one element and
   * keeps the others; a start of -1 removes the last element.
   */
  lemma SpliceOneRemovesOne(list: seq<string>, start: int)
    requires list != [] && start < |list|
    ensures SpliceStart(list, start) < |list|
    ensures |SpliceOne(list, start)| == |list| - 1
    ensures multiset(SpliceOne(list, start)) + multiset{list[SpliceStart(list, start)]} == multiset(list)
    ensures start == -1 ==> SpliceOne(list, start) == list[..|list| - 1]
  {
    var k := SpliceStart(list, start);
    assert list == list[..k] + [list[k]] + list[k + 1..];
  }

  /** `includePlugins.splice(includePlugins.indexOf(id), 1)`, as `ignorePlugin` writes it. */
  function SpliceIndexOf(list: seq<string>, id: string): seq<string> {
    SpliceOne(list, IndexOfElem(list, id))
  }

  /** An id that is not on the list makes the splice drop the list's last element. */
  lemma SpliceIndexOfRemovesLast(list: seq<string>, id: string)
    requires id !in list && list != []
    ensures SpliceIndexOf(list, id) == list[..|list| - 1]
  {
  }

  /** Ignoring "c" while the list is ["a", "b"] leaves ["a"]. */
  lemma SpliceIndexOfExample()
    ensures SpliceIndexOf(["a", "b"], "c") == ["a"]
  {
    SpliceIndexOfRemovesLast(["a", "b"], "c");
  }

  /** The intended edit: remove the first occurrence of `id`, and change nothing when it is absent. */
  function RemoveId(list: seq<string>, id: string): (r: seq<string>)
    ensures id !in list ==> r == list
    ensures id in list ==> (|r| == |list| - 1 &&
      exists i :: 0 <= i < |list| && list[i] == id && (forall k :: 0 <= k < i ==> list[k] != id) &&
        r == list[..i] + list[i + 1..])
    ensures multiset(r) == multiset(list) - multiset{id}
  {
    var i := IndexOfElem(list, id);
    if i == -1 then list
    else
      assert list == list[..i] + [list[i]] + list[i + 1..];
      list[..i] + list[i + 1..]
  }

  /** When the id is on the list, the source's splice and the intended removal agree. */
  lemma SpliceAgreesWhenPresent(list: seq<string>, id: string)
    requires id in list
    ensures SpliceIndexOf(list, id) == RemoveId(list, id)
  {
  }

  /** Activating an id and then ignoring it restores the list. */
  lemma RemoveAppended(list: seq<string>, id: string)
    requires id !in list
    ensures RemoveId(list + [id], id) == list
  {
    var l := list + [id];
    assert l[|list|] == id;
    assert forall k :: 0 <= k < |list| ==> l[k] == list[k];
    assert IndexOfElem(l, id) == |list|;
    assert l[..|list|] == list;
  }

  /** The ids of all plugins except `id`, in order (`map` then `filter`). */
  function OtherIds(plugins: seq<PluginInfo>, id: string): (r: seq<string>)
    ensures |r| <= |plugins|
    ensures forall x :: x in r <==> x != id && exists p :: p in plugins && p.id == x
  {
    if plugins == [] then []
    else
      var rest := OtherIds(plugins[1..], id);
      assert forall p :: p in plugins <==> p == plugins[0] || p in plugins[1..];
      (if plugins[0].id != id then [plugins[0].id] else []) + rest
  }

  /** The filter keeps order: the ids of a concatenation are the ids of each part, in turn. */
  lemma {:induction false} OtherIdsConcat(a: seq<PluginInfo>, b: seq<PluginInfo>, id: string)
    ensures OtherIds(a + b, id) == OtherIds(a, id) + OtherIds(b, id)
  {
    if a != [] {
      assert (a + b)[0] == a[0];
      assert (a + b)[1..] == a[1..] + b;
      OtherIdsConcat(a[1..], b, id);
    } else {
      assert a + b == b;
    }
  }

  /** When no plugin has the id, the result is every plugin's id in the original order. */
  lemma {:induction false} OtherIdsWithoutId(plugins: seq<PluginInfo>, id: string)
    requires forall i :: 0 <= i < |plugins| ==> plugins[i].id != id
    ensures |OtherIds(plugins, id)| == |plugins|
    ensures forall i :: 0 <= i < |plugins| ==> OtherIds(plugins, id)[i] == plugins[i].id
  {
    if plugins != [] {
      var t := plugins[1..];
      assert forall i :: 0 <= i < |t| ==> t[i] == plugins[i + 1];
      OtherIdsWithoutId(t, id);
    }
  }

  /**
   * `plugins.find(p => p.name === name)`: the FIRST plugin with that name.
   * Distinct packages can share a fixed name ("capacitor-camera" and
   * "@capacitor/camera" both give "CapacitorCamera"); the earlier one wins.
   */
  function FindByName(plugins: seq<PluginInfo>, name: string): (r: Option<PluginInfo>)
    ensures r.Some? ==> r.value in plugins && r.value.name == name
    ensures r.Some? ==> exists i :: (0 <= i < |plugins| && plugins[i] == r.value &&
                                     forall k :: 0 <= k < i ==> plugins[k].name != name)
    ensures r.None? <==> forall p :: p in plugins ==> p.name != name
  {
    if plugins == [] then None
    else if plugins[0].name == name then Some(plugins[0])
    else
      assert forall p :: p in plugins <==> p == plugins[0] || p in plugins[1..];
      var r := FindByName(plugins[1..], name);
      assert r.Some? ==> exists i :: (0 <= i < |plugins| && plugins[i] == r.value &&
                                      forall k :: 0 <= k < i ==> plugins[k].name != name) by {
        if r.Some? {
          var j :| 0 <= j < |plugins[1..]| && plugins[1..][j] == r.value &&
            forall k :: 0 <= k < j ==> plugins[1..][k].name != name;
          assert plugins[j + 1] == r.value;
          assert forall k :: 0 <= k < j + 1 ==> plugins[k].name != name by {
            forall k | 0 <= k < j + 1 ensures plugins[k].name != name {
              if k > 0 { assert plugins[k] == plugins[1..][k - 1]; }
            }
          }
        }
      }
      r
  }

  /** The earlier of two plugins sharing a name is found, whatever its id. */
  lemma FindByNameFirstWins(a: PluginInfo, b: PluginInfo, rest: seq<PluginInfo>)
    requires a.name == b.name
    ensures FindByName([a, b] + rest, a.name) == Some(a)
  {
  }

  /** What a command did to the configuration. */
  datatype EditOutcome =
    | Crashed      // a TypeError on a missing value
    | NotFound     // "Can not resolve plugin"
    | Unchanged
    | Rewritten    // the list changed and the configuration file is rewritten

  /**
   * The part of the loaded configuration the commands edit: the
   * top-level `includePlugins` array (which both commands change in place)
   * together with the resolved plugins.
   */
  class IncludeEditor {
    var hasConfig: bool
    var includePlugins: Option<seq<string>>
    var plugins: Option<seq<PluginInfo>>

    ghost predicate Valid()
      reads this
    {
      !hasConfig ==> includePlugins.None?
    }

    constructor (config: Option<CapacitorConfig>, plugins: Option<seq<PluginInfo>>)
      ensures Valid()
      ensures hasConfig == config.Some?
      ensures includePlugins == (if config.Some? then config.value.includePlugins else None)
      ensures this.plugins == plugins
    {
      hasConfig := config.Some?;
      includePlugins := if config.Some? then config.value.includePlugins else None;
      this.plugins := plugins;
    }

    /**
     * `activatePlugin`: append the id of the plugin named `name` to the
     * top-level includePlugins list unless it is already there; nothing is found
     * when no plugin has that name.
     */
    method ActivatePlugin(name: string) returns (outcome: EditOutcome)
      requires Valid()
      modifies this`includePlugins
      ensures Valid()
      ensures !hasConfig || plugins.None? ==> outcome == Crashed
      ensures hasConfig && plugins.Some? && FindByName(plugins.value, name).None? ==> outcome == NotFound
      ensures hasConfig && plugins.Some? && FindByName(plugins.value, name).Some? ==>
        var id := FindByName(plugins.value, name).value.id;
        (old(includePlugins).None? ==> outcome == Crashed) &&
        (old(includePlugins).Some? && id in old(includePlugins).value ==> outcome == Unchanged) &&
        (old(includePlugins).Some? && id !in old(includePlugins).value ==>
          outcome == Rewritten && includePlugins == Some(old(includePlugins).value + [id]))
      ensures outcome != Rewritten ==> includePlugins == old(includePlugins)
    {
      if !hasConfig || plugins.None? {
        return Crashed;
      }
      var target := FindByName(plugins.value, name);
      if target.None? {
        return NotFound;
      }
      if includePlugins.None? {
        return Crashed;
      }
      if target.value.id in includePlugins.value {
        return Unchanged;
      }
      includePlugins := Some(includePlugins.value + [target.value.id]);
      outcome := Rewritten;
    }

    /**
     * `ignorePlugin`: with a top-level includePlugins list, splice out the
     * element at `indexOf(id)`; without one, the list becomes the ids of
     * every other plugin. For an id on the list this is the intended
     * removal `RemoveId`; for an absent id the splice at -1 drops the
     * list's last element. Without a list the edit range comes from
     * `getCapacitorConfigTextInfo`; `located` says whether it found the
     * configuration object in the file. When it did not, the new list is
     * already stored in memory when reading the range throws.
     */
    method IgnorePlugin(id: string, located: bool) returns (outcome: EditOutcome)
      requires Valid()
      modifies this`includePlugins
      ensures Valid()
      ensures old(includePlugins).Some? ==>
        outcome == Rewritten && includePlugins == Some(SpliceIndexOf(old(includePlugins).value, id))
      ensures old(includePlugins).Some? && id in old(includePlugins).value ==>
        includePlugins == Some(RemoveId(old(includePlugins).value, id))
      ensures old(includePlugins).Some? && id !in old(includePlugins).value && old(includePlugins).value != [] ==>
        includePlugins == Some(old(includePlugins).value[..|old(includePlugins).value| - 1])
      ensures old(includePlugins).None? && (plugins.None? || !hasConfig) ==>
        outcome == Crashed && includePlugins == old(includePlugins)
      ensures old(includePlugins).None? && plugins.Some? && hasConfig ==>
        includePlugins == Some(OtherIds(plugins.value, id)) &&
        (outcome == Rewritten <==> located) && (!located ==> outcome == Crashed)
    {
      if includePlugins.Some? {
        var list := includePlugins.value;
        if id in list {
          SpliceAgreesWhenPresent(list, id);
        } else if list != [] {
          SpliceIndexOfRemovesLast(list, id);
        }
        includePlugins := Some(SpliceIndexOf(list, id));
        return Rewritten;
      }
      if plugins.None? || !hasConfig {
        return Crashed;
      }
      includePlugins := Some(OtherIds(plugins.value, id));
      outcome := if located then Rewritten else Crashed;
    }
  }

  /** Activating a plugin that is not yet included and then ignoring it restores the includePlugins list. */
  method ActivateThenIgnore(editor: IncludeEditor, name: string) returns (restored: bool)
    requires editor.Valid() && editor.hasConfig && editor.plugins.Some? && editor.includePlugins.Some?
    requires FindByName(editor.plugins.value, name).Some?
    requires FindByName(editor.plugins.value, name).value.id !in editor.includePlugins.value
    modifies editor
    ensures restored && editor.includePlugins == old(editor.includePlugins)
  {
    var before := editor.includePlugins;
    var id := FindByName(editor.plugins.value, name).value.id;
    var o1 := editor.ActivatePlugin(name);
    var o2 := editor.IgnorePlugin(id, true);
    RemoveAppended(before.value, id);
    restored := editor.includePlugins == before;
  }
}
