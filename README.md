# urasdk extension core, modelled in Dafny

The model covers the logic of a VS Code extension for Capacitor/ura projects.
Processes, the file system, the editor API and regular-expression matching
appear in it as inputs (oracle functions or values).

- **Verdaccio supervisor** (`src/lib/verdaccio.ts`):
  - the byte buffer that collects the server's stdout (`WritableStreamBuffer`, a class over an `array<bv8>`);
  - the executable-path rewrite;
  - the port used by the status check;
  - the scraper that discovers the server configuration from stdout chunks;
  - the FIFO of callers that `run` queues while a server process exists.
- **Shared helpers** (`src/lib/common.ts`): `fixName`, the deep comparison
  `compareVariables`, the row/column arithmetic of `locateTextDocument`,
  `resolvePlugin`, `getPluginsArray` and `addFileMutation`.
- **The three tree providers** (`src/entry/plugins.ts`, `configuration.ts`, `dependencies.ts`):
  - plugin classification into Local / NPM / Ignore, and the `includePlugins` edits;
  - project labels and values, the file events that refresh the view, and plugin accumulation;
  - dependency listing, and the version list of "select version".
- **The `ura` CLI wrapper** (`src/lib/ura.ts`): parsing `ura --help`, and caching the result.

Modules follow the source: `Verdaccio`, `StreamBuffer`, `Common`,
`JsonCompare`, `Plugins`, `Configuration`, `Dependencies`, `Ura`. The
JavaScript built-ins they share live in `Text` (trim, `split("\n")`,
`indexOf`, line terminators, decimal strings) and `Wrappers` (`Option`).

Where the code and its design description differ, the model follows the code:

- When `verdaccio --version` fails, the code unblocks only the head of the queue and drops the rest; the description says all of them are unblocked. The difference cannot arise: callers queue only behind a forked process, and none is forked before the probe succeeds, so the queue is then empty (`StartToolMissing` proves this).
- When `start` rejects, `run` throws and the queued callers stay queued.

## Model

| member | source | states |
|---|---|---|
| StreamBuffer.AppendSizeCovers | src/lib/verdaccio.ts:56 | the append size is the least multiple of 16 holding the chunk: `len <= size < len + 16`, 0 for an empty chunk |
| StreamBuffer.GrowBufferForAppendedData | src/lib/verdaccio.ts:89-100 | the same buffer when the free space suffices; otherwise a buffer of length `old + appendsize` whose first `actualsize` bytes are the old ones and the rest zero |
| StreamBuffer.ChangePayloadShape | src/lib/verdaccio.ts:58-63 | the `bufferchange` payload has the length of the growth: the chunk's bytes, then zero padding |
| StreamBuffer.StoredAfterWrite | src/lib/verdaccio.ts:52-65 | the backing bytes after `_write` have room for the stored bytes and the chunk |
| StreamBuffer.WriteKeepsPrefix | src/lib/verdaccio.ts:52-65 | `_write` leaves bytes `[0, size)` as they were, puts the chunk at offset `size`, and never shrinks the buffer |
| StreamBuffer.GrowBuffer | src/lib/verdaccio.ts:53-57 | the array holds `growBufferForAppendedData`'s result: the same array when there is room, a fresh one otherwise |
| StreamBuffer.StoreChunk | src/lib/verdaccio.ts:64 | after the copy, the grown array is the stored state of `_write`, whose data are the kept bytes followed by the chunk |
| StreamBuffer.CopyInto | src/lib/verdaccio.ts:64 | `chunk.copy(buffer, size)` writes the chunk at the offset and leaves every other byte alone |
| StreamBuffer.WritableStreamBuffer.constructor | src/lib/verdaccio.ts:34-43 | a zeroed buffer of 32 bytes, size 0, no listeners |
| StreamBuffer.WritableStreamBuffer.AddListener | src/lib/verdaccio.ts:68-75 | the listener is appended to its event's list, which is created when missing |
| StreamBuffer.WritableStreamBuffer.Dispatch | src/lib/verdaccio.ts:76-78 | every listener of the event is called once with the data, in registration order; an unknown event calls none |
| StreamBuffer.WritableStreamBuffer.Write | src/lib/verdaccio.ts:47-67 | the contents become old contents + chunk and `size <= capacity` is kept; `bufferchange` fires only when the capacity grew, with the growth-sized payload |
| StreamBuffer.WritableStreamBuffer.Consume | src/lib/verdaccio.ts:79-86 | returns the first n bytes (all of them without an argument), moves the rest to the front and lowers the size by n |
| StreamBuffer.WritableStreamBuffer.AllBuf | src/lib/verdaccio.ts:186-188 | drains the whole contents and leaves the buffer empty |
| StreamBuffer.ConsumeInTwoSteps | src/lib/verdaccio.ts:79-86 | `consume(n)` followed by `consume()`, concatenated, is the whole contents |
| StreamBuffer.WriteTwice | src/lib/verdaccio.ts:47-67 | two writes from empty hold the two chunks in order |
| Verdaccio.BinPathRewrite | src/lib/verdaccio.ts:159 | on a one-line path, everything from the first "verdaccio" on becomes "verdaccio/bin/verdaccio"; a path without it is kept |
| Verdaccio.BinPathKeepsFirstOccurrence | src/lib/verdaccio.ts:159 | the rewritten path has its first "verdaccio" where the original had it |
| Verdaccio.BinPathLineEnd | src/lib/verdaccio.ts:159 | in the rewritten path, the line of that occurrence ends right after the bin suffix |
| Verdaccio.BinPathIdempotent | src/lib/verdaccio.ts:159 | rewriting twice equals rewriting once |
| Verdaccio.FirstDigitRunShape | src/lib/verdaccio.ts:170 | `match(/(\d+)/)[0]` is the first maximal non-empty run of digits, and there is none iff the address has no digit |
| Verdaccio.FirstDigitRunTakesHostOctet | src/lib/verdaccio.ts:170 | on "http://127.0.0.1:4873/" that run is "127" |
| Verdaccio.PortOfAddress | src/lib/verdaccio.ts:168-173 | the intended port: a non-empty digit run that starts right after the address's last ':' and is maximal |
| Verdaccio.PortOfAddressExample | src/lib/verdaccio.ts:168-173 | on "http://127.0.0.1:4873/" the intended port is "4873" |
| Verdaccio.PortOfAddressOfJoin | src/lib/verdaccio.ts:166-179 | for any "host:port" followed by a rest without ':' or a leading digit, the port is exactly the digits, and the intended status probes that port |
| Verdaccio.CheckStatusWith | src/lib/verdaccio.ts:114-135 | the call rejects iff no digits were found (the non-null assertion) or the bind fails with an error other than EADDRINUSE; running iff the port is non-zero and the bind reports EADDRINUSE; port 0 counts as free without probing |
| Verdaccio.CheckStatusDiscrepancy | src/lib/verdaccio.ts:166-179 | with only port 4873 taken, the code as written reports the server at 127.0.0.1:4873 stopped, and the intended check reports it running |
| Verdaccio.AbsorbChunkEffect | src/lib/verdaccio.ts:352-358 | for each key of one chunk: a set field is never overwritten; an unset field with a capture takes the first capture; otherwise nothing changes |
| Verdaccio.AbsorbChunksPresence | src/lib/verdaccio.ts:348-358 | after any chunks, a scraped key is present iff some chunk captured it, in any arrival order; `username` is never scraped |
| Verdaccio.AbsorbChunksKeepsSet | src/lib/verdaccio.ts:354 | a set field keeps its value through all later chunks |
| Verdaccio.ReadyIffAllScraped | src/lib/verdaccio.ts:359 | without a username, the key count equals 3 iff all three scraped fields are present |
| Verdaccio.ScrapeCompletesIffAllCaptured | src/lib/verdaccio.ts:348-359 | from no fields, the completion branch is reached iff each of the three patterns captured in some chunk |
| Verdaccio.NoUsernameWhenReady | src/lib/verdaccio.ts:359-369 | whenever a chunk meets the completion test, no username is stored: a stored username is a fourth key, so the test cannot hold again after a `whoami` answer was stored |
| Verdaccio.ConfigScrape.OnChunk | src/lib/verdaccio.ts:348-381 | one `run` callback before `verdaccioDone` detaches it: absorb the chunk, and on completion set the trimmed `whoami` output as the username; a failing or empty result rejects uncached; a non-empty one resolves and is cached |
| Verdaccio.ConfigScrape.AbsorbKeysOf | src/lib/verdaccio.ts:352-358 | the `forEach` over the three keys computes exactly `AbsorbChunk` |
| Verdaccio.ConfigScrape.QueryUsername | src/lib/verdaccio.ts:359-381 | the completion branch: username = trimmed output; the config is cached only when that is non-empty; `verdaccioDone` is called either way |
| Verdaccio.VerdaccioHelper.GetVerdaccioConfig | src/lib/verdaccio.ts:341-348 | a cached configuration is returned and the queue, process, flags and log stay as they were; without one the caller goes through `run` and queues iff a server process exists |
| Verdaccio.SecondCallUsesCache | src/lib/verdaccio.ts:341-381 | after a fork and one scraped chunk, a second call returns the cache exactly when the scrape resolved, with no second fork and nothing queued; a pending scrape makes the second caller queue |
| Verdaccio.VerdaccioHelper.Run | src/lib/verdaccio.ts:318-326 | while a process exists the caller is appended to the queue and blocks; otherwise nothing changes |
| Verdaccio.VerdaccioHelper.StartToolMissing | src/lib/verdaccio.ts:227-230 | only the queue head is unblocked, the queue is emptied and the process handle cleared; the queue is empty whenever `cmdExist` is still unset |
| Verdaccio.VerdaccioHelper.StartWithTool | src/lib/verdaccio.ts:209-213 | `cmdExist` is cached, and a process is forked only if none exists |
| Verdaccio.VerdaccioHelper.Stop | src/lib/verdaccio.ts:310-316 | kills the process only if there is one |
| Verdaccio.VerdaccioHelper.Finish | src/lib/verdaccio.ts:328-338 | after a resolved start, the head is shifted and unblocked (FIFO); with an empty queue, stop only if not `continued`; a rejected start leaves the queue alone |
| Verdaccio.VerdaccioHelper.Closed | src/lib/verdaccio.ts:292-300 | the close handler clears the process handle; queued callers stay |
| Verdaccio.ThreeCallersInOrder | src/lib/verdaccio.ts:318-339 | three callers are served in arrival order: fork, unblock B, unblock C, kill |
| Text.TrimEmpty | src/lib/verdaccio.ts:365-366 | `trim()` yields "" iff the text is all whitespace |
| Text.SplitLinesShape | src/lib/common.ts:253-254 | `split("\n")` gives count('\n') + 1 pieces, none holding '\n', which joined with "\n" restore the text |
| Text.NatToStringRoundTrip | src/lib/common.ts:452 | an array index's key string is canonical decimal and reads back as the index |
| Text.CanonicalDecimalRoundTrip | src/lib/common.ts:460 | conversely, a canonical decimal key is the key string of the index it denotes |
| Common.BasenameFacts | src/lib/common.ts:377-379 | a basename has no '/' and is the final segment of `dir/leaf`, with or without a trailing '/' |
| Common.NormalizeSeparators | src/lib/common.ts:381-384 | the result has no '@', '/' or '-' and is no longer than the input |
| Common.CapitalizeFirstIdempotent | src/lib/common.ts:388 | capitalizing twice equals capitalizing once, and the result never starts with a lower-case letter |
| Common.FixNameIsIdentifier | src/lib/common.ts:375-389 | a fixed name has no '@', '/' or '-', is no longer than the input, and does not start with a lower-case letter |
| Common.FixNameOfPath | src/lib/common.ts:377-379 | names starting with ".", "~" or "/" keep only their last segment |
| Common.FixNameScoped | src/lib/common.ts:381-388 | "@scope/name" becomes Scope + Name, each capitalized ("@capacitor/camera" gives "CapacitorCamera") |
| Common.CamelizeScoped | src/lib/common.ts:385 | "_x" becomes upper-case x |
| Common.LocateCounts | src/lib/common.ts:248-268 | row = newlines before the index; col = characters since the last of them; rowend = row + newlines in the match; without a newline, colend = col + length |
| Common.LocateEndIsMatchEnd | src/lib/common.ts:264-265 | the corrected (rowend, colend) is the position of the match's end offset |
| Common.LocateAsWrittenMultilineEnd | src/lib/common.ts:264 | as written, a multi-line match gets an end column that is not its end position |
| Common.LocateTextDocument | src/lib/common.ts:232-272 | one record per match, in match order, each as the source computes it; it differs from the intended `Locate` only in `colend`, and not at all for a single-line match |
| Common.PossiblePluginsMembership | src/lib/common.ts:294-304 | a name is tried iff it is a dependency key, a devDependency key or a local plugin; one try per entry, a missing map giving none |
| Common.CollectedComplete | src/lib/common.ts:306-314 | every candidate that resolves is among the collected plugins, its local flag raised when it is listed |
| Common.LocalPluginCollected | src/lib/common.ts:294-314 | a local plugin that resolves is always collected and marked local, whichever list (android first, even empty) supplied it |
| Common.PackageJsonPathFacts | src/lib/common.ts:334-336 | only one leading "file:" is stripped, so "file:" + p and p name the same package.json when p has no prefix; "link:" is kept |
| Common.ResolvePlugin | src/lib/common.ts:330-367 | a plugin iff the path resolves, the metadata parses and declares `capacitor`; its id is the name; local iff it starts with "link:" or "file:"; name = fixName(meta name) |
| Common.CollectedFacts | src/lib/common.ts:308-316 | the collected plugins are the resolving names, in order, with `local` raised for listed local plugins |
| Common.CollectedSnoc | src/lib/common.ts:309-315 | each further name appends its plugin if it resolves |
| Common.CollectPlugins | src/lib/common.ts:299-316 | the loop returns `undefined` (None) when nothing resolves, otherwise the collected list |
| Common.CommonModule.constructor | src/lib/common.ts:46-60 | four empty callback sets and no plugins |
| Common.CommonModule.AddFileMutation | src/lib/common.ts:96-98 | the callback is added to its type's set; adding it again changes nothing |
| Common.CommonModule.CallbacksFor | src/lib/common.ts:113-117 | the callbacks of a type, without duplicates |
| Common.CommonModule.GetPluginsArray | src/lib/common.ts:279-322 | tries dependencies, devDependencies, then local plugins; stores and returns the collected list, or None |
| JsonCompare.Lookup | src/lib/common.ts:460 | `b[key]`: undefined for a missing key, otherwise the key's value |
| JsonCompare.KeysReadBack | src/lib/common.ts:452-460 | each key `Object.keys` lists reads back its own element or member, and an array's index keys are pairwise distinct |
| JsonCompare.Compare | src/lib/common.ts:431-464 | false when `typeof` differs, when two arrays differ in length, or when the key counts differ |
| JsonCompare.ArrayIndexProperty | src/lib/common.ts:460 | an array read at an index string yields that element |
| JsonCompare.CompareReflexive | src/lib/common.ts:431-464 | every well-formed value compares equal to itself |
| JsonCompare.CompareIgnoresMemberOrder | src/lib/common.ts:446-461 | reordering an object's members changes no comparison, on either side |
| JsonCompare.PlainNotUndefined | src/lib/common.ts:432-434 | a defined value never equals undefined |
| JsonCompare.IndexKeysFacts | src/lib/common.ts:452 | an array of length n has n index keys, exactly the canonical decimals below n |
| JsonCompare.ArrayObjectKeys | src/lib/common.ts:446-461 | an object that an array equals has exactly the array's index keys |
| JsonCompare.ObjectArrayKeys | src/lib/common.ts:446-461 | an object that equals an array has exactly the array's index keys |
| JsonCompare.ArrayObjectConverse | src/lib/common.ts:446-461 | an array equal to an object is equal to it the other way round, given symmetric elements |
| JsonCompare.ObjectArrayConverse | src/lib/common.ts:446-461 | an object equal to an array is equal to it the other way round, given symmetric elements |
| JsonCompare.CompareArrayObject | src/lib/common.ts:437-461 | an array and an object compare equal, either way, only when the object's keys are the array's indices, and symmetrically when their entries do |
| JsonCompare.CompareSymmetric | src/lib/common.ts:431-464 | symmetric on plain JSON values (distinct keys, no "length" key, no undefined) |
| JsonCompare.CompareObjectsOneWay | src/lib/common.ts:446-461 | two plain objects equal one way are equal the other way |
| JsonCompare.CompareAsymmetricExample | src/lib/common.ts:446-461 | without that restriction it is not symmetric: `{length: 1}` vs `["z"]` |
| Plugins.TopLevelEditShadowed | src/entry/plugins.ts:227-229 | an edit of the top-level `includePlugins` shows in the tree exactly when the android section has no list of its own (an empty one counts) |
| Plugins.SelectMembers | src/entry/plugins.ts:253-261 | a group holds exactly the listed plugins that belong to it |
| Plugins.SelectSnoc | src/entry/plugins.ts:255-261 | selection keeps the original order |
| Plugins.GroupsPartition | src/entry/plugins.ts:231-299 | with a list, each plugin is in exactly one group; without one, nothing is ignored and each is Local xor NPM |
| Plugins.CategoryItems | src/entry/plugins.ts:253-275 | the items under a category are exactly the plugins of its group, each with its own name, id and local flag |
| Plugins.RootCategoriesShown | src/entry/plugins.ts:286-317 | a root category is shown iff some plugin belongs to its group |
| Plugins.ShownIffSelected | src/entry/plugins.ts:301-317 | a root category is shown iff the group's children are non-empty |
| Plugins.SelectNonEmpty | src/entry/plugins.ts:232-276 | a group is non-empty iff some plugin belongs to it |
| Plugins.NothingIgnoredWithoutList | src/entry/plugins.ts:232-284 | without an include list there are no Ignore children and no Ignore category |
| Plugins.RootCategoriesOrdered | src/entry/plugins.ts:301-317 | the root categories follow Local, NPM, Ignore without repeats |
| Plugins.BucketPlugins | src/entry/plugins.ts:291-299 | the `forEach` fills the local and npm buckets with exactly the Local and NPM groups |
| Plugins.GenerateChild | src/entry/plugins.ts:219-321 | no plugins gives []; a category label gives its group's items; any other label gives the root categories |
| Plugins.GetChildren | src/entry/plugins.ts:205-321 | nothing without package.json or capacitor.config.ts; with both, `generateChild`: no children when there are no plugins, a category label lists its group's items, and the root lists the root categories |
| Plugins.IndexOfElem | src/entry/plugins.ts:147 | `indexOf`: the first index of the id, or -1 iff absent |
| Plugins.SpliceOneRemovesOne | src/entry/plugins.ts:148 | a splice starting inside the list removes exactly one element (length and multiset); a start of -1 removes the last |
| Plugins.SpliceIndexOfRemovesLast | src/entry/plugins.ts:146-149 | as written, an absent id removes the last element |
| Plugins.SpliceIndexOfExample | src/entry/plugins.ts:146-149 | ignoring "c" on ["a", "b"] leaves ["a"] |
| Plugins.RemoveId | src/entry/plugins.ts:146-149 | the intended removal: an absent id changes nothing, otherwise the first occurrence goes; the multiset loses one copy of the id |
| Plugins.SpliceAgreesWhenPresent | src/entry/plugins.ts:146-149 | when the id is present, the source's splice and the intended removal agree |
| Plugins.RemoveAppended | src/entry/plugins.ts:115-148 | activating a new id and then ignoring it restores the list |
| Plugins.OtherIds | src/entry/plugins.ts:151-155 | the ids of all plugins except `id` |
| Plugins.OtherIdsConcat | src/entry/plugins.ts:151-155 | `map` then `filter` keeps the original order |
| Plugins.OtherIdsWithoutId | src/entry/plugins.ts:151-155 | when no plugin has the id, every id in order |
| Plugins.FindByName | src/entry/plugins.ts:101-103 | `find`: the first plugin of that name in the list, or none iff no plugin has it |
| Plugins.FindByNameFirstWins | src/entry/plugins.ts:101-103 | when two plugins share a fixed name, the earlier one is found |
| Plugins.IncludeEditor.constructor | src/entry/plugins.ts:90-143 | the editor holds the config's top-level `includePlugins` and the plugin list |
| Plugins.IncludeEditor.ActivatePlugin | src/entry/plugins.ts:88-115 | a missing plugin or an already included id changes nothing; otherwise the id is appended at the end; a missing list or missing plugins throws |
| Plugins.IncludeEditor.IgnorePlugin | src/entry/plugins.ts:142-194 | with a list, `splice(indexOf(id), 1)`: the intended removal when the id is present, the last element dropped when it is absent; without a list, every other plugin's id is stored, and the edit is made iff the configuration object was located in the file, otherwise reading its range throws |
| Plugins.ActivateThenIgnore | src/entry/plugins.ts:88-156 | activate then ignore of an id not yet included restores `includePlugins` |
| Configuration.SpaceBeforeCapitals | src/entry/configuration.ts:269 | one space is inserted per upper-case letter |
| Configuration.LabelRoundTrip | src/entry/configuration.ts:267-269 | removing the spaces from a label gives the key with its first letter upper-cased; every space precedes a capital |
| Configuration.LabelAppId | src/entry/configuration.ts:267-269 | "appId" is shown as "App Id" |
| Configuration.LabelTwoWords | src/entry/configuration.ts:267-269 | a camel-case key of two words gets one space ("versionCode" gives "Version Code") |
| Configuration.LabelOneWord | src/entry/configuration.ts:267-269 | a lower-case key only gets its first letter upper-cased |
| Configuration.ProjectItemsFacts | src/entry/configuration.ts:256-286 | a string is used as is, otherwise its `.text`; an item exists exactly for each key with a non-empty value, in key order |
| Configuration.GenerateChild | src/entry/configuration.ts:236-291 | "Project" gives the items for appId, appName, versionCode, version in that order; any other label gives [] |
| Configuration.ProjectItemsExample | src/entry/configuration.ts:236-291 | with only id and name set, the items are exactly "App Id" and "App Name" |
| Configuration.RootChildren | src/entry/configuration.ts:210-228 | one "Project" root iff package.json and capacitor.config.ts both exist |
| Configuration.FindPattern | src/entry/configuration.ts:171-175 | `find`: the first observed pattern that matches, or none iff none matches |
| Configuration.ShouldBeObserved | src/entry/configuration.ts:171-175 | true iff one of the three observed patterns matches |
| Configuration.ObservedFiles | src/entry/configuration.ts:85-87 | the filter keeps exactly the observed paths |
| Configuration.OnFileEventRefreshes | src/entry/configuration.ts:84-91 | a file event refreshes iff at least one path is observed |
| Configuration.ResolvedSnoc | src/entry/configuration.ts:138-142 | each candidate appends its plugin when it resolves |
| Configuration.ResolvedFacts | src/entry/configuration.ts:138-142 | every resolved plugin is a candidate's `resolvePlugin` result, and every candidate that resolves contributes its result |
| Configuration.ConfigurationView.constructor | src/entry/configuration.ts:41-46 | no config and no plugins |
| Configuration.ConfigurationView.GetPluginsInfo | src/entry/configuration.ts:129-145 | appends the resolved dependencies and local plugins (not devDependencies) to `plugins` without clearing it |
| Configuration.RefreshTwice | src/entry/configuration.ts:293-296 | two refreshes hold every resolved plugin twice |
| Dependencies.DepsOf | src/entry/dependencies.ts:242-269 | one item per key, in key order: label = name, description = version, tooltip "name-version"; none for a missing section |
| Dependencies.GetDepsInPackageJson | src/entry/dependencies.ts:226-256 | as many items as keys in each section |
| Dependencies.DepsLabelsAreKeys | src/entry/dependencies.ts:242-246 | item labels are the section's keys, in order |
| Dependencies.RegisterIffCategories | src/entry/dependencies.ts:36-41 | the view registers iff the root would show at least one category |
| Dependencies.PackagesAreKeyNodes | src/entry/dependencies.ts:199-203 | a category expands to one package node per key of its section, in key order, labelled with the key and described with its version |
| Dependencies.DepNodeProvider.constructor | src/entry/dependencies.ts:26-29 | both lists start empty |
| Dependencies.DepNodeProvider.GetChildren | src/entry/dependencies.ts:193-221 | nothing without package.json; a category returns the stored list; the root re-reads and lists "Dependencies", "DevDependencies" when non-empty |
| Dependencies.ExpandAfterRoot | src/entry/dependencies.ts:198-205 | expanding after the root shows the items of the package.json it read |
| Dependencies.QuotesRewritten | src/entry/dependencies.ts:122 | no single quote survives, and text without one is unchanged |
| Dependencies.Reversed | src/entry/dependencies.ts:139-140 | element i of the reverse is element n-1-i |
| Dependencies.ReversedTwice | src/entry/dependencies.ts:139-140 | reversing twice restores the order |
| Dependencies.ReverseInPlace | src/entry/dependencies.ts:139-140 | `reverse()` reverses the array in place |
| Dependencies.SelectVersion | src/entry/dependencies.ts:96-144 | quotes are rewritten before parsing; a failed command parses "[]"; an empty list gives undefined; the message shows the reversed list; the quick pick gets the original order |
| Dependencies.BlankChoiceInstallsNothing | src/entry/dependencies.ts:63-65 | an install happens iff the choice has a non-whitespace character |
| Ura.StripBrackets | src/lib/ura.ts:62 | no bracket of the kind is left; text without brackets is unchanged |
| Ura.ArgList | src/lib/ura.ts:60-65 | undefined iff there is no bracketed run; otherwise the bracket-free contents |
| Ura.BracketMatchesStep | src/lib/ura.ts:61 | text before the first bracket is skipped, and a one-line bracketed run is one match |
| Ura.ArgListRoundTrip | src/lib/ura.ts:58-65 | parsing arguments written as `<a> <b> …` or `[a] [b] …` gives them back in order; none gives undefined |
| Ura.UsageExample | src/lib/ura.ts:60-65 | "<name> [dir]" has args ["name"] and optArgs ["dir"] |
| Ura.CommandBlockEnd | src/lib/ura.ts:50 | `(.*\n)*` takes complete lines only and stops at the first line it cannot take |
| Ura.CommandLinesFacts | src/lib/ura.ts:50-54 | no header gives no lines; otherwise the lines after the first "Commands:\n", joined with "\n", are the block, end with an empty piece and hold no line terminator |
| Ura.AbsorbedDomain | src/lib/ura.ts:54-70 | a command is in the dictionary iff some line names it |
| Ura.AbsorbedLastWins | src/lib/ura.ts:57-67 | a command's entry comes from the last line naming it |
| Ura.ParseLines | src/lib/ura.ts:54-71 | the `forEach` builds exactly that dictionary |
| Ura.UraCli.constructor | src/lib/ura.ts:14-16 | commands are parsed iff the version probe did not yield "uninstall" |
| Ura.UraCli.GetUraVersion | src/lib/ura.ts:18-28 | the version is the probe output, or "uninstall" when it failed |
| Ura.UraCli.GetCommands | src/lib/ura.ts:32-77 | a cached dictionary (even an empty one) is returned unchanged; otherwise the help is parsed and cached |
| Ura.CommandsAreCached | src/lib/ura.ts:33-75 | a second call returns the first result, whatever the help says by then |

## Left out

- Processes: `fork`, `exec`, `execSync` and `kill`. Their outputs (`verdaccio --version`, `npm whoami`, `npm view`, `ura --version`, `ura --help`) are parameters, and `Fork`/`Kill` are only logged.
- Timers: `setTimeout`, the idle timeout, and the debounced file listeners. They depend on wall-clock scheduling.
- The TCP bind probe of `checkPortIsAvailable`. It is the `probe` oracle with three outcomes (listening, EADDRINUSE, any other error), apart from the "no port counts as free" shortcut.
- The editor API: tree rendering, commands, progress, quick picks, and `WorkspaceEdit`.
- `loadTSFile`, `require.resolve`, file reads and `JSON.parse`. They are the `Resolver`, `MetaReader` and `parse` oracles, and configuration objects are inputs.
- `getCapacitorConfigTextInfo` is not modelled. It relies on `eval` of matched text. Whether it finds the configuration object is the `located` input of `IgnorePlugin`.
- Regular-expression matching is an oracle for:
  - the scraper patterns (`Matcher`);
  - the `ura` help-line pattern (`LineMatch`);
  - the observed-file patterns (`PatternTest`);
  - the `matchAll` results of `locateTextDocument`.

  The bracket, line-block, digit-run and `/verdaccio.*/` patterns are modelled exactly.
- The rewriting of capacitor.config.ts text and its `JSON.stringify` formatting in `activatePlugin`/`ignorePlugin`. The model keeps only the new `includePlugins` list.
- `getAndroidConfig` is not modelled. The `version`/`versionCode` values are inputs. As written it cannot set them: `locateTextDocument` returns an array (src/lib/common.ts:241, 271), which is truthy even when empty, so `version.text.replace` (src/entry/configuration.ts:160) throws whenever android/app/build.gradle exists, and `refresh` (293-297) rejects before `fire()`. The "Version Code" and "Version" items that `Configuration.GenerateChild` can produce therefore never appear in the source.
- `removeListener` is Node's stream method, not `evtList`.
- StreamBuffer.WritableStreamBuffer.Consume: requires `n <= size`. With a larger `n` the source makes `_size` negative; the only caller passes no argument.
- Common.CommonModule.GetPluginsArray: requires a package.json. Without one, the source's non-null assertion throws.
- Configuration.ConfigurationView.GetPluginsInfo: takes a package.json. Without one, `common.packageJson!` (src/entry/configuration.ts:132) throws, and `refresh` calls it without a check.
- Common: `basename`, `dirname` and the `join(sep)` of `resolvePlugin` (`PackageJsonPath`) are modelled for '/'-separated paths only. On Windows, `path.sep` is '\\'.
- Common.Locate, Common.LocateAsWritten and Common.CapitalizeFirst: a Dafny `char` is a code point, but JavaScript lengths, indices and `charAt` count UTF-16 code units. After a character outside the Basic Multilingual Plane, positions and the capitalized character differ.
- Text.UpperChar: upper-cases ASCII letters only. Unicode case mapping is not modelled.
- JsonCompare.Property: inherited properties other than an array's `length` are not modelled. Numbers are reals, so NaN is not represented.
- JsonCompare.CompareSymmetric: stated only for plain values (no "length" key, no undefined, distinct keys). `CompareAsymmetricExample` shows why "length" is excluded.
- Verdaccio.VerdaccioHelper.Run and Verdaccio.VerdaccioHelper.StartWithTool: each call is one atomic step, so the model assumes the first caller's `start` forks before any other caller reaches `run`. In the source, two calls in the same tick on a fresh helper both pass the no-process test (src/lib/verdaccio.ts:319) while `checkVerdaccioVersion` is awaited (209-213). The second then rebinds `stdoutBuf` and `verdaccioDone` (247, 253), so the first caller's promise may never settle. This interleaving is not modelled.
- Dependencies.SelectVersion: a parsed non-array value is abstracted to whether its `length` is truthy. Cancellation of `npm view` is not modelled.
- Ura: the command dictionary is a map, so the insertion order of its keys is not kept.
- Configuration and Dependencies: dependency maps are key/value lists, and lookups by key assume distinct keys, as JSON objects have.
- Calls into `src/entry/uraCli.ts` and `src/lib/constant.ts` are not part of this model.

## Findings

| source | as written | input that shows it | evidently intended | confidence | as-written member | corrected member |
|---|---|---|---|---|---|---|
| src/lib/verdaccio.ts:170 | the port is the first digit run, `match(/(\d+)/)[0]` | httpAddress "http://127.0.0.1:4873/" with port 4873 taken: 127 is probed and the server is reported stopped | the port after the last ':' ("4873") | not executed | Verdaccio.CheckStatusAsWritten, Verdaccio.FirstDigitRunTakesHostOctet, Verdaccio.CheckStatusDiscrepancy | Verdaccio.CheckStatus, Verdaccio.PortOfAddress, Verdaccio.PortOfAddressOfJoin |
| src/lib/common.ts:264 | `colend = lastPreLine.length + lastLine.length` also for multi-line matches | context "ab{\nc}", match at 2 with text "{\nc}": colend 4, although the match ends at row 1, column 2 | for a multi-line match, colend is the length of the match's last line | not executed | Common.LocateAsWritten, Common.LocateAsWrittenMultilineEnd, Common.LocateTextDocument | Common.Locate, Common.LocateEndIsMatchEnd |
| src/entry/plugins.ts:147-148 | `splice(indexOf(id), 1)` | includePlugins ["a", "b"], ignoring "c": indexOf is -1 and "b" is removed | an absent id leaves the list unchanged | not executed | Plugins.SpliceIndexOf, Plugins.SpliceIndexOfRemovesLast, Plugins.SpliceIndexOfExample, Plugins.IncludeEditor.IgnorePlugin | Plugins.RemoveId, Plugins.RemoveAppended, Plugins.SpliceAgreesWhenPresent |
