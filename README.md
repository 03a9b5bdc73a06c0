# timeWarp in Dafny

timeWarp is a set of Maya tools that re-time animation. A *warp* is a
time-to-time animation curve. A `WarpStatus` node chooses between the curve's
output and the scene's own time. "Applying" a warp reconnects the `input` of
every animation curve that drives the selected objects, so that those curves
read the warp's output instead of scene time. The repository also ships two
Maya installers and a build script for the rez package manager.

This project models the logic of that code and proves properties of it:

- `scene.dfy`, module `Scene`. The scene is a value: a map from node to node
  type, plus the ordered list of connections. `listConnections` is modelled
  as queries over it. The upstream walk `get_inputs` is modelled twice:
  - `GetInputs` follows the source's recursion. Its ghost `rank` witnesses
    that there is no cycle.
  - `CollectInputs` is a walk with a visited list that terminates on every
    scene.

  Both are proved equal to one reference definition, the upstream closure
  `Upstream`.
- `warp.dfy`, module `Warp`: the warp tools of `scripts/core.py`. The
  mutable scene is the class `Maya`. It holds the node types, the
  connections, the selection, the curve keys and the integer attribute
  values. `ApplyWarp`, `SelectWarpedNodes` and `CreateWarp` change that
  state; `GetWarpedNodes` only reads it. `SelectWarpedNodes` and
  `CreateWarp` state the complete new state. `ApplyWarp` states which
  connections there are afterwards but leaves their order open, because the
  curves it rewires come from `list(set(...))`, whose order Python does not
  fix. Forced connection (`connectAttr(..., force=True)`), the naming rules and
  the key layout are functions, and lemmas state their properties.
- `warp_status.dfy`, module `WarpStatusNode`: the `WarpStatus` plug-in node.
  - `compute` works on a `DataBlock` object.
  - `initialize` records its declarations on a `NodeClass` object.
  - Lemmas state the defaults, flags and dependencies those declarations
    produce.
- `rez_build.py` is modelled in `rez_build.dfy`, module `RezBuild`.
  - It covers `str2bool`, the directory and file filters, the `["*"]`
    expansion, the best-effort copy and symlink loops, and the choice
    between copying and linking.
  - A `Destination` object records the copies and links.
  - The directory listing and the file system's answers are parameters.
- `install.dfy` holds three modules:
  - `ModFile` holds what both installers share: the `.mod` template, the
    mod file's path, the module-path search and the `Host` machine. `Host`
    has an environment map and a file tree. Whether a directory can be
    created or a path removed is given by two oracle functions.
  - `ScriptsInstall` is `scripts/install.py`.
  - `PluginsInstall` is `plug-ins/install.py`.
- `strings.dfy` and `lists.dfy` contain the Python string, path and list
  semantics the code relies on:
  - `str.replace` and `re.sub` on a literal pattern.
  - `str.split` on one character.
  - `os.path.join`, `dirname` and `splitext` on POSIX.
  - ASCII `str.lower`.
  - `list(set(...))` and first-seen de-duplication.

`get_inputs` in `scripts/core.py` (lines 111-112) recurses into every input
and keeps no visited set, so on a scene where producers form a cycle it
recurses forever. The model follows the code:
- `GetInputs` is defined only on scenes that have a rank, that is, no cycle.
- `CollectInputs` is the walk that keeps a visited list and terminates on
  every scene.
- The divergence is the first finding below.

## Model

| member | source | states |
|---|---|---|
| Scene.SourcesAmong | scripts/core.py:99-103 | a source query returns exactly the nodes connected into `n` whose type passes the filter |
| Scene.DestinationsAmong | scripts/core.py:139 | a destination query returns exactly the nodes that `n` is connected into |
| Scene.DirectInputsAreDrivers | scripts/core.py:99-105 | the merged deformer and curve inputs of `n` are exactly the producers connected into `n`; nothing is missed and nothing is added |
| Scene.GetInputs | scripts/core.py:86-114 | the recursion as written, defined where the scene has a rank (no producer cycle anywhere): the result holds every direct input of `n`, is empty exactly when `n` has no deformer or curve source, and never holds `n` itself, since every node in it ranks below `n` |
| Scene.GetInputsIsClosure | scripts/core.py:105-114 | `get_inputs(n)` holds every direct input of `n`; it holds the inputs of everything it holds; it is empty exactly when `n` has no deformer or curve source |
| Scene.GetInputsLeast | scripts/core.py:110-114 | every closed set that holds the direct inputs of `n` contains all of `get_inputs(n)` |
| Scene.GetInputsIsUpstream | scripts/core.py:86-114 | on an acyclic scene, the recursive `get_inputs` returns exactly the transitive upstream closure |
| Scene.UpstreamIsClosed | scripts/core.py:110-114 | the upstream closure holds the direct inputs and is closed under taking inputs |
| Scene.UpstreamLeast | scripts/core.py:110-114 | the upstream closure lies inside every closed set that holds the direct inputs |
| Scene.WalkStep | scripts/core.py:111-112 | expanding one more node keeps the walk duplicate-free and inside the closure, with that node's inputs found |
| Scene.WalkDone | scripts/core.py:114 | once every found node is expanded, the walk holds exactly the upstream closure |
| Scene.CollectInputs | scripts/core.py:86-114 | the visited-list walk terminates on every scene, returns no node twice, and returns exactly the upstream closure |
| Scene.TwoCurveCycleHasNoRank | scripts/core.py:111-112 | two curves that drive each other admit no rank, so the recursion as written has no terminating measure there |
| Scene.TwoCurveCycleUpstream | scripts/core.py:111-112 | on that cycle, the upstream closure of one curve is both curves |
| Scene.MutualUpstream | scripts/core.py:111-112 | two nodes that are each other's only input make up the whole upstream closure of either one |
| Scene.TwoCurveCycleCollected | scripts/core.py:111-112 | on that cycle, the visited-list walk returns exactly the two curves, each once |
| Lists.ListOfSet | scripts/core.py:105 | `list(set(xs))` holds every element of the set exactly once |
| Lists.AppendNewSpec | scripts/core.py:146-148 | appending the unseen nodes keeps what was already collected, adds exactly the missing nodes and never creates a duplicate |
| Lists.AppendNewOrder | scripts/core.py:146-148 | the appended nodes keep the order in which they are first met |
| Lists.DistinctAppend | scripts/core.py:114 | joining two duplicate-free lists that share no element gives a duplicate-free list |
| Lists.FilterSnoc | rez_build.py:23-30 | filtering one more listing entry appends it exactly when it is kept |
| Lists.FilterOrder | rez_build.py:23-30 | filtering keeps the relative order of the entries it keeps |
| Warp.DropIntoSpec | scripts/core.py:81 | removing the connections into a plug keeps exactly the connections into other plugs, and at most one connection still leads into each plug |
| Warp.ForceConnect | scripts/core.py:81 | after a forced connection, `src -> dst` is the only connection into `dst`; connections into other plugs are kept; nothing else appears |
| Warp.ConnectFresh | scripts/core.py:50-52 | forcing a connection into a plug nothing feeds just appends that connection |
| Warp.InputNodes | scripts/core.py:72-75 | the selection's first loop gives each node upstream of some selected node exactly once |
| Warp.RewireStep | scripts/core.py:77-81 | rewiring one more eligible curve keeps all earlier rewiring and every unrelated connection |
| Warp.Maya.ConnectAll | scripts/core.py:77-81 | every collected TU, TA or TL curve is fed by the warp's output, the only new connections are those, and every connection outside them is kept |
| Warp.Maya.ApplyWarp | scripts/core.py:57-83 | an empty selection gives False and leaves the connections unchanged; any other selection gives True, even with no curve to rewire; each TU, TA or TL curve upstream of the selection then reads the warp's output in place of its old source; every other connection is kept and nothing else is added |
| Warp.TwoHopMembers | scripts/core.py:144-146 | the node-by-node destination walk meets exactly the destinations of the given curves |
| Warp.WarpedNodesSpec | scripts/core.py:139-150 | the warped nodes are exactly the destinations of the warp's destinations, each once, and there are none when the warp drives nothing |
| Warp.WarpedNodesFirstSeen | scripts/core.py:144-148 | one warped node precedes another exactly when the nested loops meet it first |
| Warp.GetWarpedNodesAsWritten | scripts/core.py:137-150 | as written, the query never returns a list of nodes: it returns the list type object when the warp drives nothing (where the intended answer is empty), and raises a TypeError otherwise |
| Warp.WarpedNodesAsWrittenFails | scripts/core.py:137-148 | on a warp that drives one curve, which drives one node, the code as written raises a TypeError where the intended result is that node |
| Warp.AddNew | scripts/core.py:145-148 | the inner loop appends the destinations of one curve that have not been collected yet |
| Warp.Maya.GetWarpedNodes | scripts/core.py:127-150 | the nested loops that start from an empty list return the intended warped nodes |
| Warp.Maya.SelectWarpedNodes | scripts/core.py:153-168 | corrected, built on the corrected query of the second finding: the selection becomes exactly the warped nodes; it is cleared when there are none |
| Warp.PlugSources | scripts/core.py:182-183 | the inner query returns exactly the nodes connected into the warp's `warpInput` |
| Warp.SourcesOfAll | scripts/core.py:182-184 | the outer query returns exactly the sources of the nodes it is given |
| Warp.GetWarpCurve | scripts/core.py:171-186 | the answer is the sources of whatever feeds the warp's `warpInput`; it is None when there are none and never an empty list |
| Warp.NamingRules | scripts/core.py:24-32 | the default names are `atk_WarpCurve` and `atk_warpSettings`; a given name gives curve `<name>` and settings `<name>_warpSettings`; an anti-warp appends `_AntiWarp` to the curve name only |
| Warp.CurveName | scripts/core.py:24-32 | the requested curve name; its properties are stated by `Warp.NamingRules` |
| Warp.SettingsName | scripts/core.py:25-29 | the requested settings name; its properties are stated by `Warp.NamingRules` |
| Warp.StatusNameAsWritten | scripts/core.py:47 | `re.sub` of the requested curve name by the actual one, everywhere in the settings name; `Warp.StatusNameAgrees` and `Warp.StatusNameRepeated` state when it goes wrong |
| Warp.StatusNameKept | scripts/core.py:47 | when the host keeps the requested curve name, both versions request the settings name; with a given name, the status node is requested as `<curve>_warpSettings` |
| Warp.StatusNameAgrees | scripts/core.py:47 | the replacement as written agrees with the corrected naming unless the curve name occurs again past the start |
| Warp.StatusNameRepeated | scripts/core.py:47 | for a settings name `w_w<t>` in which `t` never holds the first character of `w`, the code as written puts the actual curve name in both places, where the corrected rule replaces only the leading one |
| Warp.StatusNodeAsWrittenMangles | scripts/core.py:34-47 | for `create_warp("warp")` when the host names the curve `a`, the as-written status node is the host's name for `a_aSettings` and the corrected one the host's name for `a_warpSettings`; the two requested names differ whenever `a` is not `warp` (`warp1` gives `warp1_warp1Settings` against `warp1_warpSettings`) |
| Warp.ReplaceRepeated | scripts/core.py:47 | `re.sub` with a literal pattern replaces both copies of the pattern in `w<sep>w<t>` |
| Warp.PlainKeys | scripts/core.py:43-45 | a plain warp is keyed at exactly the first and the last frame of the playback range, each with its own time as value |
| Warp.Add | scripts/core.py:40 | Python's `+` gives a float exactly when either side is a float, and the integer sum otherwise |
| Warp.Range | scripts/core.py:40 | Python's `range` raises a TypeError exactly when a bound is a float; otherwise it gives the whole numbers from the lower bound up to, not including, the upper one |
| Warp.PlaybackRangeRaises | scripts/core.py:21-40 | with the float playback bounds `playbackOptions` answers, `range(min_time, max_time + 1)` raises a TypeError whatever the range |
| Warp.Trunc | scripts/core.py:40 | `int()` on a float drops the fraction, rounding towards zero |
| Warp.WarpKeys | scripts/core.py:38-45 | corrected keying: frame by frame over the whole frames `int(min)`..`int(max)` for an anti-warp, the two plain keys otherwise |
| Warp.AntiWarpKeysInvert | scripts/core.py:38-42 | the anti-warp has a key at each scene time of the range; each key maps back to the last frame that plays at that time |
| Warp.Wire | scripts/core.py:49-52 | the status node is added with its type; `curve.output -> status.warpInput` and `time1.outTime -> status.timeInput` are appended; the scene stays well formed |
| Warp.Maya.NewCurve | scripts/core.py:34-36 | a time-to-time curve is added under the host's name for the curve name, with pre- and post-infinity set to 1; nothing else changes |
| Warp.Maya.AddStatus | scripts/core.py:47-52 | the status node is added under the host's name for the requested status name, and exactly the two wiring connections are appended |
| Warp.Maya.CreateWarp | scripts/core.py:10-54 | as written: the curve is always added with linear infinity; a plain warp gets the two plain keys and a wired status node requested under the `re.sub` name, and the result is the curve; an anti-warp ends in a TypeError with no key, no status node and no connection added |
| Warp.Maya.CreateWarpWholeFrames | scripts/core.py:10-54 | corrected: an anti-warp is keyed over the whole frames of the playback range, the status node is requested under the corrected name, and the result is the curve; the rest is as written |
| WarpStatusNode.SelectedIsOneInput | plug-ins/WarpStatus.py:44-48 | the output is the warp input when the warp is active and the time input otherwise; it is never any other value |
| WarpStatusNode.WarpStatus.constructor | plug-ins/WarpStatus.py:22-25 | the node takes the given name, or the type name when the name is missing or empty |
| WarpStatusNode.WarpStatus.Compute | plug-ins/WarpStatus.py:27-53 | asked for `output`, it writes the selected input and marks that plug clean; asked for any other plug, it changes nothing; the inputs are only read |
| WarpStatusNode.NodeClass.Initialize | plug-ins/WarpStatus.py:64-104 | the four attributes are declared in order with the flags set after creation, followed by the three dependencies |
| WarpStatusNode.DeclaredDefaults | plug-ins/WarpStatus.py:71-99 | `warpActive` is the only boolean and defaults to True; every float defaults to 0.0 |
| WarpStatusNode.DeclaredFlags | plug-ins/WarpStatus.py:73-99 | the inputs are readable, writable, storable and keyable; `output` is readable and neither writable, storable nor keyable; long names and short names are all distinct |
| WarpStatusNode.DeclaredAffectsOutput | plug-ins/WarpStatus.py:101-104 | exactly the three inputs are declared to affect `output`, and nothing else is declared |
| WarpStatusNode.WarpInputShortName | plug-ins/WarpStatus.py:81 | `wi`, the name `get_warp_curve` queries, is the short name of `warpInput` |
| RezBuild.Str2Bool | rez_build.py:130-136 | the parse of a flag; its properties are stated by `RezBuild.Str2BoolTrueWords` and `RezBuild.Str2BoolIgnoresCase` |
| RezBuild.Str2BoolTrueWords | rez_build.py:130-136 | the result is True exactly when the lower-cased value is one of the five "yes" words; the "no" words and everything else give False |
| RezBuild.Str2BoolIgnoresCase | rez_build.py:130-133 | two spellings that lower-case alike parse alike |
| RezBuild.GetAllDirs | rez_build.py:13-32 | the loop returns the filtered listing of non-ignored directories |
| RezBuild.GetAllFiles | rez_build.py:35-61 | the loop returns the filtered listing of non-ignored, non-`.pyc` files |
| RezBuild.AllDirsSpec | rez_build.py:13-32 | an entry is kept exactly when it is listed, is a directory and is not ignored; kept entries keep their listing order |
| RezBuild.AllFilesSpec | rez_build.py:35-61 | an entry is kept exactly when it is listed, is a file, is not ignored by name and its extension is not `.pyc`; kept entries keep their listing order |
| RezBuild.CompiledPython | rez_build.py:45-57 | `core.pyc` is dropped; `core.py` and `.pyc` are kept, because `.pyc` has no extension |
| RezBuild.ExpandStar | rez_build.py:66-69 | exactly `["*"]` is replaced by the whole kept listing; any other list is used unchanged |
| RezBuild.StarAmongOthers | rez_build.py:66-69 | a list that merely contains `"*"` is not expanded, nor are the fixed lists of the main block |
| RezBuild.CopyAll | rez_build.py:71-89 | a copy loop as a fold over the entries, a tree copy failing on an existing destination and a file copy overwriting it; its properties are stated by `RezBuild.CopyAllBestEffort` |
| RezBuild.CopyAllKeys | rez_build.py:71-89 | the destinations after the loop are exactly the old ones and those of the entries that are copied |
| RezBuild.CopyAllSteps | rez_build.py:71-89 | each entry gets one step, in order, about that entry only: a copy fails when its destination cannot be written, and a tree copy also when its destination existed before or the same entry came earlier |
| RezBuild.CopyAllMade | rez_build.py:71-89 | every entry that is copied ends up copied from the same name under the source |
| RezBuild.CopyAllKept | rez_build.py:71-89 | every old copy that no entry copies over keeps its source |
| RezBuild.CopyAllBestEffort | rez_build.py:71-89 | the four statements above together, and a tree copy never replaces an old copy |
| RezBuild.LinkOne | rez_build.py:100-112 | one pass of the link loop's body, the link failing on a path that is a link already; its properties are stated by the lemmas below |
| RezBuild.LinkAll | rez_build.py:99-127 | the link loop as a fold over the entries; its properties are stated by `RezBuild.LinkAllBestEffort` |
| RezBuild.LinkAllDirs | rez_build.py:105-107 | the directories known after the loop are the old ones and exactly the parents that could be made |
| RezBuild.LinkAllSteps | rez_build.py:100-112 | each entry gets one step, in order, decided by that entry, the directories and links there were at the start, and whether it came earlier: a missing parent that cannot be made, a failed link (also on an existing link or a repeated entry), or the link made |
| RezBuild.LinkAllMade | rez_build.py:100-112 | every entry whose parent exists or can be made, whose link does not fail and was not a link before ends up linked, `dest/name` to `source/name` |
| RezBuild.LinkAllOnly | rez_build.py:100-112 | the links after the loop are exactly the old links and those of the entries that get their link |
| RezBuild.LinkAllKept | rez_build.py:100-112 | every old link keeps its target: a link is never replaced |
| RezBuild.LinkAllBestEffort | rez_build.py:99-127 | the five statements above together: steps, directories, exactly which links there are, where the new ones point, old links kept |
| RezBuild.LinkParent | rez_build.py:103-106 | the parent `symlink` checks for an entry is the destination directory itself |
| RezBuild.Destination.CopyEach | rez_build.py:72-89 | one copy loop, of trees or of files, tries every entry and records the copies and messages that the best-effort copy defines |
| RezBuild.Destination.CopyDirsAndFiles | rez_build.py:64-89 | after expanding `["*"]`, the directories are copied first and then the files |
| RezBuild.Destination.LinkEach | rez_build.py:100-127 | one link loop tries every entry, making the parent first when needed, as the best-effort link defines |
| RezBuild.Destination.Symlink | rez_build.py:92-127 | after expanding `["*"]`, the directories are linked first and then the files |
| RezBuild.BuildPlan | rez_build.py:143-174 | a KeyError is raised exactly when a required variable is missing |
| RezBuild.BuildPlanLinks | rez_build.py:144-174 | the build links exactly when its type is `local` and the symlink argument is present and true in any letter case; the paths come straight from the environment |
| RezBuild.Build | rez_build.py:139-176 | a KeyError changes nothing; otherwise the fixed lists are linked or copied according to the plan; copying leaves the links and the known directories untouched; linking leaves the copies untouched and gives the directories the link loop defines |
| ModFile.ModText | scripts/install.py:13-76 | the template with `ABAB` replaced by the scripts path; its properties are stated by `ModFile.ModTextIs` and `ModFile.ModTextInjective` |
| ModFile.ModTextIs | scripts/install.py:13-14 | the mod text is `+ timeWarp 1.0 <scripts>/timeWarp` followed by `scripts: ./scripts`, whatever the scripts path holds |
| ModFile.ModTextInjective | scripts/install.py:76 | different scripts paths give different mod texts |
| ModFile.ModFilePath | scripts/install.py:79 | the mod file's path; its properties are stated by `ModFile.ModFilePathShape` |
| ModFile.ModFilePathShape | scripts/install.py:79 | the mod file is `timeWarp.mod` directly inside the module directory |
| ModFile.ModFilePathNamesModFile | scripts/install.py:88 | the guard that requires the mod file's name in its path always holds |
| ModFile.InstalledModPath | scripts/install.py:54-62 | an unset module path raises; otherwise the answer is the first entry whose directory holds `timeWarp.mod`, or nothing when no entry does |
| ModFile.FirstHolding | plug-ins/install.py:41-43 | the scan stops at the first entry holding the mod file, or passes every entry when none holds it |
| ModFile.Outside | scripts/install.py:116 | removing a tree removes the root and every path below it, and keeps every other path |
| ScriptsInstall.BuildModFile | scripts/install.py:65-99 | the mod file's path is appended to the plug-in path before any check; the result is False exactly when a missing module directory cannot be made or an existing mod file cannot be removed; otherwise the text is written and the path returned; an unset plug-in path raises a KeyError and changes nothing |
| ScriptsInstall.TransferScripts | scripts/install.py:102-130 | an existing `<scripts>/timeWarp` that cannot be removed gives None and changes nothing; otherwise the old tree is removed, the directory is made again, and the result is `<source>/plug-ins` |
| ScriptsInstall.LoadPlugin | scripts/install.py:133-143 | `:<plugin path>` is appended to the module path and then to the plug-in path; a missing variable raises at its own step, after the earlier steps |
| ScriptsInstall.LoadPluginAppends | scripts/install.py:142-143 | after loading, both variables keep their old text and end with `:<plugin path>`, and no variable is added |
| PluginsInstall.BuildModFile | plug-ins/install.py:46-70 | the same two failure cases give False; otherwise the text is written and True returned; the environment is not touched |
| Strings.ReplaceAllAbsent | scripts/core.py:47 | text without the pattern is left unchanged |
| Strings.ReplaceSingleOccurrence | scripts/install.py:76 | with a single occurrence, exactly that occurrence is replaced |
| Strings.ReplacePlaceholder | scripts/install.py:76 | filling a placeholder whose first character appears nowhere else in the template replaces only the placeholder |
| Strings.SplitJoin | scripts/install.py:60 | splitting on `:` loses nothing, and no piece contains the separator |
| Strings.JoinShape | scripts/install.py:79 | a joined path ends with its second part, has one `/` before a relative part, and is replaced by an absolute part |
| Strings.DirnameOfChild | rez_build.py:105 | the parent of `dir/name` is `dir` |
| Strings.Ext | rez_build.py:56 | the extension is empty, or a dot followed by no dot and no `/` that ends the path |
| Strings.ExtOfDotted | rez_build.py:56 | a name with a dot after a non-dot stem has that dot and suffix as its extension |
| Strings.ExtLeadingDots | rez_build.py:56 | a name made only of dots before its last dot has no extension |
| Strings.LowerIdempotent | rez_build.py:131 | lower-casing twice is lower-casing once |

## Left out

- The Maya API is not modelled: scenes, `listConnections`, `connectAttr`, `createNode`, `setKeyframe`, `ls` and `select` are stated over the scene value and the `Maya` object.
- `skipConversionNodes` is not modelled. The model's scenes contain no unit-conversion nodes, so that flag has nothing to skip.
- `get_warp_nodes` (`ls(type="WarpStatus")`) is a bare host query; `install()`, `get_script_path`, `get_module_path` and `copy_files` are not part of this model.
- Warp.Maya.ApplyWarp: the selection is the list `ls(selection=True, dag=True, long=True)` returns. Expanding to DAG descendants and long names is host behaviour.
- Warp.Maya.ApplyWarp: a warp that is not a node of the scene is excluded by its precondition. In the source, such a call returns True when no curve qualifies, and `connectAttr` raises otherwise. Neither case is modelled.
- Warp.Maya.ApplyWarp: the order of the rewired connections is not stated, because the curves come from `list(set(...))`, whose order Python leaves open.
- Warp.Maya.ApplyWarp: it walks the scene with `CollectInputs`, not with the recursion as written. The two agree on every acyclic scene (`Scene.GetInputsIsUpstream`).
- Warp.Maya.CreateWarp: the host's choice of a unique node name is the parameter `hostName`, and the playback range is the pair of floats `minTime`, `maxTime`. `time1.outTime` at a frame is the parameter `sceneTime` of `CreateWarpWholeFrames`.
- Warp.Maya.CreateWarp: the spline tangent types and the interpolation the host does between keys are not modelled. Infinity is recorded as the integer value written to `preInfinity` and `postInfinity`.
- Scene.GetInputs: its precondition asks for a rank of the whole scene. The source terminates whenever no producer cycle lies upstream of `n`, even if a cycle exists elsewhere in the scene.
- Warp.Maya.SelectWarpedNodes: built on the corrected query of the second finding. As written, a warp that drives nothing selects the `list` type object (it is truthy, so `select` runs and the selection is not cleared), and any other warp raises that finding's TypeError.
- Warp.Maya.GetWarpedNodes: when a curve's own destination query gives None, the corrected loop treats it as no destinations. The source would raise a TypeError iterating None there.
- Warp.StatusNameAsWritten: the pattern is a literal, so regular-expression metacharacters in a warp name (which `re.sub` would interpret) are not modelled.
- Warp.GetWarpCurve: when nothing feeds `warpInput`, the inner query gives None, and the outer call on None is host behaviour. The model answers None.
- WarpStatusNode.WarpStatus.Compute: `asFloat` and `setFloat` are single-precision; the model uses `real`, and the output is the chosen input exactly.
- `initializePlugin`, `uninitializePlugin`, `creator` and the node registration, `loadPlugin` and `pluginInfo` are host calls and are not modelled.
- Strings.Lower: only ASCII letters are lower-cased; Python's Unicode case mapping is not modelled.
- ModFile.InstalledModPath: the glob is the oracle `hasFile` applied to the joined path, so glob metacharacters in a path entry are not modelled.
- ScriptsInstall.TransferScripts: the package's own location (`realpath` of the script) is the parameter `source`. Copying the tree (`copy_files`) is not modelled. An `os.mkdir` failure, which the code does not catch, is not modelled.
- ScriptsInstall.BuildModFile: a failure to open or write the mod file, which the code does not catch, is not modelled.
- RezBuild.Destination.CopyEach: the copy itself (`copytree` with the `*.pyc` ignore pattern, `shutil.copy`) is recorded as one destination-to-source entry. The printed text is recorded as a `Step`. Whether an entry fails is the oracle `fails`.
- RezBuild.CopyAll: an existing destination is known only when an earlier copy recorded it; any other existing path, and a file copied onto a directory (which `shutil.copy` copies into it), is left to the oracle `fails`.
- RezBuild.LinkOne: an existing path is known only when it is a recorded link; a copied tree or directory already at the link's path is left to the oracle `fails`.
- RezBuild.Destination.LinkEach: `os.makedirs` may create several missing ancestors; the model records only the parent the code checks.
- RezBuild.Build: clearing the destination in the main block (`listdir`, `unlink`, `remove`, `rmtree`) is file-system work. It is not modelled, and neither is the banner printing.
- `drag_drop_install.py`, `scripts/widget.py`, `tests/maya_base.py` and `package.py` (UI dialogs, the test harness and package data) are not part of this model.

## Findings

| source | as written | input that shows it | evidently intended | confidence | as-written member | corrected member |
|---|---|---|---|---|---|---|
| scripts/core.py:111-112 | `get_inputs` recurses into every input without a visited set | two curves driving each other (`a.output -> b.input`, `b.output -> a.input`): `get_inputs("a")` recurses forever, until Python's recursion limit stops it | a walk that visits each producer once and returns `{a, b}` | not executed | Scene.TwoCurveCycleHasNoRank | Scene.CollectInputs |
| scripts/core.py:137 | `warped = list` binds the list type, not an empty list | a warp feeding one curve that drives `cube`: the test `node not in warped` raises a TypeError; with no curve, the type object itself is returned | start from `[]` and return `["cube"]`; the corrected loop also reads a None from the inner destination query (line 145) as no destinations | not executed | Warp.WarpedNodesAsWrittenFails | Warp.Maya.GetWarpedNodes |
| scripts/core.py:47 | `re.sub(curve_name, warp_node, connection_name)` replaces every occurrence of the curve name | warp name `warp` when the host names the curve `warp1`: the status node is requested as `warp1_warp1Settings` | replace only the leading curve name: `warp1_warpSettings` | not executed | Warp.StatusNodeAsWrittenMangles | Warp.StatusNameKept |
| scripts/core.py:40 | `range(min_time, max_time + 1)` over the playback bounds, which `playbackOptions` answers as floats (lines 21-22) | `create_warp("w", anti_warp=True)` with any playback range: `range` raises a TypeError after the curve and its infinity settings exist, so no key is set, no status node is made and nothing is connected | loop over the whole frames `int(min_time)` up to `int(max_time)` and key each at the scene time it plays at | not executed | Warp.PlaybackRangeRaises | Warp.Maya.CreateWarpWholeFrames |
