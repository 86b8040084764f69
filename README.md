# easylink: a verified model of `bin/link.js`

easylink links local packages into the projects that use them and takes the links down again. It reads `.linkrc.json`, a dictionary from package name to `{ localPath, workspace? }`. Without `--reset` it runs `link`. For every package, in key order, `link` runs `yarn link` in `localPath`. It then runs `yarn link <name>` in each workspace entry, in list order. An absent `workspace` means `["."]`.

With `--reset` it runs `unlink`. For every package, `unlink` runs `yarn unlink <name>` in each workspace where `node_modules/<name>` exists and is a symbolic link. It warns about the other workspaces. It then runs `yarn unlink` in `localPath`. After all packages it runs `reinstall`. `reinstall` inverts the configuration into `workspaceModuleMap`, a dictionary from each raw workspace string to the names of the packages configured for it. It runs `yarn` in every key where at least one of those modules is now missing. Every command is awaited in turn, and the first one that fails ends the run.

The model is written in Dafny in eight modules:

- `Shell` (shell.dfy) defines the yarn commands and a `World` that bundles the outside world: the working directory, `path.isAbsolute`, `path.resolve`, and three oracles.
  - `exec` says whether a command succeeds.
  - `hasModule` is `fs.readdirSync` succeeding.
  - `isLinked` is `lstat(..).isSymbolicLink()`.

  The three oracles see the commands issued so far, so the filesystem they observe may change as yarn runs. It also defines `formatPrjPath` and `resolveModulePath`.
- `Steps` (steps.dfy) holds the one execution discipline shared by all three operations. An operation is a plan of steps. A step either always runs its command, or runs it only when the module is present and linked (`unlinkModule`), or only when some module is missing (`reinstall`). `RunSteps` works through a plan and returns the outcome (`Done`, or `Failed` with the failing command) and the log of events (commands run, warnings printed, keys skipped).
- `LinkConfig` (config.dfy) holds the configuration as a sequence of packages in key order.
- `Sequences` (sequences.dfy) defines duplicate removal that keeps first occurrences, and the position of a first occurrence.
- `WorkspaceMap` (workspace_map.dfy) is the dictionary `reinstall` builds, as a sequence of keys in insertion order and a map from each key to its list. `BuildModuleMap` is its loop. It updates the map value where the script pushes onto an array in place.
- `Linking` (link.dfy), `Unlinking` (unlink.dfy) and `Cli` (cli.dfy) hold the plans and the loops of `link`, `linkModule`, `unlink`, `unlinkModule`, `reinstall` and the `--reset` dispatch.

The loops of `link`, `linkModule`, `unlink`, `unlinkModule` and the key pass of `reinstall` are Dafny methods with the same `for` loop, `continue` and early exit. Each of them is proved equal to `RunSteps` on its plan. `BuildModuleMap` renders the `forEach`/`map` callbacks of the map build as two nested `for` loops and is proved equal to `ConfigModuleMap`. The lemmas then state what those runs and that map are.

## Model

| member | source | states |
|---|---|---|
| Shell.FormatPrjPath | bin/link.js:34-39 | an absolute workspace path is returned unchanged |
| Shell.FormatPrjPathIdempotent | bin/link.js:34-39 | when path.resolve yields absolute paths, the formatted path is absolute and formatting it again changes nothing |
| Steps.MissingModules | bin/link.js:118-121 | a name is kept exactly when it is in the workspace's list and its module directory is absent under the resolved path |
| Steps.AnyMissingFires | bin/link.js:118-122 | the reinstall guard runs its command exactly when some listed module is absent |
| Steps.StepEvent | bin/link.js:164-177 | a step that runs, runs its own command; an unguarded step always runs |
| Steps.RunFollowsSteps | bin/link.js:79-88 | one event per step reached, each decided on the history of the commands before it; every command issued succeeded except the last one of a failed run, which is the failing command and ends the run (the same holds for register 71-73, unlink 174-182, unregister 186-194 and install 124-132) |
| Steps.FollowsStepsOnlyRun | bin/link.js:79-88 | the converse of RunFollowsSteps: a run that keeps that discipline is the run RunSteps gives, so the discipline fixes the run (same await/throw sites as RunFollowsSteps) |
| Steps.RunStepsAppend | bin/link.js:147-155 | running two plans in sequence: a failure in the first is the result, otherwise the second starts from the history the first left |
| Steps.AlwaysPlanIssuesPrefix | bin/link.js:58-65 | a plan without guards issues a prefix of its commands, and all of them when no command fails |
| Steps.IssuedFromPlan | bin/link.js:55-67 | a run issues only commands of its plan |
| Steps.AlwaysStepRan | bin/link.js:185-190 | in a run that completes, every unguarded step ran its command |
| Linking.LinkModule | bin/link.js:69-90 | the loop of linkModule behaves as RunSteps on the module's link plan |
| Linking.Link | bin/link.js:55-67 | the loop of link behaves as RunSteps on the concatenated module plans, in key order |
| Linking.LinkPlanSize | bin/link.js:56-64 | the link plan has N + sum M_i steps, all unguarded |
| Linking.LinkPlanAppend | bin/link.js:58-65 | linking a + b is linking a, then linking b |
| Linking.LinkPlanAt | bin/link.js:71-83 | package i's block starts at Offset(c, i): its `yarn link` in localPath first, then its `yarn link <name>` per workspace entry, in list order |
| Linking.LinkIssuesPlanPrefix | bin/link.js:55-90 | link issues a prefix of the plan's commands, ending with the failing command on failure; when everything succeeds it issues all N + sum M_i commands in plan order |
| Linking.LinkPlanKinds | bin/link.js:69-90 | linking issues only `yarn link` and `yarn link <name>` |
| Sequences.Dedup | bin/link.js:101-107 | the result has no repeats and holds exactly the elements of the input |
| Sequences.DedupFirstSeenOrder | bin/link.js:101-107 | the result keeps the elements in the order of their first occurrence |
| WorkspaceMap.BuildModuleMap | bin/link.js:94-109 | the forEach/map loop builds the dictionary ConfigModuleMap describes |
| WorkspaceMap.ConfigModuleMap | bin/link.js:94-109 | the keys have no repeats and are exactly the keys holding a list |
| WorkspaceMap.EntriesListed | bin/link.js:96-99 | the pairs visited are exactly the (workspace entry, name) pairs of the configuration, with `["."]` for an absent list |
| WorkspaceMap.BuildMapValid | bin/link.js:100-107 | every insertion keeps the keys distinct and in step with the lists |
| WorkspaceMap.BuildMapIsDedup | bin/link.js:100-107 | keys are the distinct raw workspace strings in first-seen order; each list is the distinct names entered for its key, in entry order |
| WorkspaceMap.ModuleMapCoverage | bin/link.js:96-108 | a key lists a name exactly when a package of that name lists the key among its workspaces |
| WorkspaceMap.ModuleMapNoDups | bin/link.js:101-107 | no key appears twice and no list names a package twice |
| WorkspaceMap.ModuleMapFirstSeenOrder | bin/link.js:99-106 | keys follow the first appearance of each raw workspace string; each list follows configuration order |
| Unlinking.ModuleUnlinkPlanStep | bin/link.js:162-182 | one workspace entry: warn "does not exist" if the module is absent, else warn "is not linked" if it is no symbolic link, else run `yarn unlink <name>` and stop if it fails |
| Unlinking.UnlinkModule | bin/link.js:159-195 | the loop of unlinkModule behaves as RunSteps on the module's unlink plan |
| Unlinking.ReinstallStepsStep | bin/link.js:115-132 | one key: skip it when no module is missing, else run `yarn` in the raw key and stop if it fails |
| Unlinking.Reinstall | bin/link.js:92-134 | reinstall builds the map and behaves as RunSteps on one guarded install per key |
| Unlinking.Unlink | bin/link.js:144-157 | the loop of unlink, then reinstall, behaves as RunSteps on the package plans followed by the reinstall plan |
| Unlinking.UnlinkModuleWarnsOrUnlinks | bin/link.js:161-177 | `yarn unlink <name>` runs in a workspace exactly when the module exists and is a symbolic link; otherwise exactly the matching warning is logged; a warning never ends the run |
| Unlinking.UnlinkModuleUnregistersLast | bin/link.js:185-194 | `yarn unlink` in localPath is the event after every workspace entry and the only place it occurs, even if nothing was unlinked; it is skipped exactly when a `yarn unlink <name>` failed |
| Unlinking.ModuleUnlinkPlanShape | bin/link.js:159-195 | one step per workspace entry, then the unregistration |
| Unlinking.UnlinkModulesPlanLength | bin/link.js:145-154 | the package loop has N + sum M_i steps |
| Unlinking.UnlinkModulesPlanKinds | bin/link.js:159-195 | the package loop only unlinks and unregisters |
| Unlinking.UnlinkModulesPlanAppend | bin/link.js:147-154 | unlinking a + b is unlinking a, then unlinking b |
| Unlinking.UnlinkModulesPlanAt | bin/link.js:147-154 | package i's block sits at Offset(c, i), in key order |
| Unlinking.UnregisterStepAt | bin/link.js:185-189 | package i's unregistration is step Offset(c, i) + M_i |
| Unlinking.UnlinkReinstallsAfterModules | bin/link.js:147-155 | a failure in the package loop ends unlink before reinstall; otherwise reinstall starts after the N + sum M_i package events, and no install happens before |
| Unlinking.UnregisterEventAt | bin/link.js:185-190 | in a completed package loop, package i's `yarn unlink` ran as event Offset(c, i) + M_i |
| Unlinking.UnlinkUnregistersEveryPackage | bin/link.js:147-155 | before reinstall starts, every package has been unregistered, package i at event Offset(c, i) + M_i |
| Unlinking.ReinstallSkipRule | bin/link.js:112-127 | keys are visited in order; `yarn` runs for a key exactly when one of its modules is absent under the resolved path, and it runs in the raw key; other keys are skipped |
| Unlinking.ReinstallOncePerKey | bin/link.js:112-127 | reinstall issues only installs, each in a key of the map, and never two in the same key |
| Unlinking.UnlinkPlanKinds | bin/link.js:144-157 | unlinking only unlinks, unregisters and installs |
| Shell.ResolveModulePath | bin/link.js:31-33 | definition, no contract: the module directory is path.resolve(workspace, "node_modules", name) |
| WorkspaceMap.Insert | bin/link.js:100-107 | definition, no contract: a new key gets [name]; a listed name changes nothing; otherwise the name is appended to the key's list; its effect is stated by InsertRecords |
| WorkspaceMap.InsertRecords | bin/link.js:100-107 | after inserting, the key holds a list that contains the name: a new key is appended to the keys with the list [name]; an existing list is kept and gains the name at its end unless it already holds it; every other key keeps its list unchanged |
| Shell.YarnLinkLine | bin/link.js:71-81 | a command line starts with "yarn link" exactly for the register and link commands |
| Steps.RunSteps | bin/link.js:79-88 | definition, no contract: work through the steps in order, awaiting each command, and stop at the first that fails; its properties are stated by RunFollowsSteps and RunStepsAppend |
| Linking.ModuleLinkPlan | bin/link.js:69-90 | definition, no contract: `yarn link` in localPath, then `yarn link <name>` in each formatted workspace entry; its layout is stated by LinkPlanAt |
| Unlinking.ModuleUnlinkPlan | bin/link.js:159-195 | definition, no contract: a guarded `yarn unlink <name>` per formatted workspace entry, then `yarn unlink` in localPath; its layout is stated by ModuleUnlinkPlanShape |
| Unlinking.ReinstallSteps | bin/link.js:112-133 | definition, no contract: one install step per map key, in key order, probing under the formatted path and installing in the raw key; its behaviour is stated by ReinstallSkipRule |
| LinkConfig.Workspaces | bin/link.js:69 | definition, no contract: a package's workspace list, or `["."]` when it gives none, standing for the default parameter of linkModule (line 69) and unlinkModule (line 159) and the fallback to `defaultWorkspace` in reinstall (line 98); its use is stated by LinkPlanSize, ModuleUnlinkPlanShape and EntriesListed |
| Linking.LinkPlan | bin/link.js:55-67 | definition, no contract: the module link plans of the packages, in key order; stated by Link, LinkPlanAppend, LinkPlanAt and LinkPlanSize |
| Unlinking.UnlinkModulesPlan | bin/link.js:144-154 | definition, no contract: the module unlink plans of the packages, in key order; stated by UnlinkModulesPlanAppend, UnlinkModulesPlanAt and UnlinkModulesPlanLength |
| Unlinking.UnlinkPlan | bin/link.js:144-157 | definition, no contract: the package unlink plans followed by the reinstall plan; stated by Unlink, UnlinkReinstallsAfterModules and UnlinkPlanKinds |
| Unlinking.ReinstallPlan | bin/link.js:92-133 | definition, no contract: the reinstall steps over the map built from the configuration; stated by Reinstall, ReinstallSkipRule and ReinstallOncePerKey |
| WorkspaceMap.BuildMap | bin/link.js:96-108 | definition, no contract: the dictionary after inserting the entries in order; stated by BuildMapValid, BuildMapIsDedup and BuildModuleMap |
| WorkspaceMap.Entries | bin/link.js:96-99 | definition, no contract: the (workspace entry, name) pairs in the order the map build visits them, packages in key order and entries in list order; stated by EntriesListed |
| Linking.LinkIssuesYarnLinkLines | bin/link.js:71-83 | every command line a link run issues starts with "yarn link" |
| Cli.DispatchCommandLines | bin/link.js:197-202 | a command line starts with "yarn link" exactly when it was issued by a run without `--reset` |
| Cli.Dispatch | bin/link.js:197-202 | `--reset` runs unlink, anything else runs link |
| Cli.DispatchModesDisjoint | bin/link.js:197-202 | a reset run issues no `yarn link` command, and a link run issues nothing else |

## Left out

- `child_process.exec` and what yarn does are not modelled. Each command is an oracle verdict, success or failure. The commands it issued are the history the oracles see.
- `fs.readdirSync` and `fs.lstatSync` are the oracles `hasModule` and `isLinked`. `readdirSync` follows symbolic links, so a dangling link counts as absent and draws the "does not exist" warning. An `lstatSync` that throws is not modelled, because `hasModule` has just succeeded on the same path.
- `path.resolve` and `path.isAbsolute` are abstract functions of the `World`. Only the identity on absolute paths is stated, plus idempotence under the assumption that resolve yields absolute paths.
- Spinners, `chalk` colours and console output are not modelled. Warnings appear only as events. `linkDone` and `unlinkDone` are implied by a `Done` outcome. The `spinner.fail()` at line 86 fails the registration spinner rather than the link spinner. This is presentation only.
- `yargs` parsing and the `require` of `.linkrc.json` are reduced to a `reset` flag and a configuration value. The unused `--dev` option is not modelled.
- `async`/`await` is modelled as strictly sequential steps. A failure is an outcome rather than a rejected promise.
- A `Failed` outcome stands for the rejected promise of `unlink()` or `link()` (lines 199 and 202), which nothing handles. The process exit status that follows depends on the Node version's unhandled-rejection mode and is not modelled.
- `Object.keys` is assumed to list keys in insertion order. JavaScript lists integer-like keys such as "1" first, in numeric order. This affects both the package order and the order of `workspaceModuleMap` keys.
- `workspaceModuleMap` is an object literal. A workspace string such as "constructor" or "__proto__" finds an inherited property and makes the script throw a TypeError. The model treats such keys like any other key.
- A `workspace` of `null` is treated like any other configured value, which is not modelled. `linkModule` and `unlinkModule` would throw on it, while `reinstall` would default it to `["."]`.
- The `push` at line 106 mutates the array that `modulesToReinstall` aliases inside the dictionary (lines 100 and 106). `BuildModuleMap` models it as a value update of the dictionary entry. Aliasing and in-place update are therefore not captured; nothing else holds a reference to those arrays.
- `Skipped` events (a reinstall key with nothing missing) are a bookkeeping device of the model. The script prints nothing for them.
- On three points the model follows the code rather than what one might expect:
  - `yarn` runs in the raw workspace key, not the resolved path;
  - the reinstall lists are ordered arrays without repeats;
  - an empty configuration is allowed.
