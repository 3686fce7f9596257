# A verified model of the browser's tooling and small stores

This project models, in Dafny, the parts of the repository whose correctness takes an argument: the changelog
assembler, the lifecycle of the Ant node, the confined symlink resolver and the glibc floor check, the uBlock
preprocessor, the retrying downloader, the bounded installer loop, the closures over lockfiles, audit reports and process
tables, and four small stateful stores. `dafny verify dfyconfig.toml` checks all of it.

How it is laid out:

- Changelog: `Text` (strings and lines), `Scan` (`findIndex`, `splice` and what they keep, for any element type),
  `ScanParts` (parts of ranges, and what an insertion or a cut leaves of them), `Changelog` (the functions),
  `ChangelogPlaces`, `ChangelogSplice`, `ChangelogMerge` (what one insertion, one section and one merge keep),
  `ChangelogCuts` (what a new heading cuts off, and what becomes of an entry), `ChangelogTheorems`, `ChangelogOrder` (the
  results), `ChangelogParts` and `ChangelogReading` (what a list, a block, a section and an entry are, and what a reader
  finds where after a merge and a splice), `ChangelogWitnesses` (inputs on which results fail), `AssembleChangelog` (the
  loops).
- Ant node: `AntLifecycle` (the steps between awaits), `AntSafety` (the invariant and the results over all runs),
  `AntProgress` (what comes of starts, stops and answers, and that starts succeed), `AntWedge` (the run from which no
  start recovers), `AntManager` (the module's variables as a class whose methods make
  those steps and keep the invariant).
- Native scan: `Resolver`, `Versions`, `Inventory`, `InventoryReport` (what each failure of a report says).
- uBlock lists: `Ublock`.
- Downloads: `Retry`, `Transfer` (one attempt as a machine over events), `TransferVerdict` (which event decides it, and
  how), `Downloader` (its closures as a class), `NpmInstall`.
- Graphs: `Reach` (reachability and worklists), `Lockfile`, `LockRestore`, `Audit`, `ProcessTree`.
- Stores: `Sessions` and `BrowsingTransport`, `Bookmarks` and `BookmarksStore`, `BlinkSettings`, `Cache`.

Code that changes variables or objects in place is a method or a class here, and each such method is proved to compute a
function of its inputs or of the old state; the lemmas are about those functions. What the code cannot see (clocks, random
numbers, servers, child processes, the file system, what listeners do when they are called) is a parameter or an event, and
the results hold for every value or order of it.

Some promises turned out to hold under a condition only. Each has a lemma with a failing input and one with the exact
condition:

- A second `--write` changes nothing exactly when no section heading that the first one put in cuts off an entry of the
  section above it, which it can do only at an indented heading (`ChangelogTheorems.IdempotentIffNothingCut`,
  `ChangelogWitnesses.IndentedHeadingRepeats`). This is for fragments no line of which reads as a heading;
  `ChangelogWitnesses.FragmentHeadingRepeats` shows that such a line can break the promise in a changelog without any.
- The delay before a retry is the longer of the step and the capped Retry-After only while the step is within the cap, or
  the server asks for no more than the step (`Retry.DelayIsLonger`, `Retry.LongerRetryAfterCanShorten`).
- A package resolves to the nearest enclosing copy unless a package called `node_modules` lies right inside another one
  (`Lockfile.ResolvesNearestExactly`, `Lockfile.NestedNamesakeMisses`).
- A rejected attempt leaves its temp file when the unlink fails, which the code ignores, or when the file is opened after
  it (`Transfer.TempLeftExactlyWhen`, `Transfer.TempFileIsLeft`).
- A start queued while the node stops is served by the close event of its child exactly when that child has its handlers
  attached (`AntSafety.QueuedStartServedIffWired`). A log pipe that throws before that leaves a node that can never be
  started again (`AntWedge.WedgedForGood`, `AntWedge.WedgeHappens`).
- A resolved uBlock text changes when resolved again exactly if a line taken into it ended with two carriage returns
  (`Ublock.ResolvingAgainIsIdentity`, `Ublock.TwoReturnsLoseOneEachTime`).

## Model

| member | source | states |
|---|---|---|
| Text.SplitJoin | scripts/assemble-changelog.js:309-356 | splitting a joined list of newline-free lines gives the list back, which every read, edit and write of the file relies on |
| ChangelogMerge.AcceptedBody | scripts/assemble-changelog.js:101-145 | an accepted body is a list: its first line is a bullet at column 0 and every line is a bullet or an indented sub-line |
| ChangelogParts.AcceptedExactly | scripts/assemble-changelog.js:101-137 | a fragment is accepted if and only if its first line is a bullet and every other one a bullet or a line two spaces in; otherwise the first line that is neither is complained of, as blank, too deep or not indented |
| ChangelogParts.EntriesAre | scripts/assemble-changelog.js:181-188 | the entries of an accepted fragment are its lines, one entry from each line at column 0 up to the next, with the white space at the end of each entry gone and nothing else changed |
| ChangelogMerge.MergePlaceable | scripts/assemble-changelog.js:181-210 | validated bodies merge into well-formed entries, no two of which share a lead bullet |
| ChangelogMerge.MergeKeepsText | scripts/assemble-changelog.js:181-210 | folding loses no lead and no sub-line of any fragment and invents none |
| ChangelogReading.MergeReads | scripts/assemble-changelog.js:198-210 | for validated bodies the merged entries have the leads of the bodies, each once, in the order of first appearance, and under each lead the texts of its lines in all bodies, each once, in that order; all read off the lines |
| ChangelogReading.NewLeadsInOrder | scripts/assemble-changelog.js:309-356 | for fragments of one section whose leads the changelog does not hold: in the text written, read again, the leads under the heading are those that were there and then the new ones in order of first appearance in the fragments, or these first under a heading of their own |
| ChangelogReading.MissingLinesInOrder | scripts/assemble-changelog.js:322-328 | under a lead that the changelog holds, what the fragments have and it has not comes behind what it has, in the order of the fragments, in the text written and read again |
| ChangelogReading.HeadingAdded | scripts/assemble-changelog.js:330-343 | a new heading with its entries is put above the first line that reads as a later heading, or last, and nothing else is touched |
| ChangelogTheorems.NothingPendingIffUnchanged | scripts/assemble-changelog.js:285-356 | nothing is pending if and only if a splice would write the same text, for every changelog and all validated fragments |
| ChangelogTheorems.IdempotentIffNothingCut | scripts/assemble-changelog.js:309-356 | for every changelog and all validated fragments without headings of their own: after a splice nothing is pending, and a second splice writes the same text, if and only if no new heading cuts off what the section above it carries, a condition on the changelog and the fragments before the first splice |
| ChangelogSplice.SpliceSectionCarries | scripts/assemble-changelog.js:322-353 | after its own turn every merged entry of a section is carried, whatever the block |
| ChangelogTheorems.CarriedIffNotCut | scripts/assemble-changelog.js:322-353 | after a pass over any block, a merged entry stands in full under its own section if and only if no new heading needed cuts it off in the block as it was |
| ChangelogTheorems.SpliceIsIdempotent | scripts/assemble-changelog.js:309-356 | so the second splice writes the same text whenever the section headings of the changelog are flush left (the promise of changelog.d/README.md) |
| ChangelogTheorems.SpliceOnlyInserts | scripts/assemble-changelog.js:309-356 | everything outside the Unreleased block is untouched, the old block is a subsequence of the new one, and every line put in comes from a fragment or is a heading or blank line of the splice |
| ChangelogTheorems.EveryFragmentLands | scripts/assemble-changelog.js:309-356 | every entry of every fragment stands under its own section afterwards, its lead as a bullet there and each sub-line under that bullet, if it does not read like the lead itself, unless a new heading cuts that section |
| ChangelogTheorems.SplicedBlock | scripts/assemble-changelog.js:220-226 | the spliced text, read again, has exactly the block that the passes over the sections computed |
| ChangelogParts.BlockIs | scripts/assemble-changelog.js:220-226 | the block runs from the first line that reads as the Unreleased heading to the next line that starts a release |
| ChangelogParts.BodyIs | scripts/assemble-changelog.js:229-235 | a section runs from the first line that reads as its heading to the next line that starts with the mark of a heading |
| ChangelogParts.BelowIs | scripts/assemble-changelog.js:248-276 | an entry's lines run from the first line at column 0 that reads as its lead to the next line at column 0 |
| ChangelogParts.CompleteMeans | scripts/assemble-changelog.js:248-276 | an entry whose lead is there is carried in full if and only if each of its sub-lines has a line below the lead that reads the same |
| ChangelogParts.PendingSplits | scripts/assemble-changelog.js:285-299 | what is pending comes in the order of the merged entries |
| ChangelogParts.PendingOne | scripts/assemble-changelog.js:290-295 | an entry is pending exactly when it is not carried in full |
| ChangelogParts.RefusedExactly | scripts/assemble-changelog.js:309-315 | a splice is refused if and only if there are fragments and no line reads as the Unreleased heading |
| ChangelogOrder.SpliceKeepsOrder | scripts/assemble-changelog.js:335-347 | section headings that were in canonical order still are, those put in included, if no line of a fragment reads as an indented heading |
| ChangelogWitnesses.IndentedHeadingRepeats | scripts/assemble-changelog.js:229-235 | a concrete changelog, well-formed but for one indented section heading, on which a second write does not give the text of the first |
| ChangelogWitnesses.FragmentHeadingRepeats | scripts/assemble-changelog.js:229-235 | concrete fragments, one with a sub-line that reads as a heading, on which a second write to an empty changelog does not give the text of the first |
| ChangelogWitnesses.FragmentHeadingDisorders | scripts/assemble-changelog.js:335-347 | a concrete fragment with a sub-line that reads as a heading, after which the headings of an empty changelog are out of order |
| AssembleChangelog.SplitEntries | scripts/assemble-changelog.js:181-188 | the loop over the lines computes the grouping that the theorems are about |
| AssembleChangelog.MergeEntries | scripts/assemble-changelog.js:198-210 | the map keyed by lead bullet, filled in place, computes the merged list, whose order and contents ChangelogReading.MergeReads reads off the lines |
| AssembleChangelog.LocateEntry | scripts/assemble-changelog.js:248-276 | the two index scans find the lead, the end of its sub-lines and what is missing under it |
| AssembleChangelog.PendingFragments | scripts/assemble-changelog.js:285-299 | without an Unreleased heading all fragments as given; otherwise a section is pending exactly with the merged entries that would still add something; empty if and only if nothing is pending |
| AssembleChangelog.FoldSection | scripts/assemble-changelog.js:322-328 | the loop that folds into the block under edit and sets new entries aside computes the fold of the model |
| AssembleChangelog.AppendSection | scripts/assemble-changelog.js:329-353 | new entries go under the heading, or under a new heading at its canonical place |
| AssembleChangelog.SpliceIntoChangelog | scripts/assemble-changelog.js:309-356 | the whole in-place splice computes the function that the theorems are about, its error included |
| AntSafety.StepInv | src/main/ant-manager.js:600-983 | every step of the lifecycle keeps the invariant: log, suspended attempts, polls, bridges and the queued start |
| AntSafety.OnlyTheLatestAttemptActs | src/main/ant-manager.js:600-914 | in every interleaving, an attempt that spawns antd or marks the bundled or a reused node running has been overtaken by no later start and no stop |
| AntSafety.OneSpawnPerAttempt | src/main/ant-manager.js:810-821 | no attempt spawns twice in any run |
| AntSafety.BridgesNeverLeak | src/main/ant-manager.js:792-827 | at every step boundary of every run an open chain bridge belongs to a child whose close handler is attached and has not run |
| AntSafety.AllClosedNoBridge | src/main/ant-manager.js:823-860 | once every child has closed no bridge is open |
| AntSafety.QueuedStartServedIffWired | src/main/ant-manager.js:606-610 | a start queued while stopping has a child on record, and that child's close event puts it in line if and only if the child has its handlers attached |
| AntWedge.WedgedForGood | src/main/ant-manager.js:600-983 | once a node is stopping with a child on record that has no handlers attached, no attempt suspended and no poll of that child, it never starts again: every continuation stays so, closed child or not, and nothing is begun, spawned or marked running in it |
| AntWedge.WedgeHappens | src/main/ant-manager.js:810-914 | a concrete run that ends so with a start queued: a log pipe that throws before the handlers are attached, a stop, a start |
| AntSafety.SupersededAttemptsTouchLittle | src/main/ant-manager.js:554-742 | a superseded attempt that resumes leaves process, bridge and generation alone, and touches the status only on the listed answers that do not look at the generation |
| AntSafety.LogTellsAll | src/main/ant-manager.js:600-983 | no step records a child or raises the generation without an entry in the log that the safety results speak about, and none turns the status to running without one, the probe of an external node and the health check of a node already started excepted |
| AntProgress.AttemptGoesOn | src/main/ant-manager.js:632-914 | an attempt that nothing has overtaken goes, for every place where it waits and every answer, exactly where a table of fates says: on to the next question, up, down, or to a launched child with its bridge and its poll |
| AntProgress.OnlyTheBridgeLaunches | src/main/ant-manager.js:632-821 | no answer but the open bridge launches a child; so a port that is taken leads to a search and not to a spawn |
| AntProgress.BundledFromHere | src/main/ant-manager.js:739-792 | an attempt whose ports are settled takes over the mode as bundled |
| AntProgress.GoodStartSucceeds | src/main/ant-manager.js:600-898 | from every run that leaves the node stopped or failed, a legacy or managed start whose answers are all good brings it to running, with its child and bridge on record and the health check on |
| AntProgress.HealthyNodeRuns | src/main/ant-manager.js:874-898 | in every run a healthy answer of the poll of the latest attempt and the child on record turns the status to running, starts the health check, and is logged as marking that generation as bundled |
| AntProgress.FoundNodeRuns | src/main/ant-manager.js:632-660 | in every run a daemon that the latest attempt finds is reused: running, health check on, and logged so |
| AntProgress.StartBegins | src/main/ant-manager.js:600-631 | a start of a stopped or failed node raises the generation and waits at its first question, or settles the status at once |
| AntProgress.StartElsewhere | src/main/ant-manager.js:600-611 | a start of a running or starting node changes nothing, and one of a stopping node only queues |
| AntProgress.StopSettles | src/main/ant-manager.js:917-983 | a stop of a bundled node with a child waits for the child to close; any other node is stopped at once |
| AntProgress.StopSupersedes | src/main/ant-manager.js:917-930 | a stop raises the generation over every attempt, and is logged |
| AntProgress.StopForgets | src/main/ant-manager.js:917-983 | a stop ends the health check and forgets a queued start, and the process stays on record |
| AntProgress.StopClosesBridge | src/main/ant-manager.js:917-930 | a stop closes the bridge on record and no other |
| AntProgress.CloseStops | src/main/ant-manager.js:823-854 | when the child on record closes, the node is stopped, its bridge closed, and a queued start put in line |
| AntProgress.CloseEndsTheWait | src/main/ant-manager.js:917-983 | when a child that a stop waits for closes, its listener and both timers are gone |
| AntProgress.CloseElsewhere | src/main/ant-manager.js:823-854 | any other child that closes takes its own bridge along and nothing else |
| AntProgress.ErrorFails | src/main/ant-manager.js:856-862 | an error closes the child's bridge and is a failure of the node exactly for the child on record |
| AntProgress.HealthIsFollowed | src/main/ant-manager.js:536-552 | the health check turns running to failed and failed to running, and nothing else |
| AntProgress.SixtiethStops | src/main/ant-manager.js:899-908 | the sixtieth unhealthy answer does what a stop does and then reports a failure |
| AntProgress.UnhealthyIsCounted | src/main/ant-manager.js:899-908 | any earlier one is only counted |
| AntProgress.StalePollEnds | src/main/ant-manager.js:867-880 | a poll of an older generation or another child ends at its next tick or answer and does nothing else |
| AntProgress.UnwiredSpawn | src/main/ant-manager.js:810-914 | a log pipe that throws leaves the child on record with no handlers and no bridge |
| AntProgress.ThrownSpawn | src/main/ant-manager.js:811-914 | a spawn that throws leaves no child and no bridge |
| AntProgress.OvertakenSpawn | src/main/ant-manager.js:792-808 | an attempt that has been overtaken closes the bridge it was given and changes nothing else |
| AntManager.Manager.StartAnt | src/main/ant-manager.js:600-631 | the invariant is kept; nothing changes for a node that runs or starts; while it stops the start is queued and there is a process to wait for; otherwise the generation rises over every suspended attempt |
| AntManager.Manager.StopAnt | src/main/ant-manager.js:917-983 | the invariant is kept, no bridge is on record, no start is queued, every suspended attempt is superseded, and the node is stopped or stopping |
| AntManager.Manager.AfterDetect | src/main/ant-manager.js:632-700 | the invariant is kept, and a superseded attempt leaves process, bridge on record, state and mode as they were |
| AntManager.Manager.AfterPersist | src/main/ant-manager.js:739-771 | the invariant is kept, and a superseded attempt leaves process, bridge on record, state and mode as they were, whether the ports were saved or not |
| AntManager.Manager.AfterBridge | src/main/ant-manager.js:792-914 | the invariant is kept; a superseded attempt, or a spawn that fails, leaves its bridge closed, and the former leaves process, bridge on record, state and mode alone; a spawn that works has the bridge on record with a live child whose close handler will close it |
| AntManager.Manager.OnClose | src/main/ant-manager.js:823-854 | the invariant is kept; the child's bridge is closed if its handlers were attached, and exactly then, if it is the child on record, the node is stopped and a queued start is put in line |
| AntManager.Manager.OnError | src/main/ant-manager.js:856-862 | the invariant is kept, the child's bridge is closed and the process stays on record |
| AntManager.Manager.OnPollTick | src/main/ant-manager.js:867-873 | the invariant is kept, process, bridge, state and mode are left alone, and a poll that is of an older generation or of another child ends |
| AntManager.Manager.OnPollAnswer | src/main/ant-manager.js:874-908 | the invariant is kept; an answer of a poll that is of an older generation or of another child leaves everything alone, and only a healthy one turns the node to running |
| Resolver.ResolveInTree | scripts/linux-native-scan.js:476-518 | the loop terminates on every symlink graph, by hops left and then components pending, and computes the resolution of the model from the joined and normalised path |
| Resolver.NormalIsNamed | scripts/linux-native-scan.js:477-486 | a joined path has no dot components, and is the base and the path one after the other when they have none |
| Resolver.NormalTakesBack | scripts/linux-native-scan.js:477-486 | a name followed by `..` cancels out, `.` stands for nothing, and `..` at the root stays at the root |
| Resolver.UpGoesBack | scripts/linux-native-scan.js:491-494 | `..` met after a component goes on from before that component, and at the root from the root |
| Resolver.LinkGoesOn | scripts/linux-native-scan.js:503-515 | a link met within the limit goes on with its target, from the root or from where the link stands, and then with what was still to come |
| Resolver.LinkUpGoesOn | scripts/linux-native-scan.js:491-515 | so a relative link to `../p` met below `d/m` goes on with `p` from `d` |
| Resolver.FortyLinks | scripts/linux-native-scan.js:503-506 | after forty links the next one is a loop, wherever it leads |
| Resolver.OutcomeMeans | scripts/linux-native-scan.js:476-518 | `ok` names a path of which every prefix is an ancestor of the mount or an existing entry that is no link; each failure names a path that is so up to the component that is missing in the tree, outside of it, or one link too many |
| Resolver.LoopStaysLinkFree | scripts/linux-native-scan.js:487-517 | in every state of the loop every prefix of `done` is an ancestor or an existing non-link in the tree, so the last `escapes` return is not taken |
| Resolver.FlatIsNested | scripts/linux-native-scan.js:487-515 | the flat loop over pending components equals the nested definition that first resolves a link's target, hop count and reported paths included |
| Resolver.ResolvedIsFixed | scripts/linux-native-scan.js:476-518 | a path that was reached resolves to itself |
| Resolver.OnlyShelteredEntriesMatter | scripts/linux-native-scan.js:499-507 | the outcome depends on no entry that lies behind a link and on nothing outside the tree |
| Resolver.StartsWithIsPrefix | scripts/linux-native-scan.js:477-484 | the string tests for ancestors and for being in the tree are prefix tests on components, and so is the model's test for ancestors |
| Versions.CompareVersions | scripts/linux-native-scan.js:118-126 | the loop computes the comparison |
| Versions.CompareMeans | scripts/linux-native-scan.js:118-126 | the sign says which of the two, padded with zeros, is lower at the first difference, and 0 that there is none |
| Versions.ComparePreorder | scripts/linux-native-scan.js:118-126 | a total preorder: antisymmetric in sign and transitive, through versions taken for equal as well |
| Versions.DottedReads | scripts/linux-native-scan.js:118-121 | the parts of a version are the numbers written in decimal between its dots |
| Versions.SummarizeVersionNeeds | scripts/linux-native-scan.js:201-223 | the maps filled in the loop, sorted and filtered, are the summary of the model |
| Versions.NotedMeans | scripts/linux-native-scan.js:203-210 | a version counts as weak only when every entry naming it is weak |
| Versions.SummaryList | scripts/linux-native-scan.js:201-216 | the list of a summary is sorted and has each needed version once, weak if and only if every raw entry that names it is weak |
| Versions.NotedOrder | scripts/linux-native-scan.js:203-210 | before sorting, versions stand in the order in which the entries first name them |
| Versions.SortedTies | scripts/linux-native-scan.js:211-214 | the sort is stable: versions that the comparison takes for the same keep their order |
| Versions.NewestMeans | scripts/linux-native-scan.js:216-219 | the newest version is one of the raw needs, weak or not, and none of them is above it |
| Versions.NewestNonWeakMeans | scripts/linux-native-scan.js:211-219 | the newest version that is not weak is one of the raw non-weak needs, and none of them is above it |
| Versions.FloorTestIsExists | scripts/linux-native-scan.js:201-223 | grouping, sorting and taking the last comes to: some single raw entry is a non-weak GLIBC need above the floor, in both directions |
| Inventory.FloorFailureReported | scripts/linux-native-scan.js:673-691 | the whole report holds a floor failure for a path if and only if the inventory lists it, the floor applies to it and some single raw non-weak GLIBC need of its scanned file exceeds the floor; the one failure without a path says that the declared floor is not the inventory's |
| Inventory.PassMeansClean | scripts/linux-native-scan.js:610-754 | a report passes if and only if nothing went unread, the declared floor matches, files and inventory cover each other, every entry agrees with its file, nothing is packed and every link resolves |
| Inventory.PassIsOneToOne | scripts/linux-native-scan.js:625-650 | in a report that passes the ELF files and the inventory's entries match one to one |
| Inventory.CompareFile | scripts/linux-native-scan.js:650-691 | the checks made on one present file push the failures of the model, in order |
| Inventory.ScanPackage | scripts/linux-native-scan.js:610-754 | the loops together report the failures of the model against the floor that was asked for, else the declared one, else the inventory's; error if and only if something went unread, pass if and only if nothing did and nothing failed |
| InventoryReport.ReportMeans | scripts/linux-native-scan.js:610-717 | for every kind and path, the report holds that failure if and only if the package has that fault: a wrong declaration, a file outside the prefix or not listed, an entry that is missing or disagrees, a packed member, a link that does not resolve |
| InventoryReport.OutsideMeans | scripts/linux-native-scan.js:625-632 | a path is outside if and only if it is not under the prefix or its first component after it starts with two dots; else it is known by what follows the prefix |
| InventoryReport.ReportOrder | scripts/linux-native-scan.js:610-717 | extra files come first, then what is wrong entry by entry, then packed members, then links |
| InventoryReport.EntryOrder | scripts/linux-native-scan.js:650-691 | what is wrong with one file comes as digest, class, interpreter, floor, each at most once |
| InventoryReport.SectionOrder | scripts/linux-native-scan.js:640-717 | within a section failures come in the order of what they are about |
| Ublock.ResolveUblockText | scripts/fetch-adblock-lists.js:209-248 | the loop with its frame stack, recursive includes and errors computes the machine of the model; recursion never goes deeper than three includes |
| Ublock.FlatIsStructured | scripts/fetch-adblock-lists.js:211-245 | for nested blocks the stack machine puts out exactly what structured evaluation does, a repeated else staying in the else branch |
| Ublock.ResolveIsStructured | scripts/fetch-adblock-lists.js:209-248 | a whole text is that of nested blocks exactly when its directives count out, its result is then what the blocks mean, and otherwise it is rejected |
| Ublock.ConditionalText | scripts/fetch-adblock-lists.js:214-248 | for any two texts whose directives count out, put between an if, an else and an endif in any spacing: the result is that of the first text if the condition holds and of the second if not; stated on texts |
| Ublock.ConditionChooses | scripts/fetch-adblock-lists.js:216-223 | with plain lines in the branches the output is the line of the branch that the condition chooses |
| Ublock.PlainIsItself | scripts/fetch-adblock-lists.js:215-244 | a text of one plain line is its own resolution |
| Ublock.IncludeResolves | scripts/fetch-adblock-lists.js:231-241 | a text that is one include resolves to what the text at the located address resolves to there, up to three deep; an address that is refused or not fetched is an error |
| Ublock.RejectsExactly | scripts/fetch-adblock-lists.js:224-247 | a text is rejected if and only if its directives do not count out or an include in a branch that is chosen fails; other branches make no difference |
| Ublock.OutputIsTaken | scripts/fetch-adblock-lists.js:209-248 | a property of lines holds of the whole output if and only if it holds of every plain line that is taken, here and in the includes followed |
| Ublock.OutputHasNoDirective | scripts/fetch-adblock-lists.js:209-248 | no line of the output is a directive, whatever was included |
| Ublock.ResolvingAgainIsIdentity | scripts/fetch-adblock-lists.js:215-217 | resolving the output again is the identity if and only if no plain line taken from the text or an include still ends with a carriage return after it has lost one |
| Ublock.SingleReturnsGiveIdentity | scripts/fetch-adblock-lists.js:215-217 | so it is when no line of the text or of any text that can be fetched ends with two carriage returns |
| Ublock.TwoReturnsLoseOneEachTime | scripts/fetch-adblock-lists.js:215-217 | a concrete text on which it is not |
| Ublock.LimitFetchesNothing | scripts/fetch-adblock-lists.js:232-233 | at the depth limit nothing is fetched |
| Ublock.SelfIncludeRefused | scripts/fetch-adblock-lists.js:232-241 | a list that includes itself is refused |
| Retry.WithRetry | scripts/lib/fetch-with-retry.js:227-253 | calls 1 to k in order for a k within the limit, four if none is given, k - 1 sleeps between them, each of the delay for its attempt and its error's Retry-After, a stop at the first success or the first error not worth retrying, and the result or error that goes with it |
| Retry.RetryableMeans | scripts/lib/fetch-with-retry.js:148-155 | an error is retryable if and only if some error at most three causes down says so and none above it carries a flag or a status |
| Retry.StatusDecides | scripts/lib/fetch-with-retry.js:122-124 | an error without a flag that has a status is retried if and only if that is 429 or 500 to 599 |
| Retry.FlagDecides | scripts/lib/fetch-with-retry.js:148-150 | a flag on an error decides, whatever else it carries |
| Retry.DelayIsLonger | scripts/lib/fetch-with-retry.js:180-189 | the delay is the longer of the jittered step and the capped Retry-After (section 10.2.3 of RFC 9110) if and only if the step is within the cap or the server does not ask for longer |
| Retry.LongerRetryAfterCanShorten | scripts/lib/fetch-with-retry.js:185-187 | a concrete fifth attempt on which a longer Retry-After shortens the wait |
| Retry.JitterBounds | scripts/lib/fetch-with-retry.js:182-183 | a jittered step lies between its nominal length and a quarter more |
| Retry.JitterRounds | scripts/lib/fetch-with-retry.js:182-183 | the step is within half a millisecond of the nominal one lengthened by up to a quarter |
| Retry.NominalTriples | scripts/lib/fetch-with-retry.js:182 | the first step is a second and each one three times the one before |
| Retry.NoRetryAfter | scripts/lib/fetch-with-retry.js:180-189 | without a Retry-After the delay is the jittered step |
| Retry.FourAttemptsWaitThreeMinutes | scripts/lib/fetch-with-retry.js:227-253 | four attempts never sleep more than 180 seconds in all |
| Transfer.StepInv | scripts/lib/fetch-with-retry.js:271-443 | every event keeps: one unsettled hop at most, which owns the deadline, or one cleanup under way, or a settled attempt; redirects bounded; the temp file in its right state |
| Transfer.RequestsBounded | scripts/lib/fetch-with-retry.js:330-357 | an attempt makes at most one request more than it may follow redirects |
| Transfer.SettlesOnce | scripts/lib/fetch-with-retry.js:301-312 | once an attempt has settled no later event changes its outcome |
| Transfer.DeadlineSettles | scripts/lib/fetch-with-retry.js:446-456 | the deadline leaves an attempt settled, or with only its unlink and the callback to come, at any point of any run |
| Transfer.TempLeftExactlyWhen | scripts/lib/fetch-with-retry.js:296-306 | a download to a file is rejected only after an unlink, carried out or failed, and then a temp file is left if and only if the unlink failed on a file that was there or the write stream opened it after the unlink |
| Transfer.TempFileIsLeft | scripts/lib/fetch-with-retry.js:296-306 | two concrete runs, one for each way, that end rejected with the temp file left |
| Transfer.DeliversWhole200 | scripts/lib/fetch-with-retry.js:391-425 | what is delivered is the complete body of one 200 response, chunk by chunk as it came, and to a file only after that file was closed without an error |
| Transfer.DestinationWholeOrUntouched | scripts/lib/fetch-with-retry.js:548-567 | over a whole retried download the destination is untouched, or one complete 200 body, cleanly closed, if an attempt landed |
| TransferVerdict.RunIsJudged | scripts/lib/fetch-with-retry.js:271-456 | for every run: the attempt is settled as the first decisive event says, in order of coming: delivered with the body that came for a good end, rejected with that event's failure otherwise, and undecided if there is none |
| TransferVerdict.GoodEndDelivers | scripts/lib/fetch-with-retry.js:391-425 | an undecided hop with all its body that is closed without an error, or ended when it goes to no file, is delivered whole, whatever comes later |
| TransferVerdict.RedirectIsFollowed | scripts/lib/fetch-with-retry.js:330-357 | an https redirect within the limit of an undecided attempt issues one more request and leaves the attempt undecided |
| TransferVerdict.GoodDownload | scripts/lib/fetch-with-retry.js:316-425 | so a 200 response whose chunks are within the limit, complete and cleanly closed, is delivered as those chunks |
| TransferVerdict.DeadlineDestroys | scripts/lib/fetch-with-retry.js:446-456 | the deadline destroys the last request, whether it still runs or not |
| Downloader.Attempt.OnResponse | scripts/lib/fetch-with-retry.js:316-371 | the invariant and any outcome are kept, requests stay within one more than redirects allowed, and a response without a body settles its hop |
| Downloader.Attempt.OnData | scripts/lib/fetch-with-retry.js:385-390 | the invariant and any outcome are kept, and a body over the limit settles its hop |
| Downloader.Attempt.OnFinish | scripts/lib/fetch-with-retry.js:391-406 | the invariant and any outcome are kept, and what is newly delivered is the complete body of a hop that nothing had settled |
| Downloader.Attempt.OnReported | scripts/lib/fetch-with-retry.js:296-306 | after the unlink the attempt is rejected with the error that asked for it, and a temp file is left if and only if the unlink failed on it or it was opened later |
| Downloader.Attempt.OnDeadline | scripts/lib/fetch-with-retry.js:449-453 | the invariant and any outcome are kept, and the attempt has settled or only its unlink is to come, whatever hop owned the deadline |
| NpmInstall.InstallWithRetries | scripts/ci/npm-ci-hardening.js:346-420 | runs are attempts in order, each under the smaller of its own limit and what is left, none with less than the minimum left, a clean between any two; the count and the verdict say what the last run did |
| NpmInstall.RunsAre | scripts/ci/npm-ci-hardening.js:365-400 | each run was begun with at least half a minute left, under the smaller of the attempt's own limit and what was left, and all but the last timed out or failed |
| NpmInstall.EndsInBudget | scripts/ci/npm-ci-hardening.js:365-392 | a run that keeps to its limit ends within the budget of the step plus the time between reading the clock and starting the run, so within the budget if there is none; no limit is over the attempt's own or under the minimum, unless the attempt's own is |
| Lockfile.ResolvePackage | ops/dependency-repair/lock-contract.py:26-33 | the walk terminates and computes the resolution of the model |
| Lockfile.OwnCopyFirst | ops/dependency-repair/lock-contract.py:26-33 | from the root only `node_modules/` is looked at, and from a package its own copy comes first |
| Lockfile.GoesOut | ops/dependency-repair/lock-contract.py:26-33 | a package without its own copy gets what the package it is installed in gets |
| Lockfile.GoesToRoot | ops/dependency-repair/lock-contract.py:26-33 | a package at the top without its own copy gets what the root gets |
| Lockfile.ResolvesNearestExactly | ops/dependency-repair/lock-contract.py:26-33 | every lockfile resolves to the innermost enclosing copy if and only if no package called node_modules lies right inside another in the path asked from |
| Lockfile.NestedNamesakeMisses | ops/dependency-repair/lock-contract.py:26-33 | a concrete path, and a lockfile, for which it does not |
| Lockfile.ChainIsEnclosing | ops/dependency-repair/lock-contract.py:33 | cutting at the last separator visits all enclosing packages if and only if no two separators overlap |
| Lockfile.ResolvedGraph | ops/dependency-repair/lock-contract.py:36-54 | the worklist terminates with cycles, its keys are exactly the packages reachable from the resolved roots, each with its own entry and, for exactly its own dependencies, what each resolves to from there; a missing root is refused |
| Lockfile.WantedIsClosed | ops/dependency-repair/lock-contract.py:36-54 | the reachable packages hold what the roots resolve to and, with a package, what its dependencies resolve to |
| Lockfile.WantedIsLeast | ops/dependency-repair/lock-contract.py:36-54 | and every set that does so holds them all |
| LockRestore.RestoreProtectedEntries | ops/dependency-repair/lock-contract.py:57-80 | refused if and only if a root is missing or a parent that needs its own copy of the helper cannot have one, with the first reason that applies, parent by parent; otherwise the generated lockfile with every protected entry put back and those copies added |
| LockRestore.RestoreKeeps | ops/dependency-repair/lock-contract.py:57-80 | every production package but the root entry and everything the other roots reach comes out as it was, every other package as generated, and the only new ones are the copies of the generated helper inside the two parents, there exactly when the helper was put back and the parent was generated |
| LockRestore.CanRestoreMeans | ops/dependency-repair/lock-contract.py:57-80 | exactly when it is possible, spelled out over the two lockfiles |
| LockRestore.RestoredAre | ops/dependency-repair/lock-contract.py:64-68 | what is reported as restored: exactly the packages that had to stay and were generated differently or not at all |
| LockRestore.IsolatedAre | ops/dependency-repair/lock-contract.py:69-79 | what is reported as isolated: exactly those copies |
| LockRestore.RestoreTwice | ops/dependency-repair/lock-contract.py:57-80 | restoring what was restored is possible, puts nothing back and changes nothing |
| Reach.SearchDone | ops/dependency-repair/lock-contract.py:41-54 | a worklist search that has run dry has visited exactly what is reachable |
| Audit.ResolveFinding | ops/dependency-repair/lock-contract.py:136-156 | refused if and only if a reachable name has no entry, or nothing reachable carries an advisory; otherwise all advisories of what is reachable |
| Audit.DependentChain | scripts/ci/accepted-advisories.js:43-57 | growing until stable gives exactly the other entries from which the package can be reached, as a set before it is sorted |
| Audit.ReachedIsClosed | ops/dependency-repair/lock-contract.py:136-156 | what is reached holds the name itself and whatever an entry reached names in its `via` |
| Audit.ReachedIsLeast | ops/dependency-repair/lock-contract.py:136-156 | and every set that does so holds all that is reached |
| Audit.WalksAreConverse | ops/dependency-repair/lock-contract.py:136-156 | an advisory of p is found from d if and only if d is such a p or lies in the dependent chain of one |
| Reach.Converse | scripts/ci/accepted-advisories.js:43-54 | reachability along reversed edges is the converse of reachability |
| ProcessTree.TreeFrom | test-e2e/close-app.js:67-89 | the rows kept are exactly those of the root and its descendants, in listing order, cycles and any order of rows allowed |
| ProcessTree.FamilyMeans | test-e2e/close-app.js:77-88 | a row is kept exactly as often as it is listed if its process is the root or descends from it, and never otherwise |
| ProcessTree.FamilyInOrder | test-e2e/close-app.js:77-88 | row by row, in the order of the listing, each is kept or left out |
| ProcessTree.DescendsIsClosed | test-e2e/close-app.js:67-77 | the root descends, and so does every listed process whose parent does |
| ProcessTree.DescendsIsLeast | test-e2e/close-app.js:67-77 | every set of processes with the root that holds the children of its members holds all descendants |
| Sessions.RetirementAndKeysLast | src/main/browsing-transport.js:130-186 | over any calls, retirement is for good and never hits the default session, keys are stable, injective and never the default one, and a signal once handed out stays |
| Sessions.SignalAbortedIffRetired | src/main/browsing-transport.js:176-186 | a signal is aborted if and only if its session has retired |
| Sessions.EachListenerOnce | src/main/browsing-transport.js:154-167 | over any calls, for every session, wherever it was retired from, also from inside listeners and abort handlers: each listener on record at its retirement has been called for it exactly once, in order, and none before it retires |
| Sessions.NoLaterCall | src/main/browsing-transport.js:154-167 | nothing that comes later calls a listener for a session that has retired, or changes who was on record |
| Sessions.HeardIsSubscribed | src/main/browsing-transport.js:154-167 | those on record are the listeners subscribed when the abort handlers have run, and with no signal those subscribed at the call |
| Sessions.CallbacksHappen | src/main/browsing-transport.js:154-167 | when a retirement returns, all that an abort handler or a listener on record does has happened, however deep: the sessions it retires have retired, the keys and signals it asks for are there |
| Sessions.SubscriptionsFollow | src/main/browsing-transport.js:189-193 | over any calls the listeners are without duplicates; a new one comes last, one already there changes nothing, and one taken back leaves the others in order |
| Sessions.RequireNeverRetired | src/main/browsing-transport.js:115-123 | the session to dial on is never retired, and is refused exactly for a retired context or a private log context without one |
| Sessions.AskingGives | src/main/browsing-transport.js:130-186 | asking for a key or a signal gives a private session one |
| BrowsingTransport.Transport.RetireSession | src/main/browsing-transport.js:154-167 | the whole new state of a retirement, callbacks included, which keeps the invariant |
| BrowsingTransport.Transport.SessionKey | src/main/browsing-transport.js:130-139 | exactly the private sessions have a key, it is the one they had if they had one, and no other session has it |
| BrowsingTransport.Transport.RetirementSignal | src/main/browsing-transport.js:176-186 | the signal handed out is aborted if and only if the session has retired, also when it is made only now |
| BrowsingTransport.Transport.RequireSession | src/main/browsing-transport.js:115-123 | the session handed out has not retired and is the context's or, outside private contexts, the default one; refused exactly for a retired context, or a private log context without one |
| BookmarksStore.Store.LoadBookmarks | src/main/bookmarks-store.js:27-33 | the list is what is on disk now, and an object that neither the cache nor anyone else holds |
| BookmarksStore.Store.SaveBookmarks | src/main/bookmarks-store.js:64-79 | a write that works leaves file and cache equal, one that fails leaves no cache, whatever it did to the file |
| BookmarksStore.Store.Add | src/main/bookmarks-store.js:86-94 | answer and file after an add, cache coherent |
| BookmarksStore.Store.Update | src/main/bookmarks-store.js:96-108 | answer and file after an update, cache coherent although the loaded list is edited in place |
| BookmarksStore.Store.Reorder | src/main/bookmarks-store.js:114-131 | answer and file after a reorder, cache coherent |
| BookmarksStore.Store.Remove | src/main/bookmarks-store.js:133-137 | answer and file after a removal, cache coherent |
| BookmarksStore.HandlersKeepUnique | src/main/bookmarks-store.js:86-137 | no handler writes a list with a repeated target if the list it read had none |
| BookmarksStore.HandledMeans | src/main/bookmarks-store.js:86-137 | a handler throws exactly on what is no list, says yes exactly when it made a change and the write worked, and then that list is what is read next; without a change nothing is written, and no other file ever is |
| BookmarksStore.WhatIsRead | src/main/bookmarks-store.js:35-62 | what is read is what the file holds if it is there and parses, and else the defaults |
| Bookmarks.AddMeans | src/main/bookmarks-store.js:86-94 | an add is refused exactly when the target is there, and puts the bookmark last |
| Bookmarks.UpdateMeans | src/main/bookmarks-store.js:96-108 | an update replaces the first bookmark with the old target where it stands and nothing else; refused exactly when there is none or the new target is another one that is there |
| Bookmarks.RemovedInOrder | src/main/bookmarks-store.js:133-137 | bookmark by bookmark, one goes exactly if it has the target, and the rest keep their order |
| Bookmarks.ReorderSucceeds | src/main/bookmarks-store.js:114-131 | a reorder goes through if and only if no target that it names stands twice in the list |
| Bookmarks.ReorderPermutes | src/main/bookmarks-store.js:117-130 | a reorder that goes through writes a permutation, what was named first and everything else behind it in its old order, duplicates included |
| Bookmarks.NamedInOrder | src/main/bookmarks-store.js:120-125 | what was named stands in the order asked for, each once |
| Bookmarks.NamedAll | src/main/bookmarks-store.js:117-125 | what is named are exactly the targets asked for that some bookmark has, each with its bookmark |
| Bookmarks.OthersInOrder | src/main/bookmarks-store.js:126-128 | what was not named keeps its order |
| BlinkSettings.MergeBlinkSettings | src/main/blink-settings.js:27-38 | the two loops and the printing compute the merge of the model |
| BlinkSettings.MergeReadsBack | src/main/blink-settings.js:27-38 | reading the result gives the settings of the input with the forced one put in, bare names and empty values told apart |
| BlinkSettings.MergeMeans | src/main/blink-settings.js:27-38 | every other name keeps what its last entry said, in the order of first appearance |
| BlinkSettings.ReadMeans | src/main/blink-settings.js:29-33 | an entry is a trimmed name, and behind its first equals sign a trimmed value that may be empty; without a name it says nothing |
| BlinkSettings.MergeAppends | src/main/blink-settings.js:27-38 | on a printed list of settings without the forced name the merge appends the forced one, on the text |
| BlinkSettings.MergeOverrides | src/main/blink-settings.js:27-38 | with the forced name in it the merge replaces that value in its place |
| BlinkSettings.MergeOfNothing | src/main/blink-settings.js:27-38 | with no settings given the switch says the forced one and nothing else |
| BlinkSettings.MergeTwice | src/main/blink-settings.js:27-38 | merging twice is merging once |
| Cache.Map.CapCache | src/main/cache-utils.js:7-20 | the two deleting loops leave exactly the entries of the model |
| Cache.CapRemovesInTurn | src/main/cache-utils.js:7-20 | exactly the excess over 500 is removed, survivors keep their order, the earliest expired entries go first and live ones, oldest first, only when no expired one is left |
| Cache.KeptInOrder | src/main/cache-utils.js:7-20 | what survives keeps its order, entry by entry |
| Cache.BeforeMeans | src/main/cache-utils.js:9-19 | an entry that has run out goes before one that has not, and of two alike the older goes first |
| Cache.CapOfLive | src/main/cache-utils.js:7-20 | a map of at most 500 entries is left alone, and one in which nothing has run out keeps its youngest 500 |

## Left out

- ChangelogTheorems.IdempotentIffNothingCut: is exact in the changelog, but assumes that no line of a fragment reads as an indented heading; ChangelogWitnesses.FragmentHeadingRepeats shows that this half is needed, ChangelogWitnesses.IndentedHeadingRepeats shows the other. For fragments with such lines no exact condition is stated, since each heading they bring moves the places of all later ones.
- ChangelogTheorems.EveryFragmentLands: has the same assumption about fragments, and a sub-line that reads like the lead bullet it stands under need not be found below it, since the source takes it for present.
- ChangelogReading.MergeReads: says what lines read, that is, without the white space at their ends; ChangelogParts.EntriesAre and ChangelogTheorems.SpliceOnlyInserts speak of the lines as they are written. ChangelogReading.NewLeadsInOrder and ChangelogReading.MissingLinesInOrder are for fragments of one section; for more, each section's turn is as ChangelogReading.AddedBelow and ChangelogReading.LeadsCompleted say.
- ChangelogOrder.SpliceKeepsOrder: has it too; ChangelogWitnesses.FragmentHeadingDisorders shows that it is needed.
- Changelog: collecting fragment files and their names, trimming and dedenting them (`normaliseFragment`, `dedent`), and the dry-run rendering (`renderSections`). A string is a sequence of characters here, without UTF-16 surrogates.
- Ant node: the external address and its probe beyond their answers, the status messages and the service registry, `createAntLifecycle`, the IPC handlers, the signals sent to the child. `bridge.close` is taken to be idempotent. A log pipe that throws after `spawn` is one event.
- Native scan: reading `readelf`, `objdump` and asar headers; the model starts from parsed entries. A version component that is not decimal digits counts as 0, so exponents, hexadecimal and surrounding blanks are not modelled. The sort is one stable sort, as ECMAScript demands of `Array.prototype.sort`. Paths are sequences of components here; splitting them at separators is left to the string tests. A `readlink` that fails after `lstat` is not modelled, and the tree does not change while it is walked.
- Inventory.PassMeansClean: takes the scan's paths to be distinct, as a directory walk lists them; Inventory.PassIsOneToOne takes the inventory's to be, as `validateInventory` demands.
- uBlock: what `evaluatePreprocessor` and URL resolution answer is a parameter, and the former is total; headers, commit lookup and list checks are not modelled.
- Downloads: real sockets, headers, the sweep of stale temp files, and parsing `Retry-After`. A request that was destroyed or has failed gives no response. Of the bytes already flushed to a temp file only presence and completeness are modelled. An unlink takes effect at one point before its callback. A rename that fails leaves its temp file; it counts as an attempt that did not land.
- Retry.WithRetry: takes the number of attempts to be a natural number; a negative one makes the source throw before any attempt.
- NpmInstall.EndsInBudget: allows for the time between reading the clock and starting the run, which the source does not bound.
- AntSafety.LogTellsAll: the probe of an external node and the health check of a running node mark it running without looking at the generation, and so without an entry in the log.
- Lockfile: `validate_lock` and the manifest checks, which compare entries one by one; of an entry only its dependencies, its development mark and the rest as one text are modelled.
- Audit.DependentChain: the set is modelled before it is sorted and rendered with versions and paths; `evaluate` compares such renderings and is left out. That a report's entries are of the right shape is taken for granted.
- Sessions: the asynchronous context is a parameter, and private windows and partitions are not modelled. A key is its number; the text `s` and the number is not spelled out. A listener that throws is one that does less.
- BookmarksStore.Store.SaveBookmarks: takes a list to survive being printed as JSON and parsed; edits to the file by hand while the program runs are not modelled, as in the source.
- Cache: keys are not looked at, so the results hold for any keys.
