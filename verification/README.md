# A verified model of the engine

A fork is a workspace cut from a generation of the repository. Promoting it lands what it
changed on the mainline, path by path, merging text where both sides changed a file. A rewind
replaces the whole working tree by an earlier generation and may be killed at any moment.
A capture pipeline records the timeline that both of them rely on, and a cache keeps answers
that were computed ahead of time. This project models those four parts in Dafny and proves
what they promise.

## How the model is laid out

| file | contents |
|---|---|
| `Paths.dfy` | repository paths in the engine's order, sorted sets, range probes, subtree roots |
| `Trees.dfy` | trees of files, well-formedness, replacing subtrees |
| `TextMerge.dfy` | the wrapper around the three-way text merge, conflict markers |
| `Planner.dfy` | the merge planner: one walk, one cursor, one decision table |
| `Landing.dfy`, `MergeLaws.dfy` | what landing a plan does to the mainline, and its laws |
| `FileMerges.dfy` | what merging one file gives, in terms of the library and the texts, and what of it lands |
| `Writing.dfy`, `Rebasing.dfy` | landing and rebasing as sequences of writes |
| `Checkouts.dfy` | edits of a checkout one node at a time: stacks and queues |
| `Promotion.dfy`, `Retrying.dfy` | forks, the promote protocol of the daemon, and what a failed promote leaves |
| `Carrying.dfy`, `Returning.dfy`, `Rewind.dfy` | the journaled rewind on a machine that can be killed between any two steps |
| `Exclude.dfy` | excluded paths and watcher hints |
| `Serving.dfy`, `Pipelines.dfy` | the capture pipeline: what its requests do, on values, and the pipeline that does it |
| `Watching.dfy`, `Requests.dfy` | the laws of both: what the watcher's answers leave at each path, and what each request records and publishes |
| `RewindRecords.dfy` | a rewind from end to end: recorded, swapped, recorded again |
| `SpecCache.dfy` | the speculation cache and the runs in flight |
| `Diffs.dfy` | the paged walk of a generation and the path-keyed difference |

A path is a sequence of names, a tree a map from paths to nodes (directory, regular file,
symbolic link), and a generation is its tree. A tree is well formed when every proper ancestor
of an entry is a directory. A name is a string whose characters stand for bytes. Objects whose
methods update fields are classes (`WorkTree`, `Checkout`, `Server`, `Host`, `Pipeline`,
`SpecStore`); each of their methods is proved against functions and predicates on values, and
the laws are proved about those.

## Assumptions

* The text-merge library is a parameter. Where a result needs one of its laws the lemma says so:
  `IdentityLaws` (an unchanged side yields to the other, equal sides merge to themselves, on
  newline-terminated text), `MarkerLaw` (its conflicts carry markers), `SymmetricVerdict`
  (whether it conflicts does not depend on the order of the sides).
* The `.gitignore` test and the UTF-8 test are parameters.
* A rename, the exchange of two directories on Unix, the removal or creation of one entry and the
  write of the journal are single steps of the rewind machine. Each step may be the last one
  before a kill, and every process has an arbitrary set of operations that fail in it. A recursive
  removal cut short leaves an arbitrary part of the tree.
* A fork's overlay may have something pending although its content equals its base, since metadata
  counts (crates/acyclic/src/server.rs:987-988); with nothing pending the two are equal. A rebase
  or an edit leaves something pending.
* In the pipeline the watcher's answers, the live tree at each capture and the engine call that
  fails are inputs. A capture re-reads each hinted subtree.
* A promote may fail while it reads the workspace for the marker check, when the head is published,
  or between any two paths it writes into a workspace or into the working tree. A failure to plan,
  to build or to record before the first write has the effect of one at the head.

## Main results

* **Landing is the three-way merge, path by path** (`LandingIsThreeWayMerge`), although the planner
  walks the changes once with one cursor (`CursorDecides`), probes ranges instead of sets
  (`SubtreeChangedIsExact`) and replaces whole subtrees. A plan contests nothing exactly when the
  sides are compatible path by path (`UncontestedExactlyWhenCompatible`). Where both sides edited a file
  and the library merges it, exactly the library's text lands (`CleanEditsLand`); where it does not, the file is
  listed with the library's text under the names of the sides (`ClashingEditsAreListed`).
* **Landing cannot fail half way and keeps the tree well formed** (`LandingNeverFails`,
  `LandedIsWellFormed`), by either route: from the fork itself, from a built generation, and in any
  order of the entries (`RestoringFromForkRefinesBuild`, `BuildIsOrderFree`).
* **The iterative checkout edits refine subtree replacement** (`Checkout.RemoveSubtree`, `Checkout.CopyNode`,
  `Checkout.ApplyEntries`).
* **The conflict loop closes** (`ResolveAndPromote`): after a conflict, writing a resolution and
  promoting again lands exactly the resolution, or is refused for exactly the conflicted paths that hold a
  text in which some line opens a block and some line separates one;
  a resolution equal to the mainline lands nothing and consumes the fork.
* **Independent forks commute**, as plans (`IndependentForksCommute`) and as promotes of the daemon
  in both orders (`PromoteInBothOrders`), and **the planner is symmetric** in its sides.
* **The rewind survives being killed anywhere, any number of times** (`RewindThroughCrashes`), and in
  every state on the way each live excluded file is in the working tree or in the stage, never in
  neither and never in both (`NoLiveCopyIsLost`). Whichever tree it ends with, every live excluded path
  is where it was.
* **The pipeline does what its specification says** (`Pipeline.Handle`, `Pipelines.Run`): with no failing
  call every request, the timeline included, is a function of the state before it, and a run is a
  chain of such states from the started pipeline to the final one. What a checkpoint records at a path is
  what the watcher's last answer about it found (`CheckpointRecordsWhatWasRead`), and what is published over
  a run is what the checkout held or a rescan read (`RunPublishes`).
* **A noop row hides captured work exactly when some request left it out of sight**: one predicate over
  all requests (`Hides`) is exact for any request in a state in which nothing is lost
  (`ServedHides`, `RequestThenQuietCheckpoint`). Over whole runs no row hides anything unless a request finds it
  lost, and with no failing call exactly then (`RunHidesExactlyWhen`); nothing is lost as long as no
  request hides (`NothingHides`), which can be read off the requests alone (`SettledRunsHideNothing`).
* **The timeline holds no excluded path exactly when no generation handed in does**, over whole runs in
  which no failing capture or scrub leaves one and no overlay with one is promoted whole
  (`Pipelines.Run`, `CleanExactlyWhenGuestsAre`). Exactly which captures and scrubs that are cut short put an
  excluded path into the next checkpoint is `CutShortThenCheckpoint`.
* **A rewind records its target again** exactly when every directory on the way to a carried file is in
  it (`RecordsTargetExactlyWhen`), pipeline and swap taken together (`RewindRecords.RewindUndisturbed`).
* **A claim returns nothing or the answer for its key**, over whole runs of the cache
  (`ClaimsAreAnswers`).

Where the code does less than its own description promises, the code is kept and the exact
condition is proved:

* A carry, whether it gets through or is stopped, loses no live file exactly when, among the paths it
  got to, none is listed before a directory it lies in that nothing earlier takes along
  (`CarryLosesNothingExactlyWhenSafe`); how far it gets is read off the target and the list
  (`CarryReaches`). The list `secrets/a`, `secrets` loses `secrets/a` (`NestedRulesLose`); the parser
  drops only exact repetitions (crates/acyclic-engine/src/exclude.rs:66).
* A rewind starts by clearing the staged tree (crates/acyclic-engine/src/rewind.rs:490). After an
  exchange that failed (crates/acyclic-engine/src/rewind.rs:562) the carried files are in it: a second
  rewind of the same daemon, whose process id names the stage (crates/acyclic-engine/src/rewind.rs:482-490),
  keeps such a file exactly when its target happens to hold it, and always after a recovery
  (`RewindAfterFailedExchange`, with a concrete disk in `OneFileIsEnough`). Another daemon recovers first. A
  swap by three renames can also stop with the repository path vacated, and no rewind checks that it
  is there: a second one then fails, but not before it has deleted the stage and the old tree
  (`RewindOverVacatedSwap`; crates/acyclic-engine/src/rewind.rs:490, 731).
* A rename back that fails is ignored and the stage is dropped all the same
  (crates/acyclic-engine/src/rewind.rs:405-419, 635-636). Exactly which paths are left is one recursion over
  the list, whatever fails (`Returning.There`, `TurnTaken`). With the directories makeable, that is what was not
  carried, the directories on the way to carried paths, and what lies beneath a path whose rename
  works and before which no path inside it is listed (`ThereExactly`, `RecoverWithStuckRenames`,
  `StuckCopies`; a path lost although its own rename works in `PlaceTaken`).
* A noop row hides captured work after any request that leaves it out of sight (`Hides`): a checkpoint
  or restore that rescans first, raced by a change that matters
  (crates/acyclic-engine/src/pipeline.rs:965-992); a rewind or a landed session whose rescan is raced
  (crates/acyclic-engine/src/pipeline.rs:1667-1699, 2217-2230); a checkpoint, a published head, a cut fork, a
  session that is resolved or a restore under which the watcher breaks after something was captured,
  which unlike an idle tick leaves no marker (crates/acyclic-engine/src/pipeline.rs:1353, 1885-1906, 1947-1966);
  and an apply of a session that finds its base overtaken, which puts the checkout back to what is
  published (crates/acyclic-engine/src/pipeline.rs:2177-2202); and the promote of a whole overlay, in the ways of
  a published head and of a rewind (crates/acyclic-engine/src/pipeline.rs:2002-2098). `BrokenThenQuietCheckpoint` and
  `ConflictingApplyThenQuietCheckpoint` need no sound state before.
* An engine call that fails can do it too: a snapshot that fails after its drain leaves a marker only
  where there was one, although the comment there (crates/acyclic-engine/src/pipeline.rs:1367-1369) says the
  marker stays for the next request (`FailedSnapshotThenQuietCheckpoint`).
* A Safe Mode session may write an excluded path in its mount, which nothing filters
  (crates/acyclic/src/server.rs:1101-1153, crates/acyclic-engine/src/pipeline.rs:2153-2164), and what lands is recorded
  as it is (crates/acyclic-engine/src/pipeline.rs:2203-2213): `LandedSessionIsRecorded`, with a rule for `.env`
  in `SessionMayHoldExcluded`.
* A restore refuses the excluded paths themselves and no others (crates/acyclic-engine/src/pipeline.rs:1779-1787).
  Restoring a directory replaces it wholesale (crates/acyclic-engine/src/rewind.rs:93-160), so every live
  excluded file survives exactly when none lies beneath a restored path
  (`RestoringKeepsExcludedExactlyWhen`).
* A promote that fails drops the open conflict unless the failure is the marker refusal itself
  (crates/acyclic/src/server.rs:887-899). One that fails while reading the workspace has not looked at
  the markers yet (crates/acyclic/src/server.rs:1218-1233), so the next promote lands the marked files; it does
  so exactly for those failures (`PromoteMarkedAfterFailure`).
* A landing that stops between two paths keeps the fork, as still promotable
  (crates/acyclic/src/server.rs:888-889). Promoting it again ends where the first promote would have exactly
  when every file or link that the fork turns into a directory at or beneath what has landed is
  ignored, since the planner refuses those even where both sides agree, and every file merged there
  merges to the same again, or is ignored and does not merge (`RetryFinishesExactlyWhen`,
  `PromoteAgainAfterStop`).
* Row ids of the cache come back once rows are gone, and the scheduler recognises its run by the id
  (crates/acyclic/src/speculate.rs:452-463). A late report of a cancelled run can then answer another
  key (`LateReportAnswersAnotherKey`); it is harmless exactly when the row of its id is not taken over
  (`HarmlessExactlyWhenKept`).

Two further conditions are exact and met by the code as it is used: sweeping the cache is safe exactly
when no run is in flight (`SweepIsSafeExactlyWhenIdle`), and the only sweep runs when the scheduler starts
(crates/acyclic/src/speculate.rs:380); and
the planner refuses, as its table says, one kind of agreement, both sides having turned a file or link
of the base into a directory (`AgreesPlainly`).

## Model

| member | source | states |
|---|---|---|
| `Paths.SubtreesAreContiguous` | crates/acyclic-engine/src/merge.rs:430-434 | whatever sorts between a directory and something beneath it is beneath it too: why one range probe is enough |
| `Paths.SubtreeChangedIsExact` | crates/acyclic-engine/src/merge.rs:430-434 | the probe (first member not below the path, then a prefix test) answers whether any member is at or beneath the path |
| `Paths.DescendantsAreExact` | crates/acyclic-engine/src/merge.rs:436-445 | the scan that stops at the first non-descendant yields exactly the strict descendants, in order |
| `Paths.SubtreeRoots` | crates/acyclic-engine/src/merge.rs:1169-1179 | the result is drawn from the input, covers it and does not nest |
| `Paths.SubtreeRootsAreUnique` | crates/acyclic-engine/src/merge.rs:1169-1179 | those three properties determine the set of roots |
| `Paths.PathLessExactly` | crates/acyclic-engine/src/merge.rs:430-445 | the order of paths: by the first component in which they differ, a directory before what is beneath it |
| `Paths.NameLessExactly` | crates/acyclic-engine/src/merge.rs:430-445 | the order of names: by the first byte in which they differ |
| `TextMerge.Merge3KeepsIdentities` | crates/acyclic-engine/src/merge.rs:50-123 | an unchanged side yields to the other and equal sides merge to themselves, exactly, whatever the trailing newline or emptiness |
| `TextMerge.MarkersByScan` | crates/acyclic-engine/src/merge.rs:128-138 | the line-by-line marker test agrees with a single scan over the text |
| `TextMerge.RelabelKeepsMarkers` | crates/acyclic-engine/src/merge.rs:85-123 | renaming the labels of a conflict block cannot unmark it |
| `TextMerge.ModifyDeleteIsMarked` | crates/acyclic-engine/src/merge.rs:315-336 | every modify/delete block is recognised as an open conflict, whatever it quotes |
| `TextMerge.ConflictsAreMarked` | crates/acyclic-engine/src/merge.rs:252-311 | every conflict a file merge reports carries text recognised as marked |
| `TextMerge.MergeFileIsSymmetric` | crates/acyclic-engine/src/merge.rs:252-311 | exchanging the sides keeps refusals and clean merges and mirrors the kind of a conflict |
| `TextMerge.DeletionsNeverMerge` | crates/acyclic-engine/src/merge.rs:252-311 | a file deleted on one side never merges cleanly; the conflict names the deleting side |
| `FileMerges.MarkersByPosition` | crates/acyclic-engine/src/merge.rs:128-138 | a text holds an open conflict exactly when a line starts with the opening marker and a line is seven equals signs, up to two carriage returns |
| `FileMerges.OpeningsCounted` | crates/acyclic-engine/src/merge.rs:141-149 | the hunk count is the number of positions at which a line opens a block |
| `FileMerges.RefusedExactlyWhen` | crates/acyclic-engine/src/merge.rs:240-275 | a file merge is refused exactly when some side is no text, with the reason of the first such side |
| `FileMerges.CleanMergeIsTheLibrarys` | crates/acyclic-engine/src/merge.rs:276-292 | for texts of complete lines that differ, a clean answer of the library is the merge |
| `FileMerges.MergedOrMarked` | crates/acyclic-engine/src/merge.rs:85-123 | for any texts: a clean answer is the merge but for the newline at its end, which follows the side that changed it; any other answer is the conflict, under the names of the sides, with one hunk for each opening |
| `FileMerges.MergeFileKeepsIdentities` | crates/acyclic-engine/src/merge.rs:252-292 | an unchanged side yields to the other and equal sides merge to themselves, for whole file merges |
| `FileMerges.EqualSidesMerge` | crates/acyclic-engine/src/merge.rs:276-279 | equal sides merge to themselves whatever the library does |
| `FileMerges.ModifiedHereDeletedThere` | crates/acyclic-engine/src/merge.rs:298-336 | the block of a file the mainline deleted: the kept text on the side of the fork, nothing on the other, the base between |
| `FileMerges.DeletedHereModifiedThere` | crates/acyclic-engine/src/merge.rs:305-336 | the same with the sides exchanged |
| `FileMerges.NothingReplaced` | crates/acyclic-engine/src/merge.rs:113-115 | renaming labels leaves a text without them as it is |
| `FileMerges.FirstReplaced` | crates/acyclic-engine/src/merge.rs:113-115 | the first label is replaced where it stands, and the search goes on behind it |
| `FileMerges.BlockIsRelabelled` | crates/acyclic-engine/src/merge.rs:113-115 | in a text with one block, the names of the sides stand where the library put its own |
| `Planner.ChangedPaths` | crates/acyclic-engine/src/merge.rs:449-469 | exactly the paths outside `.git` whose content differs, in order |
| `Planner.Plan` | crates/acyclic-engine/src/merge.rs:476-631 | the walk computes the declarative plan: each list holds, in order, exactly the paths no settled directory lies above and for which the table gives that verdict |
| `Planner.CursorDecides` | crates/acyclic-engine/src/merge.rs:494-503 | a path lies under some settled directory exactly when it lies under the last one |
| `Planner.SettledAbove` | crates/acyclic-engine/src/merge.rs:494-503 | a changed path the walk skips lies under a path it reached and settled |
| `Landing.DecidedPathsDoNotNest` | crates/acyclic-engine/src/merge.rs:494-629 | the planned paths are an antichain |
| `Landing.EveryChangeIsDecided` | crates/acyclic-engine/src/merge.rs:494-629 | every changed path lies at or beneath a planned one, or both sides hold the same there |
| `Landing.ParentsOfReached` | crates/acyclic-engine/src/merge.rs:846-868 | whatever is taken from the fork has its directories on the mainline already |
| `Landing.DeletionsFindTheirTarget` | crates/acyclic-engine/src/rewind.rs:93-115 | a planned deletion finds its path on the mainline, so the error for a path absent on both sides cannot occur |
| `Landing.KeepMainlineFor` | crates/acyclic-engine/src/merge.rs:396-414 | drops refusals and conflicts on ignored paths, nothing else, and returns exactly the dropped paths, sorted |
| `Landing.RetainRefusals` | crates/acyclic-engine/src/merge.rs:396-414 | the refusal half of that |
| `Landing.RetainConflicts` | crates/acyclic-engine/src/merge.rs:396-414 | the conflict half of that |
| `Landing.LandingIsThreeWayMerge` | crates/acyclic/src/server.rs:1519-1661 | landing leaves at every path the three-way merge of base, fork and mainline; `.git` and contested paths keep the mainline |
| `Landing.LandingSourceIsWellFormed` | crates/acyclic/src/server.rs:1519-1547 | the tree that lands is well formed and has the fork's paths |
| `Landing.LandingParentsInPlace` | crates/acyclic-engine/src/merge.rs:846-868 | every landing path is present on one side and its directories are on the mainline |
| `Landing.LandedIsWellFormed` | crates/acyclic/src/server.rs:1648-1661 | the mainline stays well formed |
| `MergeLaws.ListedPaths` | crates/acyclic-engine/src/merge.rs:504-659 | which reached verdicts the refusal, merge and conflict lists hold |
| `MergeLaws.ContestedIsListed` | crates/acyclic-engine/src/merge.rs:504-659 | a contested path is listed, and the plan is then not uncontested |
| `MergeLaws.UncontestedExactlyWhenCompatible` | crates/acyclic-engine/src/merge.rs:504-631 | no refusal and no conflict exactly when every path changed on both sides agrees or merges cleanly, each judged alone |
| `MergeLaws.ConflictsComeFromFiles` | crates/acyclic-engine/src/merge.rs:633-659 | a conflict is about one file present on some side and carries the content merge's marked text |
| `FileMerges.CleanEditsLand` | crates/acyclic/src/server.rs:1519-1661 | a file that both sides edited and the library merges cleanly: the mainline then holds the library's text, but for the newline at its end |
| `FileMerges.CompleteLinesLand` | crates/acyclic/src/server.rs:1519-1661 | for texts of complete lines: exactly the library's text lands |
| `FileMerges.ClashingEditsAreListed` | crates/acyclic-engine/src/merge.rs:521-567 | a file that both sides edited and the library finds in conflict is listed with the library's text under the names of the sides |
| `FileMerges.EditAgainstDeletionIsListed` | crates/acyclic-engine/src/merge.rs:568-600 | a file that one side edited and the other deleted is listed with one block that holds the edited text on the side that kept it |
| `FileMerges.RefusedDirectoryNamesItsChanges` | crates/acyclic-engine/src/merge.rs:601-618 | the refusal of a directory that one side removed lists exactly what the side that kept it changed beneath it, in order |
| `FileMerges.WhyRefused` | crates/acyclic-engine/src/merge.rs:519-630 | which reason a refusal has: a removed directory the other side changed in, files some of which are no text, and a clash of kinds otherwise |
| `MergeLaws.OneSidedLanding` | crates/acyclic-engine/src/merge.rs:504-515 | without a change on both sides each path follows the side that changed it |
| `MergeLaws.UnmovedMainlineTakesFork` | crates/acyclic-engine/src/merge.rs:504-515 | against an unmoved mainline only fork subtrees are taken and landing gives exactly the fork |
| `MergeLaws.IndependentForksCommute` | crates/acyclic-engine/src/merge.rs:504-515 | the plans of two forks that touch unrelated paths contest and merge nothing in either order, and both orders land the same mainline |
| `MergeLaws.PlannerIsSideSymmetric` | crates/acyclic-engine/src/merge.rs:504-628 | exchanging the sides exchanges what is taken, keeps the refused, merged and conflicted paths, and mirrors the kinds |
| `Writing.WorkTree.RestorePaths` | crates/acyclic-engine/src/rewind.rs:66-167 | restores in order and stops at the first failure, with what was written before it |
| `Writing.WorkTree.MaterializePaths` | crates/acyclic-engine/src/merge.rs:1130-1166 | writes in order and stops at the first failure, with what was written before it; a path absent on both sides is no failure |
| `Writing.MaterializingRefinesRestoring` | crates/acyclic-engine/src/merge.rs:1130-1166 | where restoring succeeds, writing through the mount gives the same tree |
| `Writing.RestoreAllIsOverlay` | crates/acyclic-engine/src/rewind.rs:66-167 | restoring unnested paths one after the other overlays their subtrees at once |
| `Writing.RestoreFails` | crates/acyclic-engine/src/rewind.rs:66-167 | restoring one path fails exactly when something else is on the way, or when neither side holds it |
| `Writing.RestoreHolds` | crates/acyclic-engine/src/rewind.rs:66-167 | a restore that succeeds leaves a well-formed tree that holds the path as the source does, with the directories on the way, and nothing else changed |
| `Writing.RestoredInOrder` | crates/acyclic-engine/src/pipeline.rs:1818-1822 | a list is restored in order, and what is after a failure is not touched |
| `Writing.MaterializeHolds` | crates/acyclic-engine/src/merge.rs:1130-1164 | so does writing the path through a mount |
| `Writing.LandingNeverFails` | crates/acyclic/src/server.rs:1648-1661 | restoring the landing paths succeeds and gives the merge |
| `Writing.RestoringFromForkRefinesBuild` | crates/acyclic/src/server.rs:1507-1547 | with no merged content the fork's snapshot serves as landing source as well as the built generation |
| `Writing.PutAllIsOverlay` | crates/acyclic-engine/src/merge.rs:782-795 | applying entries for unnested paths overlays their subtrees |
| `Writing.BuildIsOrderFree` | crates/acyclic/src/server.rs:1519-1547 | the built generation is the merge, in whatever order its entries are applied |
| `Writing.LandingPathsDoNotNest` | crates/acyclic-engine/src/merge.rs:421-426 | the landing paths do not nest and are the roots of what lands |
| `Rebasing.FilesLandOnLeaves` | crates/acyclic-engine/src/merge.rs:797-843 | writing files over leaves changes those leaves only |
| `Rebasing.RebasedHoldsMarks` | crates/acyclic/src/server.rs:1563-1590 | the rebased generation holds the marked text at every open conflict and the merge everywhere else |
| `Rebasing.RebaseReaches` | crates/acyclic/src/server.rs:1694-1733 | writing only the subtree roots of the difference makes the workspace equal to the target, and no such write fails |
| `Rebasing.RebaseGoesOn` | crates/acyclic/src/server.rs:1694-1733 | after any number of those writes the workspace is well formed and holds the written subtrees |
| `Checkouts.Checkout.Remove` | crates/acyclic-engine/src/merge.rs:938-946 | the store's removal: refused for an absent path and for a directory with entries |
| `Checkouts.Checkout.Create` | crates/acyclic-engine/src/merge.rs:954-1028 | the store's creation: refused where something is, or where the directory is missing |
| `Checkouts.Checkout.ListChildren` | crates/acyclic-engine/src/merge.rs:881-909 | the entries of one directory, each once |
| `Checkouts.Checkout.RemoveSubtree` | crates/acyclic-engine/src/merge.rs:915-949 | the stack of (path, expanded) frames removes exactly the subtree and never meets a refusal |
| `Checkouts.PoppedExpanded` | crates/acyclic-engine/src/merge.rs:926-946 | when an expanded frame is popped its directory is empty, and the rest of the stack still stands for what is left |
| `Checkouts.Expanded` | crates/acyclic-engine/src/merge.rs:926-946 | expanding a directory keeps the stack standing for what is left |
| `Checkouts.ExpandedMeasure` | crates/acyclic-engine/src/merge.rs:915-949 | expanding shrinks the set of unvisited nodes |
| `Checkouts.Checkout.EnsureParents` | crates/acyclic-engine/src/merge.rs:846-868 | creates the missing directories on the way, or changes nothing when one is blocked |
| `Checkouts.Checkout.CopyNode` | crates/acyclic-engine/src/merge.rs:954-1028 | the copy queue leaves the target with exactly the source's subtree, each parent before its children |
| `Checkouts.CopyAdvances` | crates/acyclic-engine/src/merge.rs:954-1028 | creating one node and queueing its children keeps the copy on course and leaves fewer nodes to copy |
| `Checkouts.Checkout.ApplyEntry` | crates/acyclic-engine/src/merge.rs:797-843 | replaces one path wholesale by a file or by a generation's subtree, or changes nothing when the way is blocked; exactly when that goes unnoticed |
| `Checkouts.Checkout.ApplyEntries` | crates/acyclic-engine/src/merge.rs:782-795 | applies a list of entries up to the first failure, with what was applied before it |
| `Checkouts.UnblockedEntriesApply` | crates/acyclic-engine/src/merge.rs:782-795 | a list that is blocked nowhere is applied whole, as the subtree replacements it names |
| `Checkouts.AppliedExactly` | crates/acyclic-engine/src/merge.rs:797-844 | what one entry leaves at each path, and that a blocked one changes nothing |
| `Checkouts.AppliedInOrder` | crates/acyclic-engine/src/merge.rs:782-795 | a list is applied in order, and what is after a failure is not |
| `Promotion.BuildMerged` | crates/acyclic/src/server.rs:1519-1547 | building from fork subtrees and merged files, node by node, gives the merge |
| `Promotion.BuildRebased` | crates/acyclic/src/server.rs:1563-1580 | building the markers over it gives the rebased generation |
| `Promotion.RebaseFork` | crates/acyclic/src/server.rs:1694-1733 | the workspace ends up with the content of the rebased generation, mounted or copied; a write that fails leaves every path with its old or its new content |
| `Promotion.SendBack` | crates/acyclic/src/server.rs:1563-1610 | a fork in conflict is put on the head with its conflicts marked; a rebase that fails leaves it on its base, partway, with no conflict open |
| `Promotion.LandingHalts` | crates/acyclic/src/server.rs:1648-1661 | the first paths of a landing can be restored from either source, and leave a well-formed mainline with those subtrees merged |
| `Promotion.HaltedExactly` | crates/acyclic-engine/src/pipeline.rs:1818-1822 | a landing that stops after some of its paths has landed at and beneath those, and left the mainline everywhere else |
| `Promotion.UntouchedConflictStaysOpen` | crates/acyclic/src/server.rs:1369-1403 | a rebased fork left untouched counts every conflicted path as unresolved |
| `Promotion.NothingUnresolvedExactly` | crates/acyclic/src/server.rs:1369-1403 | nothing is unresolved exactly when no conflict is open, or something is pending and no conflicted path holds an open block |
| `Promotion.UnresolvedExactly` | crates/acyclic/src/server.rs:1369-1403 | the unresolved paths: those of the open conflict, all of them while nothing is pending, and then those that hold a UTF-8 file in which some line opens a block and some line separates one |
| `Promotion.PromoteOutcomes` | crates/acyclic/src/server.rs:1519-1661 | with nothing unresolved: refused exactly for the refusals on paths that are not ignored, in conflict exactly for such conflicts when there is no such refusal, landed otherwise |
| `Promotion.FailureDecides` | crates/acyclic/src/server.rs:1209-1240 | which promotes a failing call fails; any other has the outcome it has without the failure |
| `Promotion.ConflictsNeedAMovedHead` | crates/acyclic/src/server.rs:1495-1499 | the internal error for conflicts against an unmoved mainline cannot be raised |
| `Promotion.Server.MergeOntoHead` | crates/acyclic/src/server.rs:1417-1689 | exactly which outcome a merge has, with any call that fails, and that the mainline moves only by what it lands |
| `Promotion.Server.PromoteFork` | crates/acyclic/src/server.rs:1206-1283 | the same with the marker check before it |
| `Promotion.Server.Promote` | crates/acyclic/src/server.rs:845-915 | a landed fork is consumed, a conflicting one kept rebased with its base on the head, a refused one kept; after a failure the fork is kept without its open conflict and the mainline holds what was written; other forks are untouched |
| `Promotion.Server.Land` | crates/acyclic/src/server.rs:1648-1670 | the working tree becomes the merge, or holds its first paths when a restore fails |
| `Promotion.PromoteOntoUnmoved` | crates/acyclic/src/server.rs:845-915 | judged against the present head a promote is refused exactly for unresolved paths; otherwise the mainline gets the fork's content, and nothing lands exactly when it has it |
| `Promotion.LandEdit` | crates/acyclic/src/server.rs:788-915 | a fork cut and written in while the mainline stands still lands exactly what was written, mount or copy, and nothing lands exactly when that is the mainline |
| `Promotion.ResolveAndPromote` | crates/acyclic/src/server.rs:845-915 | conflict, resolution, second promote: refused for exactly the paths still marked, otherwise the mainline is the resolution; nothing lands exactly when that is the mainline already |
| `Promotion.ResolvedForkLands` | crates/acyclic-engine/src/merge.rs:504-515 | re-planned against the head it was rebased onto, a fork contests and merges nothing, what lands is the fork, and the plan is empty exactly when that changes nothing |
| `Promotion.PromoteBoth` | crates/acyclic/src/server.rs:845-915 | two promotes of independent forks are neither refused nor in conflict, and the mainline holds what each of them changed |
| `Promotion.PromoteInBothOrders` | crates/acyclic/src/server.rs:845-915 | on two daemons in the same state, both orders end in the same mainline |
| `Retrying.NothingNewAbove` | crates/acyclic/src/server.rs:1648-1661 | above a path that has landed the mainline had been touched before |
| `Retrying.WasContested` | crates/acyclic/src/server.rs:1648-1670 | outside what has landed, a path contested on the second promote was contested on the first |
| `Retrying.StaysContested` | crates/acyclic/src/server.rs:1648-1670 | and the other way round: nothing lands beneath a contested path |
| `Retrying.ContestedWhereLanded` | crates/acyclic-engine/src/merge.rs:504-631 | what is contested where it has landed is a directory in the place of a file or a link, or a file that does not merge again |
| `Retrying.LeavesNothingContested` | crates/acyclic-engine/src/merge.rs:396-414 | dropping the ignored paths leaves nothing contested exactly when every reached contested path is ignored |
| `Retrying.MergesAgain` | crates/acyclic-engine/src/merge.rs:252-311 | a landed file whose merge repeats is compatible with the fork again |
| `Retrying.RetryFinishesExactlyWhen` | crates/acyclic/src/server.rs:887-899 | after any part of a landing, with its contested paths ignored or none, the second promote lands what the first would have exactly when each file or link turned into a directory there is ignored and each merged file merges to the same again, or is ignored and does not |
| `Retrying.WholeLandingRepeatsExactlyWhen` | crates/acyclic/src/server.rs:1648-1670 | onto an unmoved mainline, a landing that wrote everything and then failed can be finished exactly when the fork turns no file or link into a directory but where it is ignored |
| `Retrying.PromoteAgainAfterStop` | crates/acyclic/src/server.rs:845-915 | a promote that stops on the way and is made again consumes the fork with the tree of the first exactly under that condition |
| `Retrying.PromoteMarkedAfterFailure` | crates/acyclic/src/server.rs:887-899 | marked files land on the second promote exactly when the first one failed before it checked them; otherwise both are refused and nothing changes |
| `Carrying.MoveOut` | crates/acyclic-engine/src/rewind.rs:384-400 | one move keeps every carried path whole on one side and everything else in place |
| `Carrying.MoveBackOne` | crates/acyclic-engine/src/rewind.rs:405-419 | one move back does too, and brings that path home |
| `Carrying.SafeCarryKeeps` | crates/acyclic-engine/src/rewind.rs:384-400 | every state of a carry over a safe list, up to where it gets, is recoverable |
| `Carrying.CarryReaches` | crates/acyclic-engine/src/rewind.rs:384-400 | a carry gets to exactly the first uncovered path for which something in the target stands where a directory should |
| `Carrying.CarryLosesNothingExactlyWhenSafe` | crates/acyclic-engine/src/rewind.rs:384-400 | every live file is still on one side exactly when, among the paths the carry got to, none precedes a directory it lies in that nothing earlier takes along |
| `Carrying.CarryMovesAllExactlyWhenSafe` | crates/acyclic-engine/src/rewind.rs:384-400 | a carry that gets through moves every live copy, whole, exactly when the list is safe |
| `Carrying.HalfwayIsLive` | crates/acyclic-engine/src/rewind.rs:384-419 | whatever a half-way working tree holds is live, with everything above it, and of a carried path all or nothing |
| `Returning.TurnToMoveBack` | crates/acyclic-engine/src/rewind.rs:405-419 | a path that is absent when its turn comes is in the stage, whole, with nothing in its way, and its directory is there or can be made exactly when the account of what is back says so |
| `Returning.TurnTaken` | crates/acyclic-engine/src/rewind.rs:405-419 | one turn of the moves back, its directories makeable or not, its rename working or stuck, keeps that account; a path that is there is skipped |
| `Returning.ThereIsClosed` | crates/acyclic-engine/src/rewind.rs:405-419 | whatever is back has its directories there |
| `Returning.ThereExactly` | crates/acyclic-engine/src/rewind.rs:405-419 | with the directories makeable, exactly this is back: what was at home, what is made on the way to a carried path, and what lies beneath a path whose rename works and before which no path inside it is listed |
| `Returning.PlaceTaken` | crates/acyclic-engine/src/rewind.rs:405-419 | a safe list in which one stuck rename costs a path whose own rename works |
| `Carrying.UnsafeCarryLoses` | crates/acyclic-engine/src/rewind.rs:394 | in a carry that gets through, the removal of the destination deletes the copy moved before |
| `Carrying.NestedRulesLose` | crates/acyclic-engine/src/exclude.rs:66 | a concrete nested list that loses a file |
| `Carrying.UnnestedIsSafe` | crates/acyclic-engine/src/exclude.rs:45-71 | rules none of which lies beneath another are safe |
| `Rewind.Host.CarryOne` | crates/acyclic-engine/src/rewind.rs:384-400 | one carried path, with any list: exactly one move when nothing fails; killed anywhere over a safe list, still recoverable |
| `Rewind.Host.Carry` | crates/acyclic-engine/src/rewind.rs:384-400 | with any list the loop computes the specification of a carry, to its end or to where it is stopped |
| `Rewind.Host.MoveBack` | crates/acyclic-engine/src/rewind.rs:405-419 | from any half-way state the working tree is as it was, if the renames work; with any directory and any rename failing, and any list, exactly the paths that the turns bring back are there |
| `Rewind.Host.MoveOneBack` | crates/acyclic-engine/src/rewind.rs:405-419 | one turn of that, killed anywhere |
| `Rewind.Host.Exchange` | crates/acyclic-engine/src/rewind.rs:726-775 | the swap, in one step or by three renames: every state it can be killed in, and exactly the disk each failing rename leaves, a missing repository path included |
| `Rewind.Host.Park` | crates/acyclic-engine/src/rewind.rs:583-599 | the replaced tree leaves the stage or stays |
| `Rewind.Host.CarryOver` | crates/acyclic-engine/src/rewind.rs:526-549 | a carry that fails is unwound; one that succeeds leaves what the specification says staged, the restored tree if the list is safe |
| `Rewind.Host.Stage` | crates/acyclic-engine/src/rewind.rs:484-524 | what an earlier attempt left staged goes first; then the target is staged and journaled |
| `Rewind.Host.Swap` | crates/acyclic-engine/src/rewind.rs:551-568 | the journaled exchange, and exactly the disk a failed one leaves |
| `Rewind.Host.Execute` | crates/acyclic-engine/src/rewind.rs:466-576 | however far a rewind started over nothing gets, recovery leads to the old tree or to the restored one; run to its end, from any start and with any list, it keeps every live copy exactly when the list is safe; with the repository path missing it fails, over a cleared stage |
| `Rewind.LiveRulesExactly` | crates/acyclic-engine/src/rewind.rs:526-530 | the carried list holds the rules whose paths are live, and no other, in the order of the rules |
| `Rewind.RestoredIsRewound` | crates/acyclic-engine/src/rewind.rs:466-576 | the restored tree, without the list: what lies under a live rule is as it was, directories lead to it, everything else is the target's; every live excluded path is there |
| `Rewind.Host.Unwind` | crates/acyclic-engine/src/rewind.rs:616-641 | the branch of recovery that gives the carried paths back and drops the stage, and exactly what failed moves back cost, for any safe list |
| `Rewind.Host.Recover` | crates/acyclic-engine/src/rewind.rs:603-652 | recovery, itself killed anywhere, stays on its course; with the time it needs it finishes and leaves no journal and no staged tree; exactly what failed moves back leave of the live tree, for any safe list |
| `Rewind.NoLiveCopyIsLost` | crates/acyclic-engine/src/rewind.rs:384-419 | in every state on either course each carried path is whole in the working tree, or gone from it and whole in the stage: exactly one of the two |
| `Rewind.StuckCopies` | crates/acyclic-engine/src/rewind.rs:405-419 | a live copy survives stuck renames exactly when each of its paths ends at home; of an unnested list, exactly when it was at home or its rename works |
| `Rewind.RewindThroughCrashes` | crates/acyclic-engine/src/rewind.rs:466-652 | a rewind killed anywhere, recoveries killed anywhere, one with the time it needs: exactly the old tree or exactly the target with the carried files, and no stage but one that was never journaled; undisturbed, the target |
| `Rewind.RecoverThroughCrashes` | crates/acyclic-engine/src/rewind.rs:603-652 | from any journaled disk, recoveries killed anywhere and one with the time it needs end as that one alone: the disk decides between the old and the new tree, the stage goes, the scratch name too |
| `Rewind.RewindAfterFailedExchange` | crates/acyclic-engine/src/rewind.rs:482-562 | after an exchange that failed, at once or by three renames, every carried file is in the stage; the first step of the next rewind of the same daemon removes it, so it is kept exactly when recovery ran first or the new target holds it |
| `Rewind.RewindOverVacatedSwap` | crates/acyclic-engine/src/rewind.rs:482-762 | after a swap that left the repository path missing, a recovery finishes it with every carried file; another rewind of the same daemon before it leaves nothing but its own target |
| `Rewind.SwapFailedHeads` | crates/acyclic-engine/src/rewind.rs:726-762 | the disk a failed exchange leaves leads to the old tree, or, vacated, to the restored one |
| `Rewind.OneFileIsEnough` | crates/acyclic-engine/src/rewind.rs:484-562 | the smallest such disk: one excluded file, in the stage and nowhere else |
| `Rewind.RecoverWithStuckRenames` | crates/acyclic-engine/src/rewind.rs:405-419 | a recovery in which renames back fail goes on: exactly which paths of the live tree are left, for any safe list, and of an unnested one exactly the files whose rename failed are lost |
| `Rewind.ClearingTheStageLosesNothingExactlyWhen` | crates/acyclic-engine/src/rewind.rs:484-490 | in general, clearing a leftover stage keeps every live copy exactly when each is in the working tree |
| `Exclude.ParseOne` | crates/acyclic-engine/src/exclude.rs:45-71 | what one rule means, and the two ways it is refused |
| `Exclude.Parse` | crates/acyclic-engine/src/exclude.rs:45-71 | accepted exactly when every rule is; the result holds each meaning once |
| `Exclude.NamesJoin` | crates/acyclic-engine/src/exclude.rs:45-58 | the names of a rule stand in the order of its components |
| `Exclude.PlainNames` | crates/acyclic-engine/src/exclude.rs:45-58 | a rule of plain names is those names |
| `Exclude.DotsDoNotCount` | crates/acyclic-engine/src/exclude.rs:45-58 | `.` does not count, wherever it stands |
| `Exclude.NoNames` | crates/acyclic-engine/src/exclude.rs:59-63 | a rule means the whole repository exactly when it has no plain name |
| `Exclude.ExcludedExactly` | crates/acyclic-engine/src/exclude.rs:86-129 | a path is excluded exactly when a rule is it or above it, and above a rule exactly when a rule goes on from it |
| `Exclude.FilterBatch` | crates/acyclic-engine/src/exclude.rs:131-184 | keeps exactly the uncovered paths of the batch as hints, and asks for a scrub exactly when a kept hint lies above a rule |
| `Exclude.FilteredCaptureIsStripped` | crates/acyclic-engine/src/pipeline.rs:1424-1462 | filter, capture, scrub when asked: the same as capturing the whole batch and stripping the excluded paths |
| `Exclude.StripRootHints` | crates/acyclic-engine/src/pipeline.rs:675-722 | drops exactly the hints about the root and reports the gravest |
| `Exclude.StrippedHints` | crates/acyclic-engine/src/pipeline.rs:675-722 | without a structural hint the paths to re-read stay the same, the root apart |
| `Exclude.RemoveContents` | crates/acyclic-engine/src/exclude.rs:221-265 | empties a directory, deepest first, and touches nothing else |
| `Exclude.Scrub` | crates/acyclic-engine/src/exclude.rs:188-216 | removes exactly the covered paths; the count is zero exactly when there were none |
| `Exclude.ScrubbedIsWellFormed` | crates/acyclic-engine/src/exclude.rs:188-216 | scrubbing keeps the checkout well formed |
| `Exclude.RestoreAroundExcluded` | crates/acyclic-engine/src/rewind.rs:93-160 | an excluded live file is untouched by restoring a list of paths, or gone because one of them lies above it |
| `Exclude.RestoringKeepsExcludedExactlyWhen` | crates/acyclic-engine/src/pipeline.rs:1779-1787 | restoring paths that name no rule keeps every live excluded file exactly when none lies beneath a restored path |
| `Serving.KeptIsNews` | crates/acyclic-engine/src/pipeline.rs:1424-1468 | the filter keeps something exactly when the batch has a hint that may be recorded |
| `Watching.RecordableExactly` | crates/acyclic-engine/src/exclude.rs:131-184 | a path is read again exactly when a change that is not about the root mentions it and no rule covers it |
| `Watching.RebuildsExactly` | crates/acyclic-engine/src/pipeline.rs:1424-1468 | an answer asks for a rescan exactly when it invalidates everything or something but metadata changed about the root |
| `Watching.TakenExactly` | crates/acyclic-engine/src/pipeline.rs:1424-1493 | what a batch leaves at each path of a clean checkout: the working tree where it is read again, nothing where it is excluded, what was there elsewhere |
| `Watching.RescannedExactly` | crates/acyclic-engine/src/pipeline.rs:939-992 | what a rescan leaves at each path, with the changes that raced it |
| `Watching.LastReadingWins` | crates/acyclic-engine/src/pipeline.rs:1402-1494 | after a drain a path outside the rules is as the last answer found it that had it read again, and as it was if none had |
| `Serving.TakenIsStripped` | crates/acyclic-engine/src/pipeline.rs:1424-1459 | filter, capture, scrub when asked leaves every recordable hinted path re-read; in a clean checkout that is the whole batch re-read and stripped |
| `Serving.NothingTaken` | crates/acyclic-engine/src/pipeline.rs:1424-1468 | skipping a batch without news loses nothing, whatever the checkout holds |
| `Serving.QuietChangesNothing` | crates/acyclic-engine/src/pipeline.rs:1402-1494 | a watcher with nothing to say leaves the checkout as it was |
| `Serving.CleanExactlyWhenGuestsAre` | crates/acyclic-engine/src/pipeline.rs:1361-1365 | every recorded generation is clean exactly when each of those handed in is |
| `Pipelines.Pipeline.Record` | crates/acyclic-engine/src/pipeline.rs:1361-1365 | adds exactly one row, which becomes the last generation, or nothing when the call fails |
| `Pipelines.Pipeline.RecordHanded` | crates/acyclic-engine/src/pipeline.rs:1102-1123 | records a generation that was handed in, as the last one only for a session that lands |
| `Pipelines.Pipeline.Snapshot` | crates/acyclic-engine/src/pipeline.rs:1510-1518 | records the checkout |
| `Pipelines.Pipeline.CaptureBatch` | crates/acyclic-engine/src/pipeline.rs:1444-1459 | capturing a filtered batch equals capturing the batch and stripping it |
| `Pipelines.Pipeline.FoldTail` | crates/acyclic-engine/src/pipeline.rs:965-992 | folds what raced a rescan into the checkout, after the row was written |
| `Pipelines.Pipeline.Rebaseline` | crates/acyclic-engine/src/pipeline.rs:932-1014 | published, rescanned, recorded, the tail folded in, published again: exactly that when the calls it makes succeed, and not otherwise |
| `Pipelines.NeedsRebuild` | crates/acyclic-engine/src/pipeline.rs:1416-1436 | exactly which answers of the watcher ask for a fresh one |
| `Pipelines.Pipeline.TakeBatch` | crates/acyclic-engine/src/pipeline.rs:1424-1459 | filtering and capturing a batch leaves the whole batch captured and stripped |
| `Pipelines.Pipeline.DrainOne` | crates/acyclic-engine/src/pipeline.rs:1412-1493 | one answer of the watcher, with the call that may fail: exactly what it leaves, a capture or scrub cut short included |
| `Pipelines.Pipeline.Drain` | crates/acyclic-engine/src/pipeline.rs:1402-1494 | exactly what a drain leaves, how many calls it makes, and what one cut short in a capture or a scrub leaves |
| `Pipelines.Pipeline.MakeReady` | crates/acyclic-engine/src/pipeline.rs:1336-1347 | a rescan exactly when the pipeline is not ready |
| `Pipelines.Pipeline.DrainPending` | crates/acyclic-engine/src/pipeline.rs:1348-1353 | whether there is something to record: news, or what a marker stands for; a drain that breaks leaves what it captured and drops any other marker |
| `Pipelines.Pipeline.DrainAndSnapshot` | crates/acyclic-engine/src/pipeline.rs:1885-1906 | a row that holds the drained checkout; a drain that breaks leaves what it captured and no row |
| `Pipelines.Pipeline.RecordDrained` | crates/acyclic-engine/src/pipeline.rs:1354-1372 | a snapshot row that clears the marker, or a noop row |
| `Pipelines.Pipeline.CheckpointReady` | crates/acyclic-engine/src/pipeline.rs:1348-1381 | the same once the pipeline is ready |
| `Pipelines.Pipeline.Checkpoint` | crates/acyclic-engine/src/pipeline.rs:1310-1397 | exactly what a checkpoint leaves when every call works; nothing is hidden that was not lost before, whatever fails; and exactly what a failing snapshot or row, or a drain cut short, leaves |
| `Pipelines.Pipeline.HandleCheckpoint` | crates/acyclic-engine/src/pipeline.rs:1024-1047 | the same with the row a failed checkpoint leaves for the last generation |
| `Pipelines.Pipeline.PublishHead` | crates/acyclic-engine/src/pipeline.rs:1885-1906 | exactly: a row for the drained checkout; without effect while not ready; what a broken drain captured, without a row |
| `Pipelines.Pipeline.SafetyRow` | crates/acyclic-engine/src/pipeline.rs:1795-1817 | exactly: a row when there is something to lose, after which the last generation is the checkout |
| `Pipelines.Pipeline.PrepareRestore` | crates/acyclic-engine/src/pipeline.rs:1786-1817 | a ready pipeline, with what is about to be overwritten recorded when asked for |
| `Pipelines.Pipeline.FinishRestore` | crates/acyclic-engine/src/pipeline.rs:1840-1878 | exactly: what was written captured, or the watcher drained, and the row that holds it |
| `Pipelines.Pipeline.CaptureRestored` | crates/acyclic-engine/src/pipeline.rs:1727-1763 | one hint at each written path and once at each of their directories; the checkout then holds them re-read and stripped |
| `Pipelines.Pipeline.RestorePaths` | crates/acyclic-engine/src/pipeline.rs:1767-1878 | refused without effect for excluded paths and while shadowed; otherwise exactly the safety row, the writes and the row after them |
| `Pipelines.Pipeline.Rewind` | crates/acyclic-engine/src/pipeline.rs:1667-1699 | exactly: the drained state recorded and published, and a fresh baseline of what the swap left, whose error is reported after that |
| `Pipelines.Pipeline.TryAutoCheckpoint` | crates/acyclic-engine/src/pipeline.rs:1639-1665 | an automatic row only for a tree that differs from the last row's |
| `Pipelines.Pipeline.DrainAndMark` | crates/acyclic-engine/src/pipeline.rs:1592-1608 | exactly what an idle tick drains and marks; after a drain that fails half way the marker is there |
| `Pipelines.Pipeline.RecordWhenQuiet` | crates/acyclic-engine/src/pipeline.rs:1609-1621 | once quiet, what is marked is recorded |
| `Pipelines.Pipeline.AutoCheckpoint` | crates/acyclic-engine/src/pipeline.rs:1574-1622 | keeps everything captured in sight; after a quiet tick it is recorded |
| `Pipelines.Pipeline.Tick` | crates/acyclic-engine/src/pipeline.rs:1556-1622 | exactly what an idle tick does; it hides nothing, whatever fails in it |
| `Pipelines.Pipeline.ResolveSession` | crates/acyclic-engine/src/pipeline.rs:2106-2166 | exactly: the safety row of a session, from the untouched checkout after a shadow and from the drained one otherwise |
| `Pipelines.Pipeline.ApplySession` | crates/acyclic-engine/src/pipeline.rs:2171-2230 | exactly: lands a session whose base is still what is published, recording its generation as it is; otherwise only puts the checkout back to what is published |
| `Pipelines.Pipeline.Promote` | crates/acyclic-engine/src/pipeline.rs:2002-2098 | exactly: the drained state recorded and published, the overlay published if it holds anything and nothing came between, and its generation landed |
| `Pipelines.Pipeline.Handle` | crates/acyclic-engine/src/pipeline.rs:1021-1306 | every request keeps the invariants and, with no failing call, does exactly what its specification says and answers so; with one, rows are only added, a row over lost work is written only by a checkpoint that finds it lost, and nothing excluded gets in but what the failing call leaves |
| `Serving.HiddenIsLost` | crates/acyclic-engine/src/pipeline.rs:1348-1371 | only a request that leaves something out of sight writes a row over it |
| `Serving.SettledHidesNothing` | crates/acyclic-engine/src/pipeline.rs:1021-1306 | a condition on the request alone, undisturbed rescans and an unbroken watcher, under which it hides nothing in whatever state nothing is lost |
| `Pipelines.Start` | crates/acyclic-engine/src/pipeline.rs:883-928 | a started pipeline: ready on the rescanned tree, with its one row and what raced the rescan captured |
| `Pipelines.Run` | crates/acyclic-engine/src/pipeline.rs:791-836 | over any run: the states are those of a run of the specification, from the started pipeline to the final one; automatic rows are news; the recorded generations hold no excluded path exactly when those handed in hold none, unless a failing capture or scrub left one or an overlay with one was promoted whole |
| `Pipelines.FailedSnapshotThenQuietCheckpoint` | crates/acyclic-engine/src/pipeline.rs:1353-1371 | in any state, a checkpoint whose snapshot or row fails after the drain, and a quiet one after it: hidden exactly when the drain left work that no marker names |
| `Pipelines.CutShortThenCheckpoint` | crates/acyclic-engine/src/pipeline.rs:1412-1493 | a checkpoint cut short in a capture or a scrub, and one after it: an excluded path is recorded exactly when the cut left one, there is something to record, and no answer asks for a scrub by then |
| `Serving.ServedHides` | crates/acyclic-engine/src/pipeline.rs:1021-1306 | from a state in which nothing is lost, what each request does leaves captured work out of sight exactly when the request is one that hides there |
| `Serving.ServedWrites` | crates/acyclic-engine/src/pipeline.rs:1021-1306 | in any state, each request only adds rows, and one of them hides captured work exactly when the request is a quiet checkpoint that finds some lost |
| `Serving.RunIsDetermined` | crates/acyclic-engine/src/pipeline.rs:791-836 | with no failing call the requests alone decide every state of a run |
| `Serving.RunHidesExactlyWhen` | crates/acyclic-engine/src/pipeline.rs:791-836 | over any run no row hides captured work unless some request finds it lost and writes one over it, and with no failing call exactly then |
| `Serving.NothingHides` | crates/acyclic-engine/src/pipeline.rs:791-836 | as long as no request of a run leaves anything out of sight, no row hides anything and nothing is lost at the end |
| `Serving.SettledRunsHideNothing` | crates/acyclic-engine/src/pipeline.rs:791-836 | the same under a condition on the requests alone |
| `Serving.QuietTickRecords` | crates/acyclic-engine/src/pipeline.rs:1574-1622 | a quiet idle tick records what it drained |
| `Serving.TakenIsClean` | crates/acyclic-engine/src/exclude.rs:131-184 | a filtered batch neither brings an excluded path into the checkout nor takes one out, but by a scrub |
| `Serving.DrainedIsClean` | crates/acyclic-engine/src/pipeline.rs:1402-1494 | after a drain the checkout is clean exactly when it was, or an answer rescans or asks for a scrub |
| `Serving.DebrisIsRecorded` | crates/acyclic-engine/src/pipeline.rs:1348-1371 | the value form of the cut-short theorem, for any debris |
| `Serving.RestoreRecordsPaths` | crates/acyclic-engine/src/pipeline.rs:1840-1878 | what a restore wrote is in the row it leaves |
| `Serving.RestoreKeepsOverwritten` | crates/acyclic-engine/src/pipeline.rs:1795-1817 | with the safety row asked for, what a restore overwrote is on the timeline, unless it was lost before |
| `Serving.RewindKeepsState` | crates/acyclic-engine/src/pipeline.rs:1667-1699 | the state before the swap of a rewind is on the timeline |
| `Requests.ReadingRescans` | crates/acyclic-engine/src/pipeline.rs:1402-1494 | a drain that gets to an answer that asks for a rescan leaves what that rescan does: one row, published, whatever was read before |
| `Requests.ReadingHolds` | crates/acyclic-engine/src/pipeline.rs:1402-1494 | any other drain changes the checkout and nothing else |
| `Requests.CommitPublishes` | crates/acyclic-engine/src/pipeline.rs:1048-1051 | a commit publishes the checkout, and nothing else changes |
| `Requests.CommitThenApplyLands` | crates/acyclic-engine/src/pipeline.rs:2171-2230 | a session cut from what a commit published lands |
| `Requests.ApplyLandsExactlyWhenPublished` | crates/acyclic-engine/src/pipeline.rs:2177-2202 | without the commit it lands exactly when the checkout was published before |
| `Requests.CheckpointRecords` | crates/acyclic-engine/src/pipeline.rs:1348-1379 | the row of a checkpoint, what the next one starts from, and whether it publishes |
| `Requests.CountStaysBelow` | crates/acyclic-engine/src/pipeline.rs:1372-1379 | after any checkpoint that got through fewer rows than are due for it stay unpublished |
| `Requests.CheckpointsPublish` | crates/acyclic-engine/src/pipeline.rs:1372-1379 | as many checkpoints in a row as are due for it publish on the way |
| `Requests.CheckpointRecordsWhatWasRead` | crates/acyclic-engine/src/pipeline.rs:1348-1371 | the generation a checkpoint records holds at each path outside the rules what the last answer found that had it read again |
| `Requests.HeadIsRecorded` | crates/acyclic-engine/src/pipeline.rs:1885-1966 | a published head and a cut fork record what was drained and count the row, and publish nothing |
| `Requests.HandedInLeaves` | crates/acyclic-engine/src/pipeline.rs:1102-1130 | a generation that is handed in gets a row that the pipeline does not take for its own |
| `Requests.RestoreSafely` | crates/acyclic-engine/src/pipeline.rs:1795-1817 | the safety row of a restore, and that the restore goes on from there unless the watcher broke |
| `Requests.RestoreRecords` | crates/acyclic-engine/src/pipeline.rs:1840-1878 | what a restore wrote, with the directories it wrote in, is read and recorded; when the writes fail nothing is |
| `Requests.RewindRecords` | crates/acyclic-engine/src/pipeline.rs:1667-1699 | a rewind: the drained state is a row of its own, what is found after the swap is recorded and published |
| `Requests.ResolveRecords` | crates/acyclic-engine/src/pipeline.rs:2106-2166 | the safety row of a session, under a shadow and without |
| `Requests.ApplyLeaves` | crates/acyclic-engine/src/pipeline.rs:2171-2230 | an apply lands its generation, or puts the checkout back to what is published and records nothing |
| `Requests.PromoteRecords` | crates/acyclic-engine/src/pipeline.rs:2002-2098 | a promote records and publishes what it drained, and lands its generation when that is still its base |
| `Requests.TickPublishes` | crates/acyclic-engine/src/pipeline.rs:1556-1573 | an idle tick publishes what is waiting |
| `Requests.TickRecords` | crates/acyclic-engine/src/pipeline.rs:1574-1622 | news marks the last generation, a marked one gets an automatic row once it is quiet and differs, and any other marker is dropped |
| `Requests.CheckpointSays` | crates/acyclic-engine/src/pipeline.rs:1021-1047 | a checkpoint says yes exactly when its row is not that of a failure |
| `Requests.RecordingSays` | crates/acyclic-engine/src/pipeline.rs:1021-1306 | any other request that records the working tree says yes exactly when it added a row for it |
| `Requests.SwapsSay` | crates/acyclic-engine/src/pipeline.rs:1667-1699 | a rewind, and a promote that lands its generation, say no when the watcher broke or the swap failed |
| `Requests.HeadMoves` | crates/acyclic-engine/src/pipeline.rs:1021-1306 | what a request publishes: what its checkout then holds, or on the way what its own rescans read and an idle checkout held |
| `Requests.RunPublishes` | crates/acyclic-engine/src/pipeline.rs:791-836 | so over any run in which nothing fails |
| `RewindRecords.RestoredIsRecorded` | crates/acyclic-engine/src/rewind.rs:526-549 | what is recorded of a restored tree is the target, with the directories on the way to the carried files |
| `RewindRecords.RecordsTargetExactlyWhen` | crates/acyclic-engine/src/pipeline.rs:1667-1699 | a rewind records its target again exactly when every directory on the way to a carried file is in it |
| `RewindRecords.RewindUndisturbed` | crates/acyclic-engine/src/pipeline.rs:1667-1699 | pipeline and swap together: the tree as it was is on the timeline, the last generation is the target with those directories, and every excluded live file is where it was |
| `Serving.QuietCheckpoint` | crates/acyclic-engine/src/pipeline.rs:1336-1371 | in any state, a quiet checkpoint hides captured work exactly when that is lost once the pipeline is ready |
| `Serving.FirstQuietCheckpoint` | crates/acyclic-engine/src/pipeline.rs:965-992 | the first quiet checkpoint after a start hides something exactly when a change that matters raced the first rescan |
| `Serving.RequestThenQuietCheckpoint` | crates/acyclic-engine/src/pipeline.rs:1021-1306 | any request from a sound state, then a quiet checkpoint: that hides captured work exactly when the request is one that hides |
| `Serving.BrokenThenQuietCheckpoint` | crates/acyclic-engine/src/pipeline.rs:1348-1371 | in any state, a checkpoint under which the watcher breaks and a quiet one after it: hidden exactly when what was drained differs from the last generation and no marker names that |
| `Serving.ConflictingApplyThenQuietCheckpoint` | crates/acyclic-engine/src/pipeline.rs:2177-2202 | in any state, after an apply whose base was overtaken: hidden exactly when the last generation is not what is published and no marker names it |
| `Serving.LandedSessionIsRecorded` | crates/acyclic-engine/src/pipeline.rs:2203-2213 | a landed session is recorded as it is |
| `Serving.SessionMayHoldExcluded` | crates/acyclic-engine/src/pipeline.rs:2153-2164 | such a generation with an excluded path in it |
| `Serving.HidingHappens` | crates/acyclic-engine/src/pipeline.rs:965-992 | concrete inputs for the first two families |
| `SpecCache.SpecStore.NextId` | crates/acyclic-engine/src/spec.rs:291-293 | the next row id is one past the greatest in use, so ids of deleted rows come back |
| `SpecCache.SpecStore.Begin` | crates/acyclic-engine/src/spec.rs:333-377 | refused exactly when the key is running or ready; otherwise failed attempts go and a running row comes |
| `SpecCache.RunsEndOnce` | crates/acyclic-engine/src/spec.rs:382-403 | a row moves out of running once, no other row changes, and a body is stored exactly on success |
| `SpecCache.SpecStore.Claim` | crates/acyclic-engine/src/spec.rs:407-441 | serves a ready row of exactly that key and counts the claim |
| `SpecCache.SweepFreesKeys` | crates/acyclic-engine/src/spec.rs:468-475 | after a sweep exactly the answered keys are held, and claims find what they found before |
| `SpecCache.AskAfterRestart` | crates/acyclic/src/speculate.rs:380 | after a restart no key is stuck: it is answered, with its own answer, or the attempt gets a run |
| `SpecCache.SpecStore.Gc` | crates/acyclic-engine/src/spec.rs:481-497 | keeps every running row, drops what is past its time, keeps at most the given number of finished rows, the newest |
| `SpecCache.OneTrimmed` | crates/acyclic-engine/src/spec.rs:481-497 | removing the oldest finished row keeps the trim fair |
| `SpecCache.RunsStayApart` | crates/acyclic-engine/src/spec.rs:327-333 | no key has two runs in flight and no id two keys |
| `SpecCache.NewRunsAreFresh` | crates/acyclic-engine/src/spec.rs:333-377 | a new run's id and key belong to no run in flight |
| `SpecCache.StepKeepsInv` | crates/acyclic-engine/src/spec.rs:333-497 | every statement keeps the invariant: a sweep when nothing is in flight, a late report when the row of its id is not taken over |
| `SpecCache.HarmlessExactlyWhenKept` | crates/acyclic-engine/src/spec.rs:382-475 | those two conditions are exact |
| `SpecCache.LateReportAnswersAnotherKey` | crates/acyclic-engine/src/spec.rs:382-403 | a cancelled run, its row collected, its id given to another key: a late report answers that key |
| `SpecCache.ClaimsAreAnswers` | crates/acyclic-engine/src/spec.rs:405-441 | over any run a claim returns nothing or the answer for its key |
| `SpecCache.SweptRunAnswersAnotherKey` | crates/acyclic-engine/src/spec.rs:465-475 | from any state with a run in flight, a sweep lets its answer be served for another key |
| `SpecCache.SweepIsSafeExactlyWhenIdle` | crates/acyclic-engine/src/spec.rs:465-475 | a sweep leaves every later claim right exactly when nothing is in flight |
| `SpecCache.EndingDecidesTheClaim` | crates/acyclic-engine/src/spec.rs:379-441 | a stored answer is served unchanged to its key; any other ending serves nothing and frees the key |
| `SpecCache.EndedRowSays` | crates/acyclic-engine/src/spec.rs:382-403 | what the row of an ended run says, for each way to end |
| `SpecCache.ClaimIsCounted` | crates/acyclic-engine/src/spec.rs:407-441 | a claim counts one use of one row, notes when, serves its body and leaves everything else |
| `SpecCache.BeginLeavesTheRest` | crates/acyclic-engine/src/spec.rs:333-377 | an attempt leaves every row of another key and each one that holds its own; its row is running since now and empty |
| `SpecCache.FinishedRunIsKept` | crates/acyclic-engine/src/spec.rs:481-497 | a run that has ended outlives every collection that looks no further ahead than its start, while the table is not over its size |
| `SpecCache.NewerOutliveOlder` | crates/acyclic-engine/src/spec.rs:481-497 | of two ended runs the one that began later is never collected alone |
| `SpecCache.CollectsNoMoreThanNeeded` | crates/acyclic-engine/src/spec.rs:481-497 | as many ended runs stay as are in time, or as the table may hold |
| `Diffs.ListPage` | crates/acyclic-engine/src/diff.rs:139-149 | the store's paged listing: the next entries in order, and whether any are left |
| `Diffs.PageAdvances` | crates/acyclic-engine/src/diff.rs:137-176 | after a page exactly the entries up to its last one are read, and at the end all of them |
| `Diffs.WalkDirectory` | crates/acyclic-engine/src/diff.rs:134-176 | reads every entry of a directory and queues each of its subdirectories once |
| `Diffs.QueueAdvances` | crates/acyclic-engine/src/diff.rs:131-178 | the directories found are those read and, once each, those queued |
| `Diffs.Walk` | crates/acyclic-engine/src/diff.rs:124-180 | the walk terminates with exactly the generation |
| `Diffs.Diff` | crates/acyclic-engine/src/diff.rs:53-104 | every change outside `.git`, once, in path order, and nothing else |
| `Diffs.EmptyDiffExactly` | crates/acyclic-engine/src/diff.rs:53-104 | the list is empty exactly when the generations agree outside `.git` |
| `Diffs.ListedOnce` | crates/acyclic-engine/src/diff.rs:66-104 | a path is listed exactly when it is outside `.git` and its records differ, and then by one change |
| `Diffs.ChangesSayWhatHappened` | crates/acyclic-engine/src/diff.rs:66-95 | a listed change says what happened: added, removed, metadata only or modified, with the kind of the newer record, or of the last one |
| `Diffs.ContentChangesAreChanged` | crates/acyclic/src/server.rs:2175-2182 | without metadata changes the list names exactly the paths a merge plan starts from |
| `Diffs.DiffMirrors` | crates/acyclic-engine/src/diff.rs:53-104 | the difference the other way is the same list with additions and removals exchanged |
| `Diffs.ListedRecordsSuffice` | crates/acyclic-engine/src/diff.rs:53-104 | carrying over the listed records turns one generation into the other outside `.git` |

## Left out

- File modes, times and other metadata in merging, landing and rewinding: the planner ignores them. `Diffs.dfy` has them as one opaque value.
- Everything under the root `.git` in the merge: the planner filters it out, and the theorems say that it keeps the mainline.
- Special node kinds: the copy reports an error for them, and the model's trees do not hold them.
- Landing paths under an exclude rule: the pipeline refuses them (`Pipelines.Pipeline.RestorePaths`), and the promote model has no rules.
- The text-merge library, the object store, SQLite, git, the watcher and the operating system: stated as parameters, single statements or single steps.
- Promotion.Server.Promote: a write of one path either happens or does not. A mounted workspace is written without a staged sibling, so that a failure inside one path can leave part of it.
- Writing.WorkTree.RestorePaths: one path is replaced in one step; the staged sibling that makes this so in the source, and symbolic links among the ancestors, are not modelled.
- Checkouts.Checkout.ListChildren: pages are not modelled here; `Diffs.WalkDirectory` shows how a paged listing is read.
- Rewind.Host.MoveBack: with the repository path missing it does nothing, a case recovery meets only when there is no stage either.
- Rewind.Host.RenameOut: a rename replaces a leaf by a leaf or an empty directory by a directory, as on Unix.
- Rewind.RewindThroughCrashes: a kill between the creation of the staged directory and the first journal leaves that directory behind until the next rewind clears it; the claim about the stage is for journaled states.
- The trash beyond taking the replaced tree away, its pruning, and the fallback to a sibling directory.
- Exclude.ParseOne: trimming blanks and trailing slashes and splitting a rule into components come before the model.
- Exclude.FilteredCaptureIsStripped: a capture re-reads each hinted subtree. The engine re-reads less for a metadata hint and expects a hint per descendant of a replaced directory.
- Requests.RestoreRecords: the directories a restore wrote in are read whole, where the engine reads only their own metadata.
- Pipelines.Pipeline.Drain: the quiesce window, its cap and the sleeps are the `settled` flags of the answers; answers that run out count as quiet.
- Pipelines.Pipeline.PublishHead: cutting a fork records its base in the same way (crates/acyclic-engine/src/pipeline.rs:1947-1997); the overlay checkout it returns is not modelled.
- Pipelines.Pipeline.Rewind: the swap itself is `Rewind.Host.Execute`; the pipeline sees its effect as the next rescan and whether it succeeded, and `RewindRecords.RewindUndisturbed` puts the two together for a rewind that nothing disturbs.
- Pipelines.Pipeline.ResolveSession: the overlay's own snapshot is not modelled.
- Pipelines.Run: the published flag of a row is not modelled. Noop rows written while a session shadows the repository make no claim. With a failing call, what a request leaves is exact for a checkpoint that fails at its row or within a batch (`Pipelines.Pipeline.HandleCheckpoint`); for others the run says what they do to the timeline and what they cannot lose or let in.
- SpecCache.SpecStore.NextId: the wrap at the greatest 64-bit row id.
- SpecCache.SpecStore.Claim: saturation of the lead time in milliseconds.
- The log and metrics of the cache, its scheduler and rate limits.
- Configuration, JSON and TOML handling, text rendering, hooks, IPC and the command line.
