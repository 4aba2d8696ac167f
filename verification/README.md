# tk, verified

tk keeps tickets as Markdown files and repairs, merges, ranks, caches and locks them with
deterministic procedures. This project is a Dafny model of those procedures and of the laws
they are there for. `dafny verify dfyconfig.toml` checks all of it.

| modules | part of tk |
|---|---|
| `Lex`, `Results`, `Sorting`, `Numerals`, `Graphs`, `Reachability`, `Lines` | shared ground: string order, stable sorting, fixed-width digit runs, finite graphs, text as lines |
| `RankKeys`, `KeyChoice`, `Respacing` | fractional rank keys and their re-spacing |
| `ShortIds`, `Collision`, `CollisionRepair`, `CrashRecovery`, `CrashExamples`, `RunRecovery`, `RunExamples`, `Survival` | duplicate-id repair, of one collision and of all those of a scope, as a file-system state machine that may stop after any write or remove |
| `Statuses`, `Merge`, `MergeLaws`, `MergeChoice` | three-way frontmatter merge |
| `Cache` | the derived index as a cache of the files |
| `Scheduler`, `GateLoading`, `SchedulerProgress` | the next-ticket scheduler |
| `Ranks`, `DependsGraph`, `Forest`, `ForestRoots` | the depends-graph algorithms |
| `Fences`, `Headings`, `BodyEdit` | fence and heading splitting, and splicing |
| `Locks` | the lock protocol |

Byte strings are sequences of integers, ordered as Go orders strings. Rank keys and short ids
are written in digit indexes; `RankKeys.EncodingKeepsOrder` and `ShortIds.ShortBytes` relate
these to ASCII. The text of `Lines`, `Fences`, `Headings` and `BodyEdit` is `string`. YAML decoding and
encoding, SHA-256, RFC 3339 instants and file stats are parameters, with the assumptions
they need named where they are used (`Injective`, `Sane`).

## Findings

- Rank keys: the two `ErrExhausted` returns of `KeyBetween` outside bound validation cannot be
  reached. Re-spacing can still fail, and `Respacing.EqualOrderFailsExactly` says exactly when;
  `Respacing.TiedBehindSmallest` has three rows on which it does.
- Crash recovery of duplicate-id repair needs one condition beyond distinct contents: moving a
  loser must not free an id (held only by its file name) that comes before the last id planned.
  `CrashRecovery.RecoversFromAnyCrashes` holds under it, and
  `CrashRecovery.UnsteadyDoesNotRecover` shows that without it a stopped run is continued to
  different files. `CrashExamples` has an input of each kind.
- A repair run over several collisions recovers from every history of stops if and only if each of
  its collisions meets that condition with the names that the earlier ones free counted in
  (`RunRecovery.RunRecoversExactly`). `RunExamples.TwoDoNotRecover` has two collisions that would
  each recover alone, and together do not.
- A run that does not recover still loses nothing: under no condition but that the files sharing an id
  can be read, every ticket's text stays on disk through any history of stopped runs
  (`Survival.NothingIsLost` for one collision, `Survival.RunsLoseNothing` for all).
- The index is not sound when a write-through looks at a file in the very clock tick in which the
  file was stamped, a pass that began later is committed, and only then the row is stored.
  `Cache.StoreBreaksExactly` is an if-and-only-if; every other store is sound, overtaken or not.
- A pass during which nothing is edited may still end with a wrong row, in two ways. A write-through
  that found no file, and deletes the row only after the file was written again and indexed, may leave
  the file without a row: exactly when, as the pass begins, that delete is pending and the pass would
  skip the file (`Cache.FreshExactly`, and `Cache.RewrittenFileLosesRow` for the run). A write-through
  that read a file which was then deleted may leave a row without a file: exactly when, as the pass
  begins, it may still store in time and there is no row (`Cache.DeletedFileKeepsRow` for the runs).
  Otherwise every such pass ends in a full reparse (`Cache.ReparseExactly`).
- A scope's queue may be non-empty and yield no pick: exactly when every open ticket of the scope is
  held, through open tickets of the scope, by an open ticket of another scope
  (`SchedulerProgress.PickExistsExactly`, and `SchedulerProgress.OtherScopeHolds` for an input).
- Splicing the parts read from a file is the identity exactly when the body has newlines only and one
  at its end, its first heading is written `# ` and the heading's text, and that text does not itself
  read as a heading (`BodyEdit.SpliceOwnExactly`). A pasted `# # a` loses one `#` each time
  (`Headings.NormalizingIsNotIdempotent`), and a lead with a heading of its own, such as `#  a`, takes
  the title's place (`BodyEdit.HeadingInLead`).
- Locking is free of deadlock exactly when the names of one directory stand together in name
  order (`Locks.DeadlockFreeExactly`). Disjoint directories, which registration enforces, are a
  special case; "two names for one directory take a single lock" alone is not enough.

## Model

| member | source | states |
|---|---|---|
| `RankKeys.Valid` | internal/order/order.go:59-77 | the scan accepts exactly the keys: a legal head, an integer part of its length, digits, and no trailing zero in the fraction |
| `RankKeys.KeyBetweenIsCorrect` | internal/order/order.go:81-147 | for all inputs: succeeds exactly when both bounds are open or usable and in order; the answer is a valid key strictly between them, at most one digit longer than the longer bound; each error names what is wrong |
| `RankKeys.AboveLeft` | internal/order/order.go:121-128 | appending after a usable key always succeeds, and mints no fraction unless the integer part is the greatest |
| `RankKeys.BelowRight` | internal/order/order.go:106-119 | prepending before a usable key always succeeds, and mints the smallest integer only below its successor |
| `RankKeys.ValidateBound` | internal/order/order.go:151-159 | refuses exactly the malformed bounds and the smallest integer, and tells the two apart |
| `RankKeys.IncrementIsSuccessor` | internal/order/order.go:221-238 | increment fails only at the greatest integer part and otherwise gives the next one up, which decrements back |
| `RankKeys.DecrementIsPredecessor` | internal/order/order.go:242-259 | decrement fails only at the smallest integer part and otherwise gives the one whose increment it undoes |
| `RankKeys.AdjacentBothWays` | internal/order/order.go:221-259 | increment, decrement and "no integer part lies between" are the same relation, over all head lengths |
| `RankKeys.IncrementInteger` | internal/order/order.go:221-238 | the carry loop with its head widening computes the increment |
| `RankKeys.DecrementInteger` | internal/order/order.go:242-259 | the borrow loop with its head widening computes the decrement |
| `RankKeys.WidenHead` | internal/order/order.go:263-274 | stepping the head by one leaves a full run of the pad digit at the new head's length |
| `RankKeys.MidpointBetween` | internal/order/order.go:179-217 | the recursive midpoint of two fractions with a gap lies strictly between them, has no trailing zero, and is at most one digit longer |
| `RankKeys.MidpointFraction` | internal/order/order.go:179-217 | the form with the loop over the common prefix computes that midpoint and terminates |
| `RankKeys.EncodingKeepsOrder` | internal/order/order.go:16-20 | digit order is ASCII order, for strings of any lengths |
| `RankKeys.AlphabetIs` | internal/order/order.go:16 | the digits are `0` to `9`, `A` to `Z`, `a` to `z` |
| `Numerals.IncrementAddsOne` | internal/order/order.go:221-238 | an increment of a digit run adds one to its value, and fails exactly at the greatest value |
| `KeyChoice.KeyBetweenChooses` | internal/order/order.go:101-147 | exactly which key is minted: above a left bound the least integer part in between if there is one, else its own with a fraction; below a right bound alone the greatest integer part, or the smallest with a fraction; `a0` between no bounds |
| `KeyChoice.MidpointIsCentral` | internal/order/order.go:179-217 | the fraction is a shortest one in the gap, follows the lower bound up to its last digit, and is there halfway between the bounds, rounded up |
| `KeyChoice.CentralIsUnique` | internal/order/order.go:179-217 | there is only one such fraction |
| `Respacing.Respace` | internal/repair/repair.go:525-566 | the loop gives the keys of the recursive specification and an op for each row whose key changes |
| `Respacing.FinalKeysAreSpaced` | internal/repair/repair.go:537-565 | every rewritten row ends strictly between its neighbours and every other row keeps its key |
| `Respacing.FinalKeysAreMinted` | internal/repair/repair.go:537-565 | each of them gets the key minted between what its predecessor got and the next row that is kept, either side open where there is none |
| `Respacing.NextPrevFits` | internal/repair/repair.go:539-555 | each iteration keeps the running previous key below the right anchor, so a mint fails only when that key is the smallest integer |
| `Respacing.FailsExactlyWhenStuck` | internal/repair/repair.go:537-565 | re-spacing sorted rows fails exactly when a row to rewrite follows a kept smallest integer, or two are to be placed below its successor |
| `Respacing.RespaceResolves` | internal/repair/repair.go:525-566 | rows that are rewritten, or had different keys, end apart, in the sequence of their old keys and then of their ids; rows not selected keep their keys |
| `Respacing.ValidOrderRows` | internal/repair/repair.go:644-652 | keeps, in order, exactly the parsed rows with a valid key |
| `Respacing.EqualOrder` | internal/repair/repair.go:453-460 | counting keys and re-spacing the tied ones computes the specified ops |
| `Respacing.EqualOrderResolves` | internal/repair/repair.go:453-460 | afterwards all valid rows have pairwise distinct valid keys in the old (order, id) sequence, and an untied row keeps its key |
| `Respacing.EqualOrderIsStable` | internal/repair/repair.go:525-531 | rows that agree in key and id are re-keyed in the sequence in which they come |
| `Respacing.EqualOrderIdempotent` | internal/repair/repair.go:453-460 | repairing the repaired rows does nothing |
| `Respacing.EqualOrderFailsExactly` | internal/repair/repair.go:453-460 | it fails exactly when the sorted rows are stuck at the smallest integer, and always with exhaustion |
| `Respacing.TiedBehindSmallest` | internal/repair/repair.go:453-460 | an input that fails: one row at the smallest integer and two tied behind it |
| `Respacing.LongOrder` | internal/repair/repair.go:463-466 | selecting keys over 64 long and re-spacing them computes the specified ops |
| `Respacing.LongOrderResolves` | internal/repair/repair.go:463-466 | only over-long keys change, and each ends strictly between its neighbours |
| `Respacing.LongOrderFailsExactly` | internal/repair/repair.go:463-466 | the same exact failure condition for over-long keys |
| `ShortIds.AlphabetIs` | internal/id/id.go:24-31 | the digits are the letters but i, l and o, in order, and then 2 to 9 |
| `ShortIds.IncOdometer` | internal/id/id.go:194-204 | steps the digits in place to the next run, or wraps to zeros at the last |
| `ShortIds.Extend` | internal/id/id.go:162-186 | returns the shortest, then alphabet-least, free extension; fails for a legal prefix only if all extensions up to length 8 are taken |
| `ShortIds.ExtensionIsUnique` | internal/id/id.go:162-186 | that promise has one answer for given occupied ids |
| `ShortIds.ExtensionIsExtension` | internal/id/id.go:162-186 | the closed form used in proofs meets the same promise |
| `Collision.KeepBeforeAsymmetric` | internal/collision/collision.go:27-44 | no two files are each kept before the other |
| `Collision.KeepBeforeTransitive` | internal/collision/collision.go:27-44 | the keeper order chains |
| `Collision.KeepBeforeTotal` | internal/collision/collision.go:27-44 | files that differ in instant, name, bytes or path are ordered |
| `CollisionRepair.KeeperOrderIsTotal` | internal/repair/repair.go:616-622 | on files with distinct paths the keeper order is a strict total order |
| `CollisionRepair.ResumeExtension` | internal/repair/repair.go:128-158 | finds the least occupied id of the family whose file already holds this loser's bytes under that id, or none |
| `CollisionRepair.DuplicateID` | internal/repair/repair.go:68-123 | refuses fewer than two members and unreadable ones; otherwise one row keeps the id, which has no readable instant if any has none, else the earliest, then the least base name, hash and path; all others, in that order, get an op that changes nothing but the id and, unless it finds its work done, stays beside the old name; each op is reported, and the occupied map is extended by the minted ids |
| `CollisionRepair.PlanIsSafe` | internal/repair/repair.go:86-121 | each loser in order gets one op, which completes a move that is already on disk or goes to an extension that nothing held |
| `CollisionRepair.MintedIdsDiffer` | internal/repair/repair.go:86-121 | a minted id is the destination of no earlier op, also when some losers resume earlier moves |
| `CollisionRepair.PlanClaims` | internal/repair/repair.go:101-119 | the occupied map keeps its entries and gains exactly the ids of the plan's destinations |
| `CollisionRepair.LaterMintsDiffer` | internal/integrity/repair.go:231-259 | no later collision of the same run mints an id that an earlier one used |
| `CrashRecovery.NextCollisionIsSafe` | internal/integrity/repair.go:231-259 | once a collision's plan is applied, the map knows every file name again, so the next collision is planned as safely |
| `CrashRecovery.KeeperSortIsDetermined` | internal/repair/repair.go:68-84 | the order of the members, and so the plan, does not depend on the order in which the rows come |
| `CrashRecovery.FreshPlanIsFresh` | internal/repair/repair.go:86-121 | a first run gives the losers pairwise distinct ids that extend the collided one and were held by no file |
| `CrashRecovery.FreshPlanIsLeast` | internal/repair/repair.go:101-119 | each of them in turn gets the shortest and then least extension that is left, in its own directory |
| `CrashRecovery.Disk.ApplyOne` | internal/rewrite/rewrite.go:31-51 | skips a finished move, refuses a destination with other bytes, else writes and then removes; the disk passes only through the write |
| `CrashRecovery.Disk.Apply` | internal/rewrite/rewrite.go:29-83 | applies ops in order up to a refusal, reports every path it changed, and passes only through states that recovery covers |
| `CrashRecovery.ReplanContinues` | internal/repair/repair.go:68-158 | planning again from any point of an interrupted run gives exactly the ops that were left |
| `CrashRecovery.RecoversFromAnyCrashes` | internal/repair/repair.go:68-158 | after any number of interrupted runs, the next one plans without error and completes to the files of an uninterrupted run, and no loser's content was ever absent |
| `CrashRecovery.UnsteadyDoesNotRecover` | internal/repair/repair.go:86-121 | the condition on freed ids is exact: without it a run stopped before its last move is continued to different files |
| `CrashRecovery.PlainNamesAreSteady` | internal/repair/repair.go:86-121 | the condition holds when no loser's file name is itself an extension of the collided id |
| `CrashExamples.PlainNamesRecover` | internal/repair/repair.go:68-123 | for every extensible id, three files with that id and plain names, and their plan, meet all conditions of recovery |
| `CrashExamples.NamedAheadDoesNotRecover` | internal/repair/repair.go:68-123 | for every extensible id, three such files of which the second is named after the first extension: stopped before its last move and run again, the repair ends in other files |
| `RunRecovery.RunRecoversExactly` | internal/integrity/repair.go:180-264 | a run over all collisions, planned one after the other with one carried map, ends in the same files however it lists them, and after any number of runs stopped anywhere, the next run ends in those files if and only if each collision is steady with the names freed before it counted in |
| `RunRecovery.PlainRunRecovers` | internal/integrity/repair.go:180-264 | it recovers when no loser's file name is an extension of a collided id |
| `RunRecovery.RestIsDue` | internal/integrity/repair.go:217-259 | repairing one collision leaves the others as they were, makes no new one, and what it writes is never taken for another's unfinished move |
| `RunRecovery.FitsNext` | internal/repair/repair.go:101-119 | the map that a collision's plan leaves fits the files that its ops leave, also when the run began part-way |
| `RunExamples.TwoDoNotRecover` | internal/integrity/repair.go:231-259 | two collisions, each of which would recover alone: the first frees a name before the one planned for the second, and the run does not recover |
| `Survival.NothingIsLost` | internal/repair/repair.go:68-158 | for any files and any history of stopped runs of a collision whose files can be read: every file with its id is where it was or on disk under an extension of it, and all others are untouched |
| `Survival.RunsLoseNothing` | internal/integrity/repair.go:180-264 | the same for runs over all collisions, and no two files come to share an id |
| `Merge.MergeList` | internal/fmmerge/fmmerge.go:267-295 | the three loops compute the merged list |
| `Merge.MergedListIsExact` | internal/fmmerge/fmmerge.go:267-295 | an element survives exactly when both sides keep a base element or either side adds a new one, once each |
| `Merge.MergeCustomFields` | internal/fmmerge/fmmerge.go:415-430 | the loops over all custom keys, in base, ours, theirs order, compute the merged fields |
| `MergeLaws.MergedCustomAt` | internal/fmmerge/fmmerge.go:415-448 | read by key, the merged fields are the merge of the three values of that key, and no others |
| `MergeLaws.MergeConverges` | internal/fmmerge/fmmerge.go:115-243 | swapping ours and theirs with their dates gives the same outcome, scalars, lists as sets, custom values, errors, and for two additions the same kept bytes and new short id |
| `MergeLaws.StatusComesWhole` | internal/fmmerge/fmmerge.go:323-385 | status and its changed stamp come together from one stage |
| `MergeLaws.TerminalDisputeIsNeverPicked` | internal/fmmerge/fmmerge.go:323-345 | a merge without error is a dispute exactly when the status is contested and one side is terminal, and then at the base status with both contenders |
| `MergeLaws.UnchangedSideYields` | internal/fmmerge/fmmerge.go:197-243 | merging with an unchanged side gives the other side, its lists and its custom lists as sets, with identity from the base |
| `MergeChoice.MergeTakes` | internal/fmmerge/fmmerge.go:181-460 | from three readable stages: at which key the merge stops, and otherwise of every field whose value it takes; where both sides changed one, that of the later author date, then of the greater hash; the base identity; a dispute's base status and both contenders in order; `changed` from whoever moved the status; lists as sets, in base, ours, theirs order |
| `MergeChoice.JoinsWithBlanks` | internal/fmmerge/fmmerge.go:508-515 | a list prints, for that comparison, as its elements with blanks between |
| `MergeChoice.DeletionNamesItsSide` | internal/fmmerge/fmmerge.go:137-178 | a deletion against an edit names the side that deleted and the other side's status |
| `MergeChoice.AdditionRenamesTheLater` | internal/fmmerge/fmmerge.go:151-174 | of two tickets added under one id the one created later, or with the greater hash, is renamed to the least free extension |
| `MergeChoice.MergeRefuses` | internal/fmmerge/fmmerge.go:102-171 | refuses exactly a missing schema, an unreadable stage, and fewer than two stages |
| `Statuses.TerminalExactly` | internal/status/status.go:40-93 | the terminal statuses are `done`, `cancelled` and custom ones of that category, and the known ones are the nine built-in and the custom ones |
| `Cache.WriteThroughStores` | internal/reconcile/writethrough.go:16-56 | from any state that keeps the invariant, look, read and store of a file leave for it the row of a full reparse, whatever passes, clocks and edits of other files do in between, and every other row as it was unless a pass is committed in between |
| `Cache.WriteThroughDeletes` | internal/reconcile/writethrough.go:18-25 | and look and delete of a path without a file leave it no row |
| `Cache.StepKeeps` | internal/reconcile/reconcile.go:227-286 | every edit, delete, clock tick, pass step and write-through step, and giving up either, keeps the invariant, a store provided that it is in time |
| `Cache.CacheIsSound` | internal/reconcile/reconcile.go:159-286 | in every run whose stores are in time, each row equals the parse of its file, or the file differs in mtime or size, or its mtime is not below the watermark |
| `Cache.QuietPassEqualsReparse` | internal/reconcile/reconcile.go:227-286 | after any history, a pass without an edit in it leaves, for every file, the row of a full reparse, or no row for the one file of a pending delete |
| `Cache.FreshExactly` | internal/reconcile/writethrough.go:16-25 | every such pass leaves the row of a full reparse for every file if and only if no delete is pending of a file that is there again and that a pass would skip |
| `Cache.ReparseExactly` | internal/reconcile/reconcile.go:159-286 | every such pass ends in exactly the rows of a full reparse if and only if, besides, no write-through may still store, in time, the text of a file that is gone and has no row |
| `Cache.RewrittenFileLosesRow` | internal/reconcile/writethrough.go:16-25 | for every path and text, a run and a quiet pass after it that ends with the file there and its row gone |
| `Cache.DeletedFileKeepsRow` | internal/reconcile/writethrough.go:16-56 | whatever the other files are, some run gets there, and some quiet pass then ends with a row for the deleted file |
| `Cache.StoreBreaksExactly` | internal/reconcile/writethrough.go:16-56 | some run ends in a store that breaks the cache exactly when the file was stamped in the tick it was looked at, a pass begun later is committed, and not every text parses as those of that size do |
| `Cache.FilesToParse` | internal/reconcile/reconcile.go:250-262 | the files to parse are exactly the listed ones whose stat changed or whose mtime is not below the watermark |
| `Cache.UpsertsCommute` | internal/index/write.go:157-199 | two upserts commute exactly when they are of different paths, equal, of different stamps, or both older than the stored row |
| `Cache.Index.ApplyScopeWrite` | internal/reconcile/reconcile.go:159-188 | upserts what is found when looked at again, deletes what was indexed, is not listed and is not found, and sets the watermark, in whatever order the paths come |
| `Scheduler.EvalDepends` | internal/depgate/depgate.go:109-152 | the ids waited on are the unmet depends targets, sorted and once each |
| `Scheduler.SelectNext` | internal/depgate/depgate.go:228-261 | picks a ready candidate under the lens with the least order key, and at one key the least id, none only if there is none, and counts the blocked and the ready ones outside the lens |
| `Scheduler.EligibleIsReady` | internal/depgate/depgate.go:155-163 | eligible means an unarchived, parsed, unique todo whose depends targets are all present and terminal |
| `GateLoading.Load` | internal/depgate/depgate.go:42-96 | the gate holds the home scopes' rows and edges and the rows of the targets missing there |
| `GateLoading.ReadyFromTables` | internal/depgate/depgate.go:42-163 | under a gate loaded for its scope, a ticket is ready exactly when its row is an unarchived, parsed todo of a readable schema whose id no other row of the scope has, and every target it depends on has rows that are all done |
| `GateLoading.RowIDKeepsPrefix` | internal/reconcile/parse.go:54-79 | the id given to a row, a legal fence id of its scope or else that of its file name, has its scope as prefix |
| `GateLoading.HomeGateIsEnough` | internal/depgate/depgate.go:42-152 | that gate evaluates every home ticket exactly as one loaded from all rows |
| `SchedulerProgress.ReadyExactly` | internal/depgate/depgate.go:42-163 | under a gate loaded for its scope, a plain open ticket is ready exactly when nothing it depends on is open, in any scope |
| `SchedulerProgress.PickExistsExactly` | internal/cli/next.go:62-78 | one scope's queue yields no pick exactly when every open ticket of the scope is held by an open ticket of another scope; a pick exists exactly when some tip of the scope waits for nothing elsewhere, and a non-empty queue has a tip |
| `SchedulerProgress.OtherScopeHolds` | internal/index/board.go:84-88 | a todo that depends on another scope's todo: its queue is not empty, and there is no pick |
| `SchedulerProgress.FinishKeepsWorkable` | internal/depgate/depgate.go:109-163 | finishing a ticket keeps the open tickets of the scopes plain and free of circles |
| `SchedulerProgress.WorkedOffInTopologicalOrder` | internal/depgate/depgate.go:228-261 | repeatedly picking from some scopes and finishing visits exactly the open tickets that nothing outside holds, once each, every one after all it depends on |
| `SchedulerProgress.EveryRunEnds` | internal/depgate/depgate.go:228-261 | however picks and finishes have gone so far, there are no more of them than open tickets at first, and they can be carried on until nothing is left to pick |
| `SchedulerProgress.WholeBoardIsWorkedOff` | internal/depgate/depgate.go:228-261 | over all scopes it visits every open ticket |
| `Ranks.AssignRanks` | internal/tkv/graph.go:217-274 | terminates on every graph; a node that reaches no cycle gets the length of its longest chain, all others the next rank above those |
| `Ranks.EdgeFlagMarksCycles` | internal/tkv/graph.go:190-200 | the edge flag is set exactly when the edge's target reaches a cycle |
| `DependsGraph.Reachable` | internal/cli/depends.go:621-637 | the recursive closure lists exactly what is reached, once each, without the start |
| `DependsGraph.SubjectInCycle` | internal/cli/depends.go:639-658 | true exactly when a non-empty path returns to the subject |
| `DependsGraph.Loaded.AddEdge` | internal/cli/depends.go:440-451 | adds one edge, once, at the end of its lists in both maps, which stay converse |
| `DependsGraph.ExpandDepends` | internal/cli/depends.go:461-503 | the breadth-first loading loads every table edge out of the subject and all it reaches, in one direction, and no other |
| `DependsGraph.BuildDependsGraph` | internal/cli/depends.go:281-323 | the loaded part is exactly the edges at the subject, out of what it reaches and, when expanded inbound, into what reaches it |
| `DependsGraph.Neighbourhood` | internal/cli/depends.go:613-658 | the answers from the loaded part are those of the whole edge table |
| `Forest.FormatForest` | internal/cli/dependstree.go:24-116 | terminates on any graph with distinct roots, expands no node twice, expands every root and every resolved child with outgoing edges of an expanded node, and nothing but roots and resolved children of nodes expanded before; prints children in id order, on one line when none has children of its own, names a child only when it is an ancestor, unresolved, printed before or a root, and marks exactly the ancestors and the unresolved |
| `Forest.ForestCovers` | internal/cli/dependstree.go:24-116 | so everything with outgoing edges that a root reaches through resolved nodes is expanded |
| `Forest.CycleMarks` | internal/cli/dependstree.go:78-116 | what is marked as a cycle is on one |
| `ForestRoots.FindRoots` | internal/cli/dependstree.go:163-238 | the roots, sorted and once each, are exactly the sources and, for each cluster without one, its least ticket with outgoing edges |
| `ForestRoots.Component` | internal/cli/dependstree.go:202-218 | the search from a new start collects exactly its undirected cluster |
| `ForestRoots.RootAbove` | internal/cli/dependstree.go:163-238 | on an acyclic board every ticket on a depends edge is a root or reachable from one |
| `ForestRoots.PrintBoard` | internal/cli/depends.go:357-364 | the printed forest starts from exactly these roots in id order, expands no ticket twice and, on an acyclic board, every board ticket with depends edges |
| `Fences.Split` | internal/frontmatter/frontmatter.go:121-149 | the scanning loop computes the split; without an opening and a closing fence the body is the whole input |
| `Fences.SplitFinds` | internal/frontmatter/frontmatter.go:121-149 | an opening fence line, whole lines that are no fences, a closing fence line and any body are split into these parts |
| `Fences.SplitHas` | internal/frontmatter/frontmatter.go:121-149 | whatever is split has that shape |
| `Fences.ComposeRoundTrip` | internal/frontmatter/frontmatter.go:249-257 | a composed file splits back into its parts exactly when the interior is whole lines without a fence line, for every body |
| `Fences.FenceIsKept` | internal/design/splice.go:67-72 | whatever text follows a file's fence, splitting returns the same interior, that text, and the same fence |
| `Headings.SplitH1Parts` | internal/title/title.go:33-54 | the scanning loop computes the split at the first heading with text |
| `Headings.HeadingExactly` | internal/title/title.go:10-31 | a line is a heading exactly when a `#`, one of the pattern's blanks, and after that something other than white space |
| `Headings.NormalizedIsTitle` | internal/bodyedit/bodyedit.go:47-59 | a title is refused exactly when blank or of several lines; otherwise it comes out trimmed, non-empty and on one line |
| `Headings.TitleIsNormal` | internal/bodyedit/bodyedit.go:47-59 | normalising leaves a title alone exactly when it does not itself read as a heading |
| `Headings.PaddedTitle` | internal/bodyedit/bodyedit.go:47-59 | white space around a title does not matter |
| `Headings.PastedTitle` | internal/bodyedit/bodyedit.go:47-59 | a title pasted with its `#` and any blanks behind that comes out without them |
| `Headings.NormalizingIsNotIdempotent` | internal/bodyedit/bodyedit.go:47-59 | an input that normalises differently the second time |
| `BodyEdit.PosixIsOnePass` | internal/bodyedit/bodyedit.go:87-90 | the two replacements turn each of the three line endings into one newline |
| `BodyEdit.Replace` | internal/bodyedit/bodyedit.go:64-85 | the buffer is the ended fence, the ended lead, the heading line and the ended body |
| `BodyEdit.TailReadsBack` | internal/title/title.go:33-54 | what is written behind the fence is read back as lead, title and body exactly when the lead has no heading |
| `BodyEdit.SpliceRoundTrip` | internal/design/splice.go:67-72 | a spliced file keeps its fence and interior, and reads back as the new parts exactly when the lead has no heading |
| `BodyEdit.SpliceOwnExactly` | internal/design/splice.go:67-72 | for every file with a fence: splicing the parts read from it gives the file back exactly when the body is in newlines and ended, its first heading is written as a title is, and that heading does not itself read as a heading |
| `BodyEdit.RespliceIsIdentity` | internal/design/splice.go:67-72 | splicing a spliced file's parts again changes nothing exactly when its first heading is written so; with no heading in the lead, exactly when the title does not itself read as a heading |
| `BodyEdit.HeadingInLead` | internal/bodyedit/bodyedit.go:64-85 | with a lead that is an oddly spaced heading line, whatever the file and title, the heading read back is the lead's and splicing again changes the file |
| `BodyEdit.SpacedHeading` | internal/title/title.go:33-54 | `#  a` is such a line |
| `Locks.LockScopes` | internal/scopefile/scopefile.go:34-61 | locks one name for each directory, the least, in ascending order |
| `Locks.StepKeeps` | internal/syncengine/root.go:169-187 | every step of every process keeps the lock order and single ownership |
| `Locks.DeadlockFree` | internal/syncengine/root.go:169-187 | in every state of every run no lock has two holders and no processes wait for one another in a round |
| `Locks.SomeoneRuns` | internal/integrity/repair.go:69-98 | from any process, following who waits for whom leads to one that is not blocked |
| `Locks.UnblockedTakes` | internal/syncengine/root.go:169-187 | and such a process gets the lock it wants in its next step |
| `Locks.DeadlockFreeExactly` | internal/scopefile/scopefile.go:31-61 | freedom from deadlock holds exactly when the names of each directory stand together in name order |
| `Locks.DisjointIsContiguous` | internal/scopeadmin/checks.go:42-52 | disjoint directories, as registration enforces them, meet that condition |

## Left out

- Commands, printing, tokens, the web view, authentication, git and the sync drive loop: interface and plumbing.
- YAML, CUE, SQLite and full-text search: foreign code; parsing and serializing are parameters and tables are maps.
- Read, write and lock errors of the operating system: an error ends an operation, which crash recovery and the lock protocol already cover.
- `SharedID`, `AdoptPrefix`, `ArchiveMove` and `InterruptedMove`: repairs of other damage; only duplicate ids, tied keys and long keys are modelled.
- The designs table and its write path: the same operations on a second table.
- Tags and edges inside an index row: a row is its stat and the parsed data as one value.
- CrashRecovery.RecoversFromAnyCrashes: assumes, besides the exact condition on freed ids, that losers differ apart from their ids and that no other file of the family holds a loser's bytes, since the source recognises its own earlier write by those bytes.
- Cache.CacheIsSound: is for non-overlapping passes, at most one write-through at a time (the scope lock admits one writer), and stamps from one monotone clock; overlapping passes, restored mtimes and read faults are not modelled, nor is the pruning of a scope that is no longer registered. The stores it excludes are those that `Cache.StoreBreaksExactly` shows to break the cache.
- Cache.StepKeeps: the same exclusion, on the step that stores a write-through's row; the source has no such guard.
- CrashRecovery.Disk.ApplyOne: a create-only op (an empty old path) is not modelled, since duplicate-id repair makes none.
- RunRecovery.RunRecoversExactly: assumes that every collision finds its extensions, that all losers of the run differ apart from their ids and that no other file holds a loser's bytes under an id of its family. Ids shared with a design, collisions with an unreadable member and interrupted archive moves, which the run repairs elsewhere or skips, are not modelled.
- MergeLaws.MergeConverges: a value inside a custom list prints as its text, warnings are sets of keys rather than messages, and the reason a stage fails to load is not compared (the source reports the first of the stages that fails).
- SchedulerProgress.PickExistsExactly: without a lens, as a lens may hide every ready ticket.
- Forest.FormatForest: the box-drawing characters are not modelled, only the tree they draw.
- ForestRoots.PrintBoard: makes no claim of coverage for boards with cycles, where a cluster with a source may hold a cycle that no root reaches.
- Fences.Split: text is a sequence of Unicode characters; bytes that are not UTF-8 are not modelled.
- Locks.StepKeeps: a process asks for one git root at a time after its scope locks, which covers sync, repair and the commits of a rehome.
- The clobber key of an edit form and the file name of a ticket (`Basename`): simple strings.
