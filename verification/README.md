# N4X core model

N4X keeps applications as revisions in a property graph: their source files, their action and type definitions, their
data, and the records of jobs and invocations. This project models the parts of it that are hard to get right and
proves what they are meant to keep. It is written in Dafny 4.11; `dafny verify dfyconfig.toml` checks all of it.

The parts, and where to start reading:

- **Source store.** `UnifiedDiff` is the patch engine; `UnifiedDiffProofs`, `EditScripts` and `MixedScripts` say what
  a patch means, `PatchRefusals` when it is refused, `TextLines` and `ScriptUndo` when it can be undone on the stored
  text. `Interning` is the canonical form behind tree ids. `SourceGraph` describes the copy-on-write store on values,
  `SourceBatch`, `BatchOrigins` and `FileRoles` the batches of changes, `SourceGraphProofs` and `SourceRuns` what every
  run keeps, `StoreLaws` what each operation does. `SourceStore` is the class with the loops. `InternGc` is garbage
  collection on any graph, and `SourceCollection` shows that the store's own collection is an instance of it.
- **Jobs.** `Scheduler` is the state machine of jobs, attempts, leases and retries, `JobLaws` says what each step does
  to each record, `SchedulerProofs` is its invariant over all runs, `LateReports` and `StaleClaims` what late writes
  and claims do, `LateRuns` all runs with them, `TriggerRuntime` the class.
- **Transactions.** `UnitOfWork` is nesting, rollback-only and the retry wrapper. `FrameCodec` is the wire format,
  `CypherGateway` the protocol of a connection, `GatewayTokens` who may use it, `GatewayServer` the request handler and
  the client's transaction.
- **Applications.** `Bindings` is the edges by which a revision binds definitions, `Applications`, `ApplicationLaws`
  and `ApplicationsProofs` the life of a revision, `Checkpoints` and `ActivationLaws` capture, restore, activation and
  its failures; `ApplicationStore` and `ActivationService` are the classes.
- **Shared resources.** `ActionPool`, `PoolLaws` and `ActionPoolObjects` are the pool of interpreters,
  `ActionSupervisor`, `SubmissionLives` and `ActionSupervisorObjects` admission of work.
- **Repair.** `Integrity` is edge repair, validation and reachability.

Each class method is proved equal to a function on values; the laws are lemmas about those functions and about runs of
them. A block that the source runs in one transaction, or under one lock, is one step. What happens outside - whether
a commit meets a conflict, what a migration does to the data, when a child process dies - is an arbitrary parameter or
step.

Where the code does not do what its name or its documentation suggests, the model follows the code, one lemma shows the
case, and another says exactly when the property does hold:

| observed | shown by | exact condition |
|---|---|---|
| insert-only hunks go before their line; the POSIX `diff -u` format puts them after it | `InsertOnlyDiffersFromPosix` | `InsertOnlyIsPosixIff` |
| a patch with one placement as a whole can be refused | `OnePlacementIsNotEnough` | `AppliesIffPrefixesPlaced` |
| swapping `+` and `-` need not undo a patch: stored text runs lines without a line end together | `UnendedLineIsNotUndone` | `SwappedScriptUndoesIff` |
| a revision created from a parent with a draft tree shares that draft | `SharedDraftLeaks` | `CreateKeepsIff` |
| a batch that passes the validation can lose a file it produced | `TwoRenamesToOnePath`, `WriteThenRename` | `NothingLostIff`, `RenamesLoseNoFileIff` |
| a late end of a recovered execution reopens a job or takes it over | `LateReportReopens`, `LateDeferralReopens`, `LateReportTakesOver` | `LateReportKeepsIff` |
| a job found due is claimed later without a second look, and may run twice | `StaleClaimRunsTwice` | `StaleClaimKeepsIff` |
| after a failed commit the gateway keeps the handle, and the next query commits by itself | `FailedCommitThenQuery` | `AllOrNothingIff` |
| the client's transaction raises although its writes are durable | `GraphContext.Transaction` | there: the reply to an accepted commit is lost |
| a submission with an id in flight makes its action overlap | `RefusedDuplicateIff`, `AcceptedDuplicateIff` | the same |
| applications that share a definition overwrite its active pointer | `SharedDefinitionsIff` | the same |
| restore does not reset revisions made after the checkpoint | `OneActiveAfterRestoreIff` | the same |
| data that migrations leave behind outlives a failed activation | `FailedActivationIff` | the same |
| a failed eviction reports an activation as failed that stands | `FailedEviction` | the same |
| repair drops one of two live source trees of a revision without a word | `DropsLiveEdgeIff` | the same |

The row on ids in flight is about the public parameter `invocation_id` alone: the callers in the repository
(`backend/n4x/system/invocations.py:155` and 193, `backend/n4x/system/development_deployments.py:369`,
`backend/n4x/runtime/scheduler.py:385`) leave it to a fresh UUID, which is what `ActionSupervisor.RunKeeps` assumes.

## Model

Source paths are relative to the root of the repository.

| member | source | states |
|---|---|---|
| UnifiedDiff.JoinSplitLines | backend/n4x/source_store/service.py:91-92 | cutting a file into lines with their line ends and joining them again gives the file |
| UnifiedDiff.FindUniqueHunkStart | backend/n4x/source_store/service.py:69-86 | the search answers a start exactly when the old lines match there and nowhere else from the end of the previous hunk on; a hunk without old lines goes where its header says, if that is not before that end (what this means for a patch is `MixedScriptGivesTarget`) |
| UnifiedDiff.ReadHunk | backend/n4x/source_store/service.py:116-141 | the reading loop takes exactly the lines of one hunk and leaves the rest |
| UnifiedDiff.ApplyUnifiedDiff | backend/n4x/source_store/service.py:89-176 | the nested loops compute the recursive meaning of a patch, with every refusal: no header, several file sections, no unique place, no hunk |
| UnifiedDiffProofs.ApplyIsParseThenApply | backend/n4x/source_store/service.py:114-176 | reading and placing hunk by hunk is reading all hunks first and then placing them |
| UnifiedDiffProofs.AppliedPatchSplices | backend/n4x/source_store/service.py:142-176 | a patch that applies has exactly one ordered placement without overlaps of its old blocks, and the result is the source with just those windows replaced |
| UnifiedDiffProofs.PlacesIsOnlyPlacement | backend/n4x/source_store/service.py:69-86 | placing each block at its one match from the last block on leaves no other placement of the whole list |
| UnifiedDiffProofs.SpliceKeepsTheRest | backend/n4x/source_store/service.py:149-176 | what lies outside the windows is untouched: replacing blocks by themselves gives the source back |
| UnifiedDiffProofs.AppliesIffPrefixesPlaced | backend/n4x/source_store/service.py:114-176 | a patch whose hunks have old lines applies if and only if every prefix of its hunks has exactly one placement |
| UnifiedDiffProofs.OnePlacementIsNotEnough | backend/n4x/source_store/service.py:69-86 | a concrete patch with one placement as a whole that is refused, as its first hunk alone has two |
| UnifiedDiffProofs.NumbersDoNotMatter | backend/n4x/source_store/service.py:75-86 | changing the line numbers in hunk headers never changes the outcome when all hunks have old lines |
| UnifiedDiffProofs.InsertOnlyGoesBeforeItsLine | backend/n4x/source_store/service.py:75-78 | an insert-only hunk goes before the line its header names, clipped to the end of the file, and is refused without a number |
| UnifiedDiffProofs.InsertOnlyIsPosixIff | backend/n4x/source_store/service.py:75-78 | within the file an insert-only hunk gives the result of the POSIX format if and only if its header names line 0 or every inserted line equals the named one |
| UnifiedDiffProofs.InsertOnlyDiffersFromPosix | backend/n4x/source_store/service.py:75-78 | inserting any line other than the named one lands on the other side of it than POSIX says |
| UnifiedDiffProofs.ReadOne | backend/n4x/source_store/service.py:124-133 | one line of a hunk is an entry, unless it removes a line that starts with `-- ` or adds one that starts with `++ ` |
| EditScripts.RenderedScriptGivesTarget | backend/n4x/source_store/service.py:89-176 | a rendered edit script applies if and only if its lines can be rendered and each old block is unique from the previous one on, and then gives the target of the script |
| MixedScripts.MixedScriptGivesTarget | backend/n4x/source_store/service.py:75-176 | with edits that only add lines among the others: a rendering applies if and only if the file cuts into a script with these changes whose every edit is in turn - its old lines unique from the last block on or, without any, its number saying where its gap ends - and then gives the target of that one script |
| MixedScripts.OneCut | backend/n4x/source_store/service.py:75-86 | the file and the changes leave one such script: the gaps are decided by the old lines and the numbers |
| MixedScripts.MisplacedInsertIsRefused | backend/n4x/source_store/service.py:75-78 | an edit that only adds lines is refused when its number points before the end of the previous block, or it has none |
| MixedScripts.MarkerTakesLineEnd | backend/n4x/source_store/service.py:133-141 | a no-newline marker takes the whole line end off the line before it, of one character or of two |
| MixedScripts.MarkedLineIsRead | backend/n4x/source_store/service.py:126-141 | a hunk line followed by the marker is read back as the line without its line end, whatever its kind |
| PatchRefusals.BodyIsReadIff | backend/n4x/source_store/service.py:110-141 | the hunks of a patch are read if and only if no line has a fault, judged by itself and the line before it; else the first fault is the refusal |
| PatchRefusals.PatchIsRefusedFor | backend/n4x/source_store/service.py:95-176 | what a patch is refused for: no line, half a file header, no hunk, the first line with a fault, or a hunk without a place before it |
| TextLines.SplitConcat | backend/n4x/source_store/service.py:91-92 | cutting two texts that meet at a line end is cutting each of them |
| TextLines.SplitCut | backend/n4x/source_store/service.py:91-92 | the lines of a text are again the lines of a text, from any line on and up to any line |
| ScriptUndo.AppliedIsScript | backend/n4x/source_store/service.py:89-176 | every patch of rendered edits that applies is a script of its file: the gaps are where its blocks were placed |
| ScriptUndo.CutAlikeIsSame | backend/n4x/source_store/service.py:89-176 | two files with equal blocks and gaps that differ by where their texts are cut have the same gaps, line by line |
| ScriptUndo.SwappedScriptUndoesIff | backend/n4x/source_store/service.py:89-176 | apply a script, store the text, apply the script with added and removed lines swapped: this gives the file back if and only if the lines of the target are those of a text, the swapped lines can be rendered, and each new block is unique in turn |
| ScriptUndo.UnendedLineIsNotUndone | backend/n4x/source_store/service.py:91-176 | a concrete script that is not undone: it adds a line without a line end in front of another one |
| EditScripts.ReadUnrenderable | backend/n4x/source_store/service.py:128-131 | a removed line starting `-- ` or an added line starting `++ ` is taken for a second file section |
| Interning.SameHashIffSameFiles | backend/n4x/kernel/intern.py:18-29 | two listings with distinct paths have one hash exactly when they hold the same files, in any order |
| Interning.HashOfListing | backend/n4x/kernel/intern.py:18-29 | the hash of a listing is a function of its set of files |
| Interning.HashIsInjective | backend/n4x/kernel/intern.py:18-29 | equal hashes mean equal sets of files |
| SourceStore.SourceStore.CurrentTree | backend/n4x/graph/bindings.py:53-64 | the tree of a revision, refused unless there is exactly one |
| SourceStore.SourceStore.ListSourceTree | backend/n4x/source_store/service.py:216-223 | the files of a tree, each once, sorted by path |
| SourceStore.SourceStore.DeleteInternedOrphans | backend/n4x/graph/intern_gc.py:35-43 | the collecting loop leaves the store that `Collect` describes |
| SourceStore.SourceStore.PutFile | backend/n4x/source_store/service.py:581-598 | writing a file replaces the edge of its path and saves its content |
| SourceStore.SourceStore.EnsureWritable | backend/n4x/source_store/service.py:297-315 | reopening gives the revision its own draft with the same files, or keeps the draft it has |
| SourceStore.SourceStore.InternTree | backend/n4x/source_store/service.py:318-343 | interning stores the files under their hash, points the revision there and drops the draft |
| SourceStore.SourceStore.ValidateBatch | backend/n4x/source_store/service.py:532-554 | all changes are judged against the initial listing, and the first fault is reported |
| SourceStore.SourceStore.ApplyToDraft | backend/n4x/source_store/service.py:491-523 | the loop over the changes edits the draft and the index of paths alike |
| SourceStore.SourceStore.RefreshTreeHash | backend/n4x/source_store/service.py:622-635 | the stored hash becomes the hash of the current listing |
| SourceStore.SourceStore.BatchUpdateWorkingTree | backend/n4x/source_store/service.py:479-530 | a batch on a draft changes its files as specified or fails; one that the validation refuses changes nothing, any other failure is for the transaction around it to undo |
| SourceStore.SourceStore.BatchUpdateRevision | backend/n4x/source_store/service.py:456-477 | a batch on a revision is the specified update with its check of the expected tree; a batch that raises leaves the store as it was |
| SourceStore.SourceStore.ApplySourcePatch | backend/n4x/source_store/service.py:375-415 | patching one file is the patch engine on its text followed by a write |
| SourceStore.SourceStore.CopyEdges | backend/n4x/graph/bindings.py:165-175 | the tree edge of a parent is copied as it is |
| SourceStore.SourceStore.CreateRevision | backend/n4x/system/applications.py:141-152 | a new revision shares the tree of its parent or shows the interned empty tree |
| SourceStore.SourceStore.DiscardRevision | backend/n4x/system/applications.py:158-173 | a discarded revision takes its own draft tree with it, and collection runs |
| SourceGraphProofs.CollectKeeps | backend/n4x/graph/intern_gc.py:35-57 | collection re-establishes the invariant and changes the files of no revision |
| SourceGraphProofs.EnsureWritableKeeps | backend/n4x/source_store/service.py:297-315 | reopening keeps the invariant, the files of the revision and every other revision |
| SourceGraphProofs.InternKeeps | backend/n4x/source_store/service.py:318-343 | interning keeps the files; the tree id becomes their hash; other revisions are untouched |
| SourceGraphProofs.DeleteTreeKeeps | backend/n4x/source_store/service.py:617-620 | deleting a tree that no revision shows changes no listing |
| SourceBatch.BatchIsSimultaneous | backend/n4x/source_store/service.py:479-530 | a batch whose touched paths are pairwise apart is the simultaneous update of the initial listing |
| SourceBatch.OrderDoesNotMatter | backend/n4x/source_store/service.py:479-554 | any order of such changes succeeds alike and gives the same files |
| SourceBatch.OneByOneIsTheBatch | backend/n4x/source_store/service.py:456-554 | such changes run one by one succeed exactly when the batch does, with the same files |
| SourceBatch.TwoRenamesToOnePath | backend/n4x/source_store/service.py:532-554 | two renames to one new path pass the validation, and one file is lost |
| BatchOrigins.OriginsAreReal | backend/n4x/source_store/service.py:479-530 | every file after a batch is what one change produced, or was there before: never a mixture |
| BatchOrigins.OriginIff | backend/n4x/source_store/service.py:479-530 | a file after a batch comes from a change if and only if that change put it at its path and no later one touches the path |
| BatchOrigins.StaysWherePutIff | backend/n4x/source_store/service.py:479-554 | every file that a change of a batch produced stays at the path where it was put if and only if no later change touches that path |
| BatchOrigins.FileGoesOn | backend/n4x/source_store/service.py:491-523 | a file that no change deletes, writes over or renames another one onto is there after the batch, unchanged, at the path where renames took it |
| BatchOrigins.GoApart | backend/n4x/source_store/service.py:491-523 | two files are never taken to one path |
| BatchOrigins.NothingLostIff | backend/n4x/source_store/service.py:479-554 | a batch that goes through loses no file that it produced, renamed or not, if and only if no change deletes, writes over or renames another file onto the path where an earlier change has its file by then |
| BatchOrigins.RenamesLoseNoFileIff | backend/n4x/source_store/service.py:479-554 | validated renames of distinct files keep the number of files if and only if the new paths are pairwise distinct |
| BatchOrigins.WriteThenRename | backend/n4x/source_store/service.py:532-554 | a rename onto a path that the batch has just written passes the validation, and the written file is lost |
| FileRoles.FileKeepsRole | backend/n4x/source_store/service.py:491-523 | after every batch that goes through: a file that was there and that no change ends is found where renames took it, with the content last written to it and its own role and language, whatever the writes name |
| FileRoles.NewFileKeepsFirstRole | backend/n4x/source_store/service.py:491-523 | a file that a batch makes keeps the role and language of its first write, wherever later renames take it |
| FileRoles.RevisionKeepsRoles | backend/n4x/source_store/service.py:456-530 | the same for a batch on a revision: its listing before and after |
| FileRoles.RevisionMakesFile | backend/n4x/source_store/service.py:456-530 | and for the files that such a batch makes |
| FileRoles.BatchGoesThroughIff | backend/n4x/source_store/service.py:479-554 | a batch goes through if and only if every change fits the listing before the batch and, when its turn comes, has its file or its content |
| FileRoles.RefusalMeans | backend/n4x/source_store/service.py:532-554 | which refusal a change meets: a conflict first, then a missing file, then a missing or a taken new path |
| FileRoles.FirstFaultDecides | backend/n4x/source_store/service.py:532-554 | the first change with a fault decides the refusal of the batch |
| FileRoles.LateFaultDecides | backend/n4x/source_store/service.py:491-523 | how a validated batch fails: by the first change that has lost its file, or the first write without content |
| SourceRuns.BatchKeeps | backend/n4x/source_store/service.py:456-530 | a batch succeeds exactly when the expected tree matches and the changes are valid; it then gives the specified files and touches no other revision |
| SourceRuns.PatchKeeps | backend/n4x/source_store/service.py:375-415 | patching succeeds exactly when the file exists with the expected content and the patch applies; only that file of that revision changes |
| SourceRuns.SameFilesSameStore | backend/n4x/source_store/service.py:581-635 | the store holds nothing but what the revisions show: equal trees and files mean equal stores |
| SourceRuns.InternTwice | backend/n4x/source_store/service.py:318-343 | interning twice is interning once |
| SourceRuns.ReopenThenIntern | backend/n4x/source_store/service.py:297-343 | reopening an interned revision and interning it again gives the store back |
| SourceRuns.SharedIffSameFiles | backend/n4x/source_store/service.py:318-343 | two interned revisions share a tree exactly when they show the same files |
| SourceRuns.EnsureWritableOthers | backend/n4x/source_store/service.py:297-315 | reopening one revision moves no other revision to another tree |
| SourceRuns.InternTreeOthers | backend/n4x/source_store/service.py:318-343 | interning one revision moves no other revision to another tree |
| SourceRuns.CreateFromParent | backend/n4x/system/applications.py:141-150 | a revision made from an interned parent shows the same files, and the invariant stays |
| SourceRuns.CreateFromDraft | backend/n4x/system/applications.py:141-150 | made from a parent whose tree is a draft, both revisions are on the one draft |
| SourceRuns.CreateKeepsIff | backend/n4x/system/applications.py:141-150 | creating from a parent keeps the invariant if and only if the tree of the parent is interned |
| SourceRuns.SharedDraftLeaks | backend/n4x/system/applications.py:141-150 | with a shared draft, a batch on the child changes the files of the parent |
| SourceRuns.CreateEmpty | backend/n4x/system/applications.py:151-152 | a revision without a parent shows no files, on the interned empty tree |
| SourceRuns.DiscardKeeps | backend/n4x/system/applications.py:158-173 | discarding keeps the invariant and every other revision |
| SourceRuns.CreateThenDiscard | backend/n4x/system/applications.py:141-173 | discarding a new revision gives back the store there was |
| SourceRuns.CreateThenDiscardOnDraft | backend/n4x/system/applications.py:141-173 | so it does when the parent shows a draft: the shared tree stays, as the parent owns it |
| SourceRuns.StepKeeps | backend/n4x/source_store/service.py:297-530 | each step keeps the invariant, and the files of every revision but its own |
| SourceRuns.RunKeeps | backend/n4x/source_store/service.py:297-530 | over every run: one tree per revision, unique paths, live contents, current hashes, private drafts, no orphans; a revision that no step names keeps its files |
| StoreLaws.StepDoes | backend/n4x/source_store/service.py:297-530 | what each operation makes of the revision that it names: the files it shows, the tree they are on, or nothing when the operation is refused |
| StoreLaws.BatchRefusedFor | backend/n4x/source_store/service.py:456-477 | what a batch on a revision is refused for: an unknown revision, another tree than the expected one, or its first fault |
| StoreLaws.PatchRefusedFor | backend/n4x/source_store/service.py:375-415 | what a patch is refused for: an unknown revision or path, another content than the expected one, or the patch itself |
| InternGc.Collector.PinnedActionRevisionIds | backend/n4x/graph/intern_gc.py:60-68 | the pinned ids are those of records in flight and of callback targets |
| InternGc.Collector.FindOrphans | backend/n4x/graph/intern_gc.py:46-57 | the loop lists exactly the interned nodes without a keeper and without a pin, each once |
| InternGc.Collector.DeleteInternedOrphans | backend/n4x/graph/intern_gc.py:35-68 | collection leaves exactly the nodes with a reason to stay - no interned kind, held by a surviving revision or tree, or an action revision that a callback route, an invocation or a job names - with the edges between them, and reports what it deleted; at most two rounds delete anything |
| InternGc.SurvivorsUnique | backend/n4x/graph/intern_gc.py:13-57 | there is one set of survivors |
| InternGc.AnyOrderLeavesSurvivors | backend/n4x/graph/intern_gc.py:35-43 | deleting orphans in any order, until there is none, leaves the same nodes |
| InternGc.SurvivesIffReached | backend/n4x/graph/intern_gc.py:13-57 | when tree edges only lead to contents, an interned node survives if and only if a walk over keeper edges from a revision reaches it, or it is pinned |
| InternGc.StaysIffReason | backend/n4x/graph/intern_gc.py:13-57 | a node survives if and only if it is of no interned kind, an action revision in flight, or held by an edge of a surviving revision or source tree |
| InternGc.PinnedSurvives | backend/n4x/graph/intern_gc.py:60-68 | a pinned action revision is never collected |
| InternGc.KeepersLoseNothing | backend/n4x/graph/intern_gc.py:35-57 | no edge of a surviving keeper is lost, so no listing changes |
| InternGc.LoopSurvives | backend/n4x/graph/intern_gc.py:46-57 | without the assumption on tree edges the statement fails: a tree with an edge to itself survives unreached |
| SourceCollection.CollectIsGraphCollection | backend/n4x/graph/intern_gc.py:35-57 | the collection of the source store is the graph collection on its nodes and edges |
| Bindings.RevisionBindings.FindNamed | backend/n4x/graph/bindings.py:185-203 | the loop gathers the bindings of a name: none, the one there is, or a refusal |
| Bindings.RevisionBindings.Replace | backend/n4x/graph/bindings.py:205-227 | the edge to the current target is removed unless it stays, and the new one made |
| Bindings.RevisionBindings.CopyEdges | backend/n4x/graph/bindings.py:165-175 | the edges of the listed types are copied, all of them; revisions of different kinds are refused |
| Bindings.NamedNeverFailsIff | backend/n4x/graph/bindings.py:185-203 | looking up never fails exactly when there is one binding per name |
| Bindings.NameStandsFor | backend/n4x/graph/bindings.py:185-203 | looking a name up gives nothing, its one target, or a refusal when it has two |
| Bindings.DeclareKeeps | backend/n4x/graph/bindings.py:185-227 | declaring keeps one binding per name; the name then stands for the new target and no other name changes |
| Bindings.CopyKeepsIff | backend/n4x/graph/bindings.py:165-175 | copying keeps one binding per name exactly when the child gives no copied name another meaning |
| Bindings.CopyToNew | backend/n4x/graph/bindings.py:165-175 | a new revision binds what its parent binds, for the copied types, and nothing else |
| TriggerRuntime.TriggerRuntime.JobByIdempotencyKey | backend/n4x/runtime/scheduler.py:567-571 | a job is found exactly when one has the key |
| TriggerRuntime.TriggerRuntime.AnyRunningJob | backend/n4x/runtime/scheduler.py:573-578 | the overlap check sees exactly the leased and running jobs of the trigger |
| TriggerRuntime.TriggerRuntime.RunTriggerRevision | backend/n4x/runtime/scheduler.py:121-176 | refused when paused; an existing key gives its job and changes nothing; else exactly one job is added, missed if and only if the policy skips and a stored job of the trigger is leased or running, and scheduled otherwise |
| TriggerRuntime.TriggerRuntime.ClaimJob | backend/n4x/runtime/scheduler.py:302-376 | claiming leases the job, makes its attempt, marks both running and fails them at once if the revision is gone |
| TriggerRuntime.TriggerRuntime.DeferIfPaused | backend/n4x/runtime/scheduler.py:378-380 | a job whose application was paused meanwhile is put back |
| TriggerRuntime.TriggerRuntime.CompleteJob | backend/n4x/runtime/scheduler.py:392-437 | the end of an execution is written from the copies it holds |
| TriggerRuntime.TriggerRuntime.HeartbeatJob | backend/n4x/runtime/scheduler.py:439-467 | a heartbeat extends both leases, and only for a running job of this owner |
| TriggerRuntime.TriggerRuntime.FailOrRetryJob | backend/n4x/runtime/scheduler.py:469-516 | the attempt is closed, and the job waits for a retry or has failed |
| TriggerRuntime.TriggerRuntime.RecoverExpiredLeases | backend/n4x/runtime/scheduler.py:198-212 | the loop recovers every expired lease, which is one simultaneous step |
| TriggerRuntime.TriggerRuntime.MarkMissedJobs | backend/n4x/runtime/scheduler.py:232-264 | with new ids: exactly the schedule triggers that are not paused and whose policy does not skip misfires get one missed job each, and no job there was changes |
| SchedulerProofs.DelayCapped | backend/n4x/runtime/scheduler.py:628-633 | a delay is base * 2^(attempt - 1), capped |
| SchedulerProofs.DelayMonotoneIff | backend/n4x/runtime/scheduler.py:628-633 | delays never shrink if and only if the base is not negative |
| SchedulerProofs.TotalDelayBounded | backend/n4x/runtime/scheduler.py:628-633 | over n retries the delays sum to at most n times the cap and at most base * (2^n - 1) |
| SchedulerProofs.RecordKeeps | backend/n4x/runtime/scheduler.py:518-565 | recording a job with a new id keeps the invariant |
| SchedulerProofs.ClaimKeeps | backend/n4x/runtime/scheduler.py:302-376 | a claim keeps the invariant: the attempt gets the next number |
| SchedulerProofs.CloseKeeps | backend/n4x/runtime/scheduler.py:392-437 | closing an execution keeps the invariant, whatever its outcome |
| SchedulerProofs.HeartbeatKeeps | backend/n4x/runtime/scheduler.py:439-467 | a heartbeat keeps the invariant |
| SchedulerProofs.RecoverKeeps | backend/n4x/runtime/scheduler.py:198-212 | recovery keeps the invariant |
| SchedulerProofs.StepKeeps | backend/n4x/runtime/scheduler.py:121-516 | every step of the machine keeps the invariant |
| SchedulerProofs.TerminalStays | backend/n4x/runtime/scheduler.py:295-516 | succeeded, failed and missed are never left |
| SchedulerProofs.RunKeeps | backend/n4x/runtime/scheduler.py:121-516 | over every fail-stop run: a job runs exactly when it holds a lease and has one live attempt, its current one; it waits exactly when a retry time is set, and has failed only with its attempts used up; attempts are numbered 1 to the count; the count is at most the allowed number plus the deferrals; one job per key |
| SchedulerProofs.StartsSound | backend/n4x/runtime/scheduler.py:36-48 | no jobs is a sound start |
| SchedulerProofs.RecoveryEndsLeases | backend/n4x/runtime/scheduler.py:198-212 | after recovery at a time no lease at or before it is left |
| JobLaws.FiringAdds | backend/n4x/runtime/scheduler.py:121-176 | from the records alone: a new key adds one job, missed exactly under an overlap that the policy skips, and no other record changes; a known key changes nothing |
| JobLaws.FireStep | backend/n4x/runtime/scheduler.py:121-176 | the same for a firing of the machine; while the application is paused nothing happens |
| JobLaws.ClaimStarts | backend/n4x/runtime/scheduler.py:302-376 | a claim of an unpaused application starts one execution on a new attempt with the next number; a gone revision fails it at once, with no execution left |
| JobLaws.ClaimLeases | backend/n4x/runtime/scheduler.py:302-358 | the leases of job and attempt end the configured time after the claim, and the runtime owns both |
| JobLaws.BeatExtendsIff | backend/n4x/runtime/scheduler.py:439-467 | a heartbeat moves both leases if and only if the stored job is running for this runtime on this attempt; else nothing changes |
| JobLaws.LateBeatExtendsIff | backend/n4x/runtime/scheduler.py:439-467 | the same for an execution that has lost its lease |
| JobLaws.RecoveryTakesIff | backend/n4x/runtime/scheduler.py:198-212 | recovery takes exactly the jobs whose lease has ended by then: each waits for a retry or has failed, and its attempt has expired |
| JobLaws.FailureIsRetriedIff | backend/n4x/runtime/scheduler.py:469-516 | a failed execution is due again if and only if an attempt is left, and exactly the delay of its attempt number later |
| JobLaws.RecoveryIsRetriedIff | backend/n4x/runtime/scheduler.py:198-212 | the same rule for a recovered job |
| JobLaws.RetryDueIff | backend/n4x/runtime/scheduler.py:178-196 | a waiting job can be claimed exactly from its retry time on |
| JobLaws.EndSteps | backend/n4x/runtime/scheduler.py:379-437 | an execution in flight ends by its outcome, and is put back before it starts exactly when its application is paused |
| LateReports.HeldIsUnreported | backend/n4x/runtime/scheduler.py:302-376 | the copy an execution holds is that of an unreported execution |
| LateReports.CopyStays | backend/n4x/runtime/scheduler.py:121-516 | and it stays so over every run until the execution reports, whoever recovers or claims the job meanwhile |
| LateReports.LateReportKeepsIff | backend/n4x/runtime/scheduler.py:379-437 | writing a kept copy back as a success, a failure or a deferral keeps the invariant and leaves terminal jobs alone if and only if the stored job is still on that attempt and not over; the code does not check this |
| LateReports.OtherCopyStays | backend/n4x/runtime/scheduler.py:379-437 | a late end that passes this check leaves every other kept copy that of an unreported execution |
| LateReports.LateBeatKeeps | backend/n4x/runtime/scheduler.py:439-467 | a late heartbeat always keeps the invariant and terminal jobs, and does nothing when the job has moved on |
| LateReports.LostRun | backend/n4x/runtime/scheduler.py:121-212 | from no jobs: fired, claimed, lease over, recovered - and the execution still has its copy |
| LateReports.LateReportReopens | backend/n4x/runtime/scheduler.py:392-437 | after that run, with one attempt allowed, the late report turns a failed job into a succeeded one |
| LateReports.LateDeferralReopens | backend/n4x/runtime/scheduler.py:378-381 | and a late deferral puts the failed job back to wait for a retry |
| LateReports.LateReportTakesOver | backend/n4x/runtime/scheduler.py:392-437 | with two attempts, the late report takes the job from the attempt that is on it, which is left live without a job and above the count |
| StaleClaims.StaleClaimKeepsIff | backend/n4x/runtime/scheduler.py:178-196 | a claim of a job that was found due before keeps the invariant and terminal jobs if and only if the job is still scheduled, or for a retry still waiting; the code does not look again |
| StaleClaims.StaleClaimRunsTwice | backend/n4x/runtime/scheduler.py:302-358 | a run in which two passes find one job due, and both executions are in flight on it |
| LateRuns.EventKeepsIff | backend/n4x/runtime/scheduler.py:121-516 | with late ends, late heartbeats and stale claims as events: one keeps the invariant, every kept copy and every terminal job if and only if it passes the check for its kind |
| LateRuns.CheckedRunKeeps | backend/n4x/runtime/scheduler.py:121-516 | over every run of such events that pass the two checks the invariant holds and terminal jobs stay, whenever claims are made and however late executions that have lost their lease write |
| UnitOfWork.GraphUnitOfWork.Enter | backend/n4x/graph/uow.py:76-84 | entering nests, or begins a transaction |
| UnitOfWork.GraphUnitOfWork.Exit | backend/n4x/graph/uow.py:86-114 | leaving marks a failure, pops one level, and at the outermost level commits, rolls back or raises |
| UnitOfWork.GraphUnitOfWork.Rollback | backend/n4x/graph/uow.py:123-135 | a rollback marks and pops a nested level, and drops the outermost one |
| UnitOfWork.GraphUnitOfWork.ExecWith | backend/n4x/graph/uow.py:76-114 | code in nested `with` blocks runs as specified, with exceptions passed on or swallowed |
| UnitOfWork.GraphUnitOfWork.Transactional | backend/n4x/graph/uow.py:156-176 | success is the effect of exactly one run, failure none; only a conflict starts another run, at most eight in all |
| UnitOfWork.OpenTransaction | backend/n4x/graph/uow.py:76-135 | while the transaction is open nothing is durable, and a failure anywhere inside is remembered |
| UnitOfWork.CommitsIff | backend/n4x/graph/uow.py:76-135 | for any nesting of calls the outermost exit commits all writes exactly when no exit inside failed, nothing was rolled back and the store accepts; else the durable state is as before |
| UnitOfWork.ExecInside | backend/n4x/graph/uow.py:86-114 | a failure inside shows in what the block raises or in the mark it leaves |
| UnitOfWork.OutermostBlock | backend/n4x/graph/uow.py:86-114 | an outermost block makes all its writes durable or none, and raises exactly in the second case |
| UnitOfWork.TryOutcome | backend/n4x/graph/uow.py:160-176 | what one run of a wrapped method raises does not depend on the store, and decides its effect |
| UnitOfWork.SwallowedConflictIsNotRetried | backend/n4x/graph/uow.py:96-113 | a conflict swallowed inside surfaces as the rollback mark, which is not retried |
| FrameCodec.LengthRoundTrip | backend/n4x/runtime/cypher_gateway.py:39-39 | every length below 2^32 is read back from its four bytes |
| FrameCodec.BytesRoundTrip | backend/n4x/runtime/cypher_gateway.py:55-55 | every four bytes are the length they are read as |
| FrameCodec.Channel.ReadExact | backend/n4x/runtime/cypher_gateway.py:44-51 | however the stream is split, the loop takes exactly the asked bytes, or fails at the end of the stream |
| FrameCodec.Channel.RecvMessage | backend/n4x/runtime/cypher_gateway.py:54-56 | one message is received as specified on the plain bytes |
| FrameCodec.Channel.RecvAll | backend/n4x/runtime/cypher_gateway.py:104-108 | reading until the connection fails gives the specified messages |
| FrameCodec.Channel.SendMessage | backend/n4x/runtime/cypher_gateway.py:36-41 | a message below 2^32 bytes adds its frame to the stream; a longer one is refused |
| FrameCodec.ReceivesFrame | backend/n4x/runtime/action_runner.py:109-112 | a frame gives its payload and consumes exactly its bytes |
| FrameCodec.ReceivedWasFramed | backend/n4x/runtime/action_runner.py:179-186 | what is received is what the consumed bytes frame, never another payload |
| FrameCodec.StreamArrives | backend/n4x/runtime/cypher_gateway.py:36-56 | any list of payloads arrives in order |
| FrameCodec.CutStreamArrives | backend/n4x/runtime/cypher_gateway.py:44-56 | a stream cut anywhere gives the messages that arrived whole, then an error |
| GatewayServer.Server.ServeOne | backend/n4x/runtime/cypher_gateway.py:105-121 | after each request the current handle of the connection is tracked, one that it no longer has is not, and the handles of other connections stay as they are |
| GatewayServer.Server.RunAndAudit | backend/n4x/runtime/cypher_gateway.py:298-342 | the statement and its record go to the open transaction; without one each commits by itself |
| GatewayServer.Server.HandleQuery | backend/n4x/runtime/cypher_gateway.py:277-296 | a query is refused, or runs in the transaction or in one of its own |
| GatewayServer.Server.HandleRequest | backend/n4x/runtime/cypher_gateway.py:190-245 | one request is answered as specified, with its effect on the store and on the connection |
| GatewayServer.Server.Handle | backend/n4x/runtime/cypher_gateway.py:97-122 | the handler serves the requests as specified, answers those without the token with an authentication error, makes nothing durable when none carries it, and leaves no transaction tracked |
| GatewayServer.GraphContext.Transaction | backend/n4x/runtime/action_runner.py:61-86 | whatever requests and replies are lost: durable is all its queries wrote if the requests that arrived end with an accepted commit, else nothing; it returns normally exactly when they do and the reply to the commit arrived; inside another transaction it raises |
| GatewayServer.ServedAppend | backend/n4x/runtime/cypher_gateway.py:104-121 | one more request on a connection that is still open adds exactly its own answer |
| CypherGateway.DurableExactly | backend/n4x/runtime/cypher_gateway.py:97-122 | for every connection: if it ends with an accepted commit or with its one query, durable is all its queries wrote; else what ran after its transaction was over, and nothing more |
| CypherGateway.AllOrNothingIff | backend/n4x/runtime/cypher_gateway.py:97-122 | a connection is all or nothing if and only if none of its queries ran after a commit that failed |
| CypherGateway.CommitsAtOnceIff | backend/n4x/runtime/cypher_gateway.py:298-342 | a query on a kept handle is durable at once exactly when its transaction is over |
| CypherGateway.FailedCommitThenQuery | backend/n4x/runtime/cypher_gateway.py:213-217 | concretely: after a failed commit the next query is durable although the transaction was lost |
| CypherGateway.NothingAfterTimeout | backend/n4x/runtime/cypher_gateway.py:268-275 | after a timeout every later request on the connection fails and nothing becomes durable |
| CypherGateway.PairedIffRecorded | backend/n4x/runtime/cypher_gateway.py:306-342 | every query that ran has exactly one audit record, next to it, exactly when no saving of a record failed |
| CypherGateway.RunKeepsPairs | backend/n4x/runtime/cypher_gateway.py:97-342 | however connections interleave, while no saving of a record fails the durable state stays a list of queries each with its record |
| CypherGateway.RunKeepsRecords | backend/n4x/runtime/cypher_gateway.py:97-342 | in every run, whatever fails: each durable record directly follows what its query did |
| GatewayTokens.AnsweredByToken | backend/n4x/runtime/cypher_gateway.py:190-204 | on every connection a request is answered with an authentication error if and only if it does not carry the configured token; it then commits nothing and leaves the transaction as it was |
| GatewayTokens.NothingWithoutToken | backend/n4x/runtime/cypher_gateway.py:97-204 | a connection none of whose requests carries the token makes nothing durable, and each is answered with that error |
| GatewayTokens.DurableByToken | backend/n4x/runtime/cypher_gateway.py:97-342 | in every run of any connections, whatever fails: each durable change was there before or is of a query that carried the token |
| GatewayTokens.QueryInTransaction | backend/n4x/runtime/cypher_gateway.py:277-342 | what a query in an open transaction answers and leaves pending, by its mode, its text and what fails |
| GatewayTokens.QueryOnItsOwn | backend/n4x/runtime/cypher_gateway.py:277-342 | a query without a transaction is durable with its record or not at all, and ends its connection |
| GatewayTokens.TransactionOps | backend/n4x/runtime/cypher_gateway.py:190-245 | beginning, committing and aborting: at most one transaction per connection, and only an open one ends |
| ActionPoolObjects.ActionPool.KillMatching | backend/n4x/runtime/action_pool.py:262-276 | the killing loops leave exactly the children that are not meant, in order |
| ActionPoolObjects.ActionPool.LruIdleLocked | backend/n4x/runtime/action_pool.py:247-255 | the search finds the first idle child released longest ago |
| ActionPoolObjects.ActionPool.ReserveLocked | backend/n4x/runtime/action_pool.py:152-174 | the first section of a checkout: closed, reused, full or spawning, with reaping and eviction before |
| ActionPoolObjects.ActionPool.FinishSpawn | backend/n4x/runtime/action_pool.py:175-185 | the reservation ends, and a spawned child joins the pool as busy |
| ActionPoolObjects.ActionPool.Release | backend/n4x/runtime/action_pool.py:187-198 | a child is kept idle, or killed and taken out |
| ActionPoolObjects.ActionPool.EvictRevision | backend/n4x/runtime/action_pool.py:200-206 | exactly the children of the revision are killed |
| ActionPoolObjects.ActionPool.EvictDataSpace | backend/n4x/runtime/action_pool.py:208-216 | exactly the children of the data space are killed |
| ActionPoolObjects.ActionPool.ReapLocked | backend/n4x/runtime/action_pool.py:262-271 | exactly the overdue idle children are killed |
| ActionPoolObjects.ActionPool.Shutdown | backend/n4x/runtime/action_pool.py:222-229 | the pool is closed and empty |
| ActionPool.FirstIdle | backend/n4x/runtime/action_pool.py:155-162 | the first idle living child of the key |
| ActionPool.OldestIdle | backend/n4x/runtime/action_pool.py:247-255 | the first of the idle children with the least release time |
| ActionPool.StepKeeps | backend/n4x/runtime/action_pool.py:147-276 | every section keeps the invariant |
| ActionPool.RunKeeps | backend/n4x/runtime/action_pool.py:147-276 | in every interleaving children plus reservations stay within a positive size, each busy child is held by exactly the one who asked for its key, and a closed pool has no idle child |
| ActionPool.EmptyAfterShutdown | backend/n4x/runtime/action_pool.py:222-229 | after a shutdown the pool is empty once no child is held and no spawn is under way |
| ActionPool.CheckoutGivesFree | backend/n4x/runtime/action_pool.py:155-165 | a reused child has the asked key, is alive, and was held by nobody |
| ActionPool.FullIff | backend/n4x/runtime/action_pool.py:166-172 | full is raised exactly when every place is taken and no child is idle, and then nothing changes |
| ActionPool.BusySurvive | backend/n4x/runtime/action_pool.py:152-174 | neither a checkout nor the reaper kills a busy child |
| ActionPool.MakesRoomByOldest | backend/n4x/runtime/action_pool.py:168-173 | room is made by killing exactly one idle child, one released longest ago |
| PoolLaws.EvictionByRevision | backend/n4x/runtime/action_pool.py:200-206 | eviction by revision kills the children of that revision, busy or idle, and no others |
| PoolLaws.EvictionByDataSpace | backend/n4x/runtime/action_pool.py:208-216 | eviction by data space kills the children of that data space and no others |
| PoolLaws.ReaperKills | backend/n4x/runtime/action_pool.py:262-271 | the reaper kills exactly the children that have been idle for the configured time |
| PoolLaws.CheckoutClears | backend/n4x/runtime/action_pool.py:234-245 | a checkout first kills the overdue children and the idle ones of its revision and data space on another interpreter, and no others |
| PoolLaws.CheckoutIs | backend/n4x/runtime/action_pool.py:152-174 | a checkout of an open pool reuses a child if and only if one of its key is idle, alive and not overdue |
| PoolLaws.CheckoutLeaves | backend/n4x/runtime/action_pool.py:152-174 | what a checkout leaves: all other children but those it clears, the reused one busy |
| PoolLaws.ReleaseKeepsIff | backend/n4x/runtime/action_pool.py:187-198 | a released child stays, idle from now on, if and only if that is asked for, the pool is open and keeps children, and it is alive; no other child changes |
| PoolLaws.SpawnsJoin | backend/n4x/runtime/action_pool.py:175-185 | a spawned child joins as busy for the one who asked; a failed spawn only gives its place back |
| ActionSupervisorObjects.ActionSupervisor.RegisterLocked | backend/n4x/runtime/action_supervisor.py:124-138 | admission to the registry refuses after a close and under an overlap |
| ActionSupervisorObjects.ActionSupervisor.SubmitAdmitted | backend/n4x/runtime/action_supervisor.py:104-163 | from the permit on: the invocation is in flight, or everything is given back |
| ActionSupervisorObjects.ActionSupervisor.Submit | backend/n4x/runtime/action_supervisor.py:86-163 | a submission is accepted exactly when the supervisor is open, has a permit, nothing fails and the policy allows it; a refusal changes nothing but a registry entry another had under its id |
| ActionSupervisorObjects.ActionSupervisor.ReleaseCapacity | backend/n4x/runtime/action_supervisor.py:316-317 | the first part of a completion gives the permit back |
| ActionSupervisorObjects.ActionSupervisor.ForgetLocked | backend/n4x/runtime/action_supervisor.py:318-321 | the second one forgets what is kept under the id |
| ActionSupervisorObjects.ActionSupervisor.Cancel | backend/n4x/runtime/action_supervisor.py:178-202 | a queued invocation is cancelled, a running one is asked to stop, an unknown one is left |
| ActionSupervisorObjects.ActionSupervisor.Shutdown | backend/n4x/runtime/action_supervisor.py:230-233 | admission closes and queued futures are cancelled |
| ActionSupervisor.PermitsKept | backend/n4x/runtime/action_supervisor.py:86-163 | each step keeps free permits plus submissions in flight equal to workers plus queue |
| ActionSupervisor.PermitsKeptInRun | backend/n4x/runtime/action_supervisor.py:86-163 | over every run, with any ids: each permit is given back exactly once |
| ActionSupervisor.StepKeeps | backend/n4x/runtime/action_supervisor.py:86-163 | each step with fresh ids keeps the registry, the futures and the phases in agreement |
| ActionSupervisor.RunKeeps | backend/n4x/runtime/action_supervisor.py:86-163 | over every run with fresh ids an action under `reject_if_running` never has two invocations in flight |
| ActionSupervisor.QuietSupervisor | backend/n4x/runtime/action_supervisor.py:316-321 | when nothing is in flight all permits are free, and nothing is registered or can be looked up |
| ActionSupervisor.RefusedDuplicateIff | backend/n4x/runtime/action_supervisor.py:124-155 | while an action has one invocation in flight, a refused submission lets the next one overlap if and only if it names that id |
| ActionSupervisor.AcceptedDuplicateIff | backend/n4x/runtime/action_supervisor.py:124-138 | an accepted submission lets the next one overlap if and only if it names that id and is of another action |
| SubmissionLives.RegistryRefusesIff | backend/n4x/runtime/action_supervisor.py:124-138 | the registry refuses if and only if the supervisor was closed meanwhile or an entry of a rejecting action is there |
| SubmissionLives.Admission | backend/n4x/runtime/action_supervisor.py:104-163 | the path of a submission that nothing refuses, from its permit to its callback |
| SubmissionLives.LateFailure | backend/n4x/runtime/action_supervisor.py:139-163 | a submission that fails after it was registered gives back its permit and its entry: all is as before |
| SubmissionLives.Completion | backend/n4x/runtime/action_supervisor.py:316-321 | a completion gives back the permit, then all that is kept under the id |
| SubmissionLives.Closing | backend/n4x/runtime/action_supervisor.py:230-233 | closing stops admission; the executor then ends the futures that have not started and no others |
| ApplicationStore.ApplicationStore.FindDraft | backend/n4x/system/applications.py:198-206 | the search finds the one draft |
| ApplicationStore.ApplicationStore.CopyEdges | backend/n4x/graph/bindings.py:165-175 | the bindings of the parent are added to those of the child |
| ApplicationStore.ApplicationStore.CreateRevision | backend/n4x/system/applications.py:105-153 | an existing draft that serves is returned, another parent is refused, else the next number is created with the bindings of the parent |
| ApplicationStore.ApplicationStore.DiscardRevision | backend/n4x/system/applications.py:156-173 | only a draft is discarded, with its bindings |
| ApplicationStore.ApplicationStore.Freeze | backend/n4x/system/activation.py:204-213 | a draft becomes validating; another state is refused |
| ApplicationStore.ApplicationStore.Reject | backend/n4x/system/activation.py:246-254 | a validating revision becomes rejected, any other stays |
| ApplicationStore.ApplicationStore.MovePointer | backend/n4x/system/activation.py:274-307 | statuses, pointer and edge move together, under the check of the current edge |
| ApplicationStore.ApplicationStore.ActivateRevisionSet | backend/n4x/system/activation.py:335-352 | the loop makes the bound definitions of a kind active |
| ApplicationStore.ApplicationStore.ActivateEdges | backend/n4x/system/activation.py:274-333 | the switch is all of it or, as the transaction rolls back, nothing |
| ApplicationStore.ApplicationStore.Rollback | backend/n4x/system/activation.py:256-272 | only a revision that has been active can be rolled back to |
| ApplicationsProofs.NumbersAreExact | backend/n4x/system/applications.py:123-126 | the numbers in use are exactly 1 to n, so the next id overwrites no live revision |
| ApplicationsProofs.AtMostOneDraft | backend/n4x/system/applications.py:198-206 | there is at most one draft, and it is the last revision |
| ApplicationsProofs.CreateKeeps | backend/n4x/system/applications.py:105-153 | creating keeps the invariant |
| ApplicationsProofs.DeclareKeeps | backend/n4x/system/definitions.py:119-138 | declaring on a draft keeps the invariant while definitions are not shared between applications |
| ApplicationsProofs.DiscardKeeps | backend/n4x/system/applications.py:156-173 | discarding keeps the invariant |
| ApplicationsProofs.SwitchKeeps | backend/n4x/system/activation.py:274-352 | switching keeps the invariant |
| ApplicationsProofs.StepKeeps | backend/n4x/system/activation.py:204-352 | every operation keeps the invariant |
| ApplicationsProofs.RunKeeps | backend/n4x/system/activation.py:204-352 | over every run: numbers 1 to n, at most one draft, pointer, edge and active status name one revision, and every definition it binds is active at that binding |
| ApplicationsProofs.CreateTwice | backend/n4x/system/applications.py:113-122 | asking again gives the same draft and changes nothing |
| ApplicationsProofs.CreateThenDiscard | backend/n4x/system/applications.py:105-173 | discarding a new draft undoes its creation |
| ApplicationsProofs.SharedDefinitionsIff | backend/n4x/system/activation.py:335-352 | with definitions shared between applications a switch keeps all bound definitions active exactly when no other active revision binds one of them elsewhere |
| ApplicationsProofs.RollbackUndoesSwitch | backend/n4x/system/activation.py:256-352 | rolling back undoes a switch but for two things: the other revision is superseded, and definitions only it binds stay where they are |
| ApplicationLaws.CreationAdds | backend/n4x/system/applications.py:105-153 | without a draft: refused if and only if another parent is asked for than a revision of the application; else one draft with the next number on the asked parent, or on the active revision by default, with its bindings and nothing else changed |
| ApplicationLaws.CreationFindsDraft | backend/n4x/system/applications.py:113-122 | with a draft, asking gives that draft if it serves and a refusal otherwise, and changes nothing |
| ApplicationLaws.DeclarationBinds | backend/n4x/system/definitions.py:119-138 | declaring works on a draft alone, binds one name and makes the record of a definition that has none |
| ApplicationLaws.SwitchSucceedsIff | backend/n4x/system/activation.py:274-333 | a switch succeeds if and only if revision, application, active revision and bound definitions are known and the stored edge agrees with the pointer |
| ApplicationLaws.SwitchFailures | backend/n4x/system/activation.py:274-352 | which failure a switch meets, in the order in which they are looked for |
| ApplicationLaws.SwitchDoes | backend/n4x/system/activation.py:274-352 | statuses, pointer, edge, bound definitions and triggers after a switch, record by record, and that nothing else changes |
| ApplicationLaws.SwitchActivates | backend/n4x/system/activation.py:335-352 | each definition that the revision binds is active at that binding, by record and by edge, and no other definition changes |
| ApplicationLaws.StatusMoves | backend/n4x/system/activation.py:204-254 | which status freezing, rejecting and reopening need and set |
| ActivationService.CheckpointService.Create | backend/n4x/system/checkpoints.py:38-182 | a checkpoint holds the pointer, statuses and definitions of the application, and its production data exactly at the level with data; restored at once it gives exactly the store back |
| ActivationService.CheckpointService.RestoreStatuses | backend/n4x/system/checkpoints.py:204-210 | the loop resets exactly the revisions that the snapshot names |
| ActivationService.CheckpointService.RestoreDefinitions | backend/n4x/system/checkpoints.py:215-228 | the loop points the definitions and their edges back, and raises for one that is gone |
| ActivationService.CheckpointService.DeleteData | backend/n4x/system/checkpoints.py:233-240 | exactly the production objects and relations of the application are deleted |
| ActivationService.CheckpointService.SaveData | backend/n4x/system/checkpoints.py:241-248 | objects are written back, then the relations whose ends exist |
| ActivationService.CheckpointService.Restore | backend/n4x/system/checkpoints.py:113-131 | a restore is all of it or, when it raises, nothing |
| ActivationService.ActivationService.GiveUp | backend/n4x/system/activation.py:190-195 | the failure path restores the checkpoint, if it can, and rejects the revision |
| ActivationService.ActivationService.Activate | backend/n4x/system/activation.py:160-202 | activation with its phases and every way to fail, before and after the switch, as specified |
| ActivationLaws.ActivationSucceedsIff | backend/n4x/system/activation.py:160-202 | an activation succeeds if and only if the revision is a draft or under validation, artifacts, migrations and the eviction that is called for do not fail, and the switch is possible |
| ActivationLaws.ActivationFailures | backend/n4x/system/activation.py:160-213 | which failure an activation reports, by the order of its phases |
| ActivationLaws.ActivationDoes | backend/n4x/system/activation.py:160-202 | a successful activation is the switch, with exactly the production data that its migrations left |
| Checkpoints.RestoreUndoes | backend/n4x/system/checkpoints.py:184-248 | restoring undoes any change since the capture to pointer and edge, statuses, definitions and their edges, and production data, and leaves other applications, other data spaces and later revisions alone |
| Checkpoints.RevisionLevelLeavesData | backend/n4x/system/checkpoints.py:113-131 | restoring a checkpoint of the revision level leaves objects and relations exactly as they are, and undoes pointer, edge, statuses and definitions all the same |
| Checkpoints.DataComesBackIff | backend/n4x/system/checkpoints.py:113-131 | production data goes back to what was captured, whatever was done to it, if and only if the checkpoint is of the data level |
| ActivationLaws.RestoreAtItem | backend/n4x/system/checkpoints.py:230-248 | item by item: the captured data for production items of the application, and everything else as it is now |
| Checkpoints.RestoreUndoesMigration | backend/n4x/system/checkpoints.py:143-248 | whatever was done to the production data since, restoring gives exactly the captured graph |
| Checkpoints.FailedActivationRestores | backend/n4x/system/activation.py:160-254 | an activation with declared mutation that fails before the switch changes nothing but the status of its revision, whatever the migrations did |
| Checkpoints.FailedActivationIff | backend/n4x/system/activation.py:160-254 | an activation that fails before the switch changes nothing but the status of its revision if and only if its migrations changed no data, or declared it and the restore works; otherwise the data they left stays |
| Checkpoints.RestoreUndoesSwitch | backend/n4x/system/checkpoints.py:184-248 | after a migration and a switch, restoring gives exactly the captured graph but for a disabled application, whose triggers stay paused |
| Checkpoints.FailedEviction | backend/n4x/system/activation.py:177-202 | an activation whose eviction fails after the switch is undone if it has a checkpoint that can be restored; otherwise it stands, though it reports a failure |
| Checkpoints.OneActiveAfterRestoreIff | backend/n4x/system/checkpoints.py:204-210 | after a restore pointer, edge and status agree exactly when no revision outside the snapshot is active |
| Integrity.GraphIntegrityService.RepairGraphEdges | backend/n4x/graph/integrity.py:536-556 | the loops of the repair compute the specified edges |
| Integrity.GraphIntegrityService.ValidateEdges | backend/n4x/graph/integrity.py:492-523 | the edge checks report exactly the missing, multiple and misplaced edges |
| Integrity.GraphIntegrityService.ReachableFrom | backend/n4x/graph/integrity.py:1049-1057 | the worklist finds exactly the nodes that a path from the root leads to |
| Integrity.GraphIntegrityService.ValidateReachability | backend/n4x/graph/integrity.py:1025-1072 | unreachable nodes are errors, or warnings when they are interned; without the root nothing is checked |
| Integrity.RepairTargets | backend/n4x/graph/integrity.py:536-556 | for each source and type: the targets that repair leaves, whatever there was |
| Integrity.RepairMeetsPlanIff | backend/n4x/graph/integrity.py:483-556 | after repair the edge checks find no error in the same plan if and only if that plan is consistent: live ends, one target per source for singleton types, pointers and edges that do not contradict each other |
| Integrity.RepairTwice | backend/n4x/graph/integrity.py:536-556 | a second repair with the same plan changes nothing, whatever the plan |
| Integrity.RebuiltReadTargets | backend/n4x/graph/integrity.py:653-674 | what repair leaves of the edges that the plan reads from the store: one live source tree where there is one, all others untouched |
| Integrity.RepairHealsIff | backend/n4x/graph/integrity.py:536-674 | repair, then checks against the plan built anew: no error if and only if the records are consistent and every dead target read from the store could be replaced |
| Integrity.RebuiltRepairTwice | backend/n4x/graph/integrity.py:536-674 | a second repair, with the plan built anew, changes nothing |
| Integrity.DropsLiveEdgeIff | backend/n4x/graph/integrity.py:536-674 | repair drops a live edge that it has read if and only if a revision has two live source trees; no check reports it |
| Integrity.GraphIntegrityService.RepairAndValidate | backend/n4x/graph/integrity.py:536-674 | the whole operation: build, repair, build again, check; it reports no edge error exactly under that condition |
| Integrity.RepairLeavesOthers | backend/n4x/graph/integrity.py:536-556 | edges that the plan does not mention stay, but for the legacy types |
| Integrity.ChecksPassIff | backend/n4x/graph/integrity.py:492-523 | the edge checks pass if and only if every planned edge is there between live nodes, alone when its type is a singleton, and each active pointer has its one edge or none |
| Integrity.ClosedIsReachable | backend/n4x/graph/integrity.py:1049-1057 | a set that is closed under edges, holds the root and is reachable is what is reachable |

## Left out

- Text of errors, the nearest-line hints and the pieces of hunks quoted in them: only which error is raised is modelled.
- Line separators other than newline and carriage return that Python's `splitlines` knows, and the details of the hunk
  header pattern: a hunk header is one case of a datatype with an optional start.
- SHA-256, JSON, base64 and Fernet: digests and encodings are free constructors, so they are injective; collisions and
  malformed JSON are not part of this model.
- EditScripts.RenderedScriptGivesTarget: takes a patch as a list of lines, each change being one of them; a change text
  with a line end inside is no line of any patch text.
- Sizes, MIME types, timestamps and creation times of records; lists of written files that the store methods return;
  `create_working_tree`, searching and reading ranges of files.
- SourceStore.SourceStore.CreateRevision: copies the tree edge only; the bindings of definitions are modelled by
  `Bindings` and `ApplicationStore`, their collection by `InternGc`.
- SourceStore.SourceStore.DeleteInternedOrphans: the store class collects trees and contents; pinned action revisions
  and the other labels are in `InternGc.Collector`.
- ApplicationStore.ApplicationStore.CreateRevision: creation times are not modelled; `max` over the drafts is the one
  draft, as there is at most one.
- A revision with two bindings of one name: `Applications` holds bindings as a map, and `Bindings` proves that the
  operations never make two.
- Whether the interned record a definition points at still exists when a checkpoint is restored; the edge is modelled
  as made.
- The choice of migrations to run, by comparing with the parent, and the check whether one declares a mutation: a
  parameter of the activation plan. Validation reports are left out.
- SchedulerProofs.RunKeeps: assumes that a job is claimed in the step that finds it due, and that an execution whose
  lease was recovered never reports later; the code establishes neither. `LateRuns.CheckedRunKeeps` drops both,
  with the exact checks that the code would need in their place. Overlap exclusion and the liveness of jobs
  left in `scheduled` are not claimed, as the code does not provide them.
- Which action revision and which application revision a job is pinned to, its input and its edges to invocations.
- The asynchronous commit of the graph driver: transactions are serialised, and a statement that fails has no effect.
- CypherGateway.RunKeepsPairs: takes runs in which no saving of an audit record fails; `PairedIffRecorded` says what
  such a failure does to a connection, and `RunKeepsRecords` what holds in all runs. The three edges of an audit
  record are one change with it.
- A gateway transaction that fails to begin, and a rollback of the store's own transaction that itself raises.
- Delays between retries of a transaction and the order in which threads get the lock of the pool.
- ActionPoolObjects.ActionPool.ReserveLocked: spawning runs between this section and `FinishSpawn`; the process, its
  logs and its gateway session are not part of this model, and times are whole numbers.
- ActionSupervisorObjects.ActionSupervisor.Cancel: the status saved for a cancelled invocation is left out, as is all
  that is persisted about invocations, running an action, its heartbeat and its logs.
- Bindings.RevisionBindings.Replace: the collection that follows it is `InternGc.Collector.DeleteInternedOrphans`, and
  is not called here.
- ApplicationStore.ApplicationStore.Freeze: the interning of the tree that follows is `SourceStore.SourceStore.InternTree`;
  this graph holds no source trees, so nothing is said about the tree of a revision that is rejected later.
- Integrity.GraphIntegrityService.RepairAndValidate: the part of the plan that comes from the records is a parameter;
  the declaration tables are left out, but that none of their edges is of a type read from the store.
- The checks of application relations, experience references, source ownership and surfaces in the validation report.
- Experiences and systems, packages, blueprints, data spaces, secrets, HTTP, MCP tools, OAuth, the command line, the
  reverse proxy and Surface builds: they mostly repeat what is modelled here or are input and output.
