# A verified model of the delivery control plane

The repository is a control plane for evidence-gated code delivery. This project
models its cores in Dafny and proves what they promise over whole runs.

| files | what they model |
|---|---|
| `FileTree`, `RollbackSpec`, `Rollback`, `DeliverySpec`, `DeliveryConditions`, `Staging`, `Recovery`, `Promotion` | crash-safe delivery of an approved candidate: a file tree on which every system call may fail or be the last before a crash, the write-ahead journal, staging, installing, rolling back, recovering, and the promotion handler with its store steps |
| `Store`, `StoreRuns`, `Workflow`, `WorkflowHistory`, `Task`, `TaskHistory` | the command store with its deduplication table, event log and delivery reservations; the workflow and task state machines |
| `Query` | breadth-first search over the code graph with depth and size limits |
| `Dag`, `RelativePath` | validation and sorting of task graphs, write scopes |
| `AdmissionSpec`, `AdmissionTerms`, `AdmissionFairness`, `Admission` | the fair admission queue, in builds with and without the pop inside `debug_assert_eq!` |
| `FrameSpec`, `Frame` | the IPC frame format and both of its decoders |
| `LeaseSpec`, `LeaseTerms`, `Lease` | task leases |
| `Bytes`, `Sorting`, `Canonical`, `Records`, `Hashing`, `Manifests`, `Requests`, `Ledger` | canonical byte encodings, digests and the hash chain |
| `IndexSpec`, `Index` | the incremental code index and its workers |
| `LicenseSpec`, `License` | the license-expression parser |
| `Wrappers`, `Ordering`, `FileKinds` | helpers |

Objects whose methods change fields are classes; each method is proved against a
function on values, and the properties are lemmas about that function over runs.
A system call of the file tree takes its verdict (pass, fail, stop) from a script,
so that a theorem over all scripts covers every placement of faults and crashes.
SHA-256 is an uninterpreted function; where two contents must not collide, the
contract says which, and for the ledger the conclusion exhibits the collision.
Answers of Git, of the resource controller and of the clock are parameters.

## Findings

Five properties that the design suggests do not hold of the code as it stands.
Each has a lemma with a concrete input and another that says exactly when the
property holds.

1. *A failed hash during rollback.* `matches_snapshot_cap` treats an error while
   reading a file as "does not match" (crates/workflowd/src/candidate.rs:1157-1166), so a rollback that
   cannot hash an untouched original moves it aside to its `concurrent-i` path and
   still reports success. `Recovery.OneFailedHashLosesThePath` is the smallest such
   run; `Recovery.RollbackRestoresExactlyWhenReadable` is the exact condition. The
   theorem over runs assumes that these reads do not fail; every other call may.
2. *Nested scopes in the index.* The store deletes the manifest rows of a scope with
   `LIKE 'scope/%'` (crates/workflow-code-intel/src/graph/store.rs:433-438), which
   also hits nested directories and ignores case; a file in a directory called `root` is
   hit by nothing. After a change in `s`, deleting the only file of `s/t` therefore leaves
   its facts in the index (`IndexSpec.NestedScopeGoesStale`). A run fails if and only if the
   scope `root` is affected while a file in a directory called `root` still exists and keeps
   its manifest row (`IndexSpec.RunFailsWhen`). In `IndexSpec.RootDirectoryFails` a changed
   `root/x` fails the run, and once it is deleted the next run succeeds with a stale row.
   `IndexSpec.ManifestIsRebuilt` is the exact condition for one run, `IndexSpec.FlatIsExact`
   the one over runs: every sequence of changes within given paths ends as a rebuild would
   if and only if no scope sweeps another's files and each sweeps its own.
3. *Licenses outside the grammar.* The parser takes `WITH` for a license name and any
   token for an exception (scripts/ci/check-licenses.ts:74-85), so `MIT OR WITH` is allowed
   (`LicenseSpec.AcceptedOutsideTheGrammar`); `LicenseSpec.AcceptedInGrammar` is the
   exact condition.
4. *Malformed frame streams.* Frames completed in the call that meets a bad header are
   dropped, so what is delivered before the error depends on the cut
   (`FrameSpec.MalformedStreamsDependOnTheCut`). `FrameSpec.NothingLostMeans` is the exact
   condition: no frame is lost if and only if the stream has none, or some cut falls at
   the start of the refused header or inside it. `FrameSpec.CutsDoNotMatter` states what
   no cut changes: the error, and that what is delivered is a beginning of the frames.
5. *Missing directories.* Missing parents of a file are created deepest first, each by a
   plain `create_dir` (crates/workflowd/src/candidate.rs:693-718), so a delivery that adds
   `a/b/c` to a tree without `a` fails and is rolled back on every attempt
   (`DeliveryConditions.TwoLevelsAreTooMany`). `Promotion.FirstAttempt` has the exact condition
   as part of when an undisturbed attempt succeeds: each directory above a file, or the one
   above that, is there or stands above an earlier file of the manifest.

## Model

| member | source | states |
|---|---|---|
| FileTree.Disk.Rename | crates/workflowd/src/candidate.rs:662-664 | one rename either happens in full, replacing the target, or leaves the tree as it was; a crash may strike on either side of it |
| FileTree.Disk.Link | crates/workflowd/src/candidate.rs:728-731 | a hard link never replaces an existing file |
| RollbackSpec.RollbackKeepsForeignContent | crates/workflowd/src/candidate.rs:772-873 | for one entry, of every file at its path, backup or concurrent path before a rollback step a copy of equal digest and mode still stands at one of them after it, unless it is the entry's approved file |
| Rollback.PreserveConcurrent | crates/workflowd/src/candidate.rs:1183-1200 | foreign content moves to its free concurrent path, never over another file; a crash in between leaves it at both |
| Rollback.ClearDestination | crates/workflowd/src/candidate.rs:780-810 | one turn of the first loop: originals stay, approved files go, everything else moves aside; interrupted turns leave a state in between |
| Rollback.RestoreBackup | crates/workflowd/src/candidate.rs:828-868 | one turn of the last loop: a matching backup returns to its path and only then goes; a changed backup or a recreated file is kept and is an error |
| Rollback.ByDepth | crates/workflowd/src/candidate.rs:778-779 | the order visits every entry once, shallow paths first |
| Rollback.ClearAll | crates/workflowd/src/candidate.rs:780-810 | the whole first loop, entry by entry, and nothing outside the journal's paths changes |
| Rollback.RestoreAll | crates/workflowd/src/candidate.rs:828-868 | the whole last loop, entry by entry, and nothing outside the journal's paths changes |
| Rollback.RollbackPayload | crates/workflowd/src/candidate.rs:772-873 | from any tree: every entry is somewhere on its way at any crash, success means every entry could complete, is rolled back, and journal and marker are gone; without faults and obstructing directories it succeeds whenever every entry can complete |
| Rollback.ForeignContentSurvives | crates/workflowd/src/candidate.rs:772-873 | from an arbitrary tree, whether rollback succeeds, fails or crashes, a file at a journal path, backup or concurrent path keeps a copy of equal digest and mode at one of the three, unless it is the approved file of that entry |
| DeliverySpec.RestoredFiles | crates/workflowd/src/candidate.rs:828-868 | every entry back in its original slot and nothing else touched means the original file map |
| DeliverySpec.ApprovedFilesInPlace | crates/workflowd/src/candidate.rs:1093-1109 | every entry in its approved slot and nothing else touched means the approved file map |
| DeliveryConditions.OneLevelIsEnough | crates/workflowd/src/candidate.rs:693-718 | in a tree of directories it is enough that no file lacks more than the last directory above it |
| DeliveryConditions.TwoLevelsAreTooMany | crates/workflowd/src/candidate.rs:693-718 | the concrete manifest: a file two levels below what is there cannot be delivered, one level below it can |
| Staging.VerifyPromoted | crates/workflowd/src/candidate.rs:382-421 | true exactly when every manifest entry stands in the tree as the payload has it |
| Staging.ValidateDestination | crates/workflowd/src/candidate.rs:1215-1245 | undisturbed it succeeds exactly when no prefix of the path is a file that is not about to be deleted |
| Staging.ValidatePreimage | crates/workflowd/src/candidate.rs:574-618 | undisturbed it succeeds exactly when every entry's base is what Git says it was |
| Staging.CaptureJournal | crates/workflowd/src/candidate.rs:875-921 | the journal records digest, mode and kind of every original; undisturbed it succeeds on a tree that agrees with Git and has no file above an entry |
| Staging.CapturedFromTree | crates/workflowd/src/candidate.rs:875-921 | a journal captured from the tree describes the delivery that starts there |
| Staging.StageAll | crates/workflowd/src/candidate.rs:633-644 | every incoming file is written beside its destination; stopped anywhere, the delivery is still pending; undisturbed it succeeds exactly when no file stands above an entry |
| Staging.BackUpAll | crates/workflowd/src/candidate.rs:647-692 | every original has moved to its backup, checked again after the move; stopped anywhere, the delivery is still pending; undisturbed it succeeds when no file stands above an entry |
| Staging.MoveToBackup | crates/workflowd/src/candidate.rs:659-682 | success means the file moved was the original of the journal; otherwise it goes back |
| Staging.CreateParents | crates/workflowd/src/candidate.rs:693-718 | undisturbed it succeeds exactly when every parent that is missing can be created in its turn, deepest first; then every file has its directory; no file changes |
| Staging.InstallAll | crates/workflowd/src/candidate.rs:719-752 | every approved file is linked in without clobbering and its incoming copy removed; stopped anywhere, the delivery is still pending; undisturbed it succeeds when every file has its directory |
| Staging.Install | crates/workflowd/src/candidate.rs:646-758 | success means every entry is installed and verified; undisturbed it succeeds exactly when the parents can be created |
| Recovery.PendingRollsBack | crates/workflowd/src/candidate.rs:772-873 | a pending delivery can always be rolled back; in the middle it stays pending, at the end the file map is the original one |
| Recovery.CleanupDelivery | crates/workflowd/src/candidate.rs:1093-1109 | backups and incoming files go, then the journal, then the marker; stopped anywhere, the delivery is still committed |
| Recovery.CommittedVerifies | crates/workflowd/src/candidate.rs:382-421 | a committed delivery always verifies as promoted, so recovery does not refuse it |
| Recovery.Recover | crates/workflowd/src/candidate.rs:1002-1039 | keeps the disk in a recoverable state whatever happens; success leaves nothing to recover; with no fault and the expected digest it succeeds; with another digest it refuses and changes nothing |
| Recovery.ApplyStaged | crates/workflowd/src/candidate.rs:620-770 | success means everything is installed; failure or crash leaves the delivery pending or rolled back; undisturbed it succeeds or, where the parents cannot be created, is rolled back for good |
| Recovery.PublishJournal | crates/workflowd/src/candidate.rs:923-952 | the journal appears as a whole or not at all and replaces no other |
| Recovery.Commit | crates/workflowd/src/candidate.rs:564-571 | the marker decides: before it the delivery is pending, after it committed; undisturbed it always succeeds |
| Recovery.PromotedIsApproved | crates/workflowd/src/candidate.rs:382-421 | a settled tree that verifies as promoted is the approved tree |
| Recovery.RollbackRestoresExactlyWhenReadable | crates/workflowd/src/candidate.rs:1157-1166 | a completed rollback restores the original file map if and only if no failed hash hit an entry whose original was in its place |
| Recovery.OneFailedHashLosesThePath | crates/workflowd/src/candidate.rs:783-790 | the concrete slot: one failed hash moves an untouched original away and the rollback of the entry completes |
| Promotion.ApplyPayload | crates/workflowd/src/candidate.rs:496-572 | recover, check, bind, publish, stage, install, commit: at every point the disk is recoverable and a journal on disk has its digest in the reservation row; an undisturbed call settles the tree and succeeds, once committed, exactly when there is a digest to deliver under, and before exactly when the tree can be delivered from or is already as approved |
| Promotion.PrepareJournal | crates/workflowd/src/candidate.rs:549-555 | the digest is bound in the store before the journal is published |
| Promotion.PromoteBound | crates/workflowd/src/candidate.rs:326-372 | success leaves the approved file map and the journal's digest in the row; once committed, an undisturbed call succeeds exactly when HEAD matches and there is a digest to deliver under |
| Promotion.ReserveAndPromote | crates/workflowd/src/lifecycle.rs:580-634 | reserves exactly when the row is free for this delivery, and promotes under it; once committed, an undisturbed promotion succeeds exactly when HEAD matches and a digest is there |
| Promotion.ReleaseUnlessRecoverable | crates/workflowd/src/lifecycle.rs:634-660 | after a failure the reservation goes only when no journal or marker is left, and then, undisturbed, it does go |
| Promotion.PromoteCandidate | crates/workflowd/src/lifecycle.rs:519-701 | in every outcome journal binding and recoverability are kept and the store has seen only its own calls; success means approved files, a freed reservation and a workflow completed with this candidate, bound and at its HEAD; an unbound candidate changes nothing; undisturbed, before and after the commit marker, the exact conditions of success, and failure leaves nothing to recover and no row |
| Promotion.FirstAttempt | crates/workflowd/src/lifecycle.rs:519-701 | an undisturbed first attempt that the store lets be recorded succeeds exactly when Git agrees with the tree, no file stands above an entry and the parents can be created, or the tree already is as approved; then the approved file map is in place and the workflow completed once, else the file map is as it was; nothing is left to recover and the row is free |
| Promotion.ConcludeDelivery | crates/workflowd/src/lifecycle.rs:661-701 | delivers a waiting workflow, or frees the row of one already delivered; undisturbed it succeeds exactly when the workflow awaits this candidate and its key is unused or it is completed |
| Promotion.CompletedStays | crates/workflow-store/src/workflows.rs:21-207 | no sequence of store calls changes a completed workflow |
| Promotion.DeliveryRun | crates/workflowd/src/lifecycle.rs:519-701 | over any number of attempts, faults, crashes and foreign commands, a journal on disk always has its digest in the row, a reported delivery has completed its workflow exactly once, and a held workflow goes on waiting for its delivery |
| Promotion.RecoverAfterRun | crates/workflowd/src/candidate.rs:1002-1039 | crash atomicity: after any such run an undisturbed recovery succeeds and leaves exactly the approved file map if the marker was written, exactly the original one if not, and nothing to recover |
| Promotion.RetryAfterRun | crates/workflowd/src/lifecycle.rs:519-701 | retries deliver: after any such run that leaves the commit marker, or has written it and still holds its row, one undisturbed attempt completes the workflow, exactly once, over the approved file map, and frees the row |
| Promotion.DeliverAfterRun | crates/workflowd/src/lifecycle.rs:519-701 | whatever attempts, faults, crashes and foreign commands came before, from a tree that can be delivered from one undisturbed attempt delivers exactly once, if the store as it was left lets it be recorded |
| CommandStore.Store.ApplyWorkflowCommand | crates/workflow-store/src/workflows.rs:21-114 | one transaction: the whole new state of all tables, or none of it |
| CommandStore.Store.ApplyTaskCommand | crates/workflow-store/src/tasks.rs:41-129 | one transaction over tasks, events and the shared deduplication table; a new task of an unknown workflow is refused |
| CommandStore.Store.DeliverReserved | crates/workflow-store/src/workflows.rs:116-209 | delivers only under its reservation and journal digest, and frees the row with it |
| CommandStore.Store.ReserveDelivery | crates/workflow-store/src/candidates.rs:71-107 | a row once inserted is kept; another workflow's or digest's row for the candidate is a conflict, and a second candidate of the workflow or an unknown workflow is refused |
| CommandStore.Store.ReleaseDelivery | crates/workflow-store/src/candidates.rs:109-132 | deletes exactly the row of this workflow, candidate and digest |
| CommandStore.Store.BindJournal | crates/workflow-store/src/candidates.rs:134-159 | compare-and-set of the journal digest |
| CommandStore.RepeatsChangeNothing | crates/workflow-store/src/workflows.rs:43-61 | dropping every command whose key has a recorded success leaves all tables and events the same |
| CommandStore.RecordsAreFinal | crates/workflow-store/src/workflows.rs:43-61 | a recorded reply is never lost or replaced |
| CommandStore.RepeatedWorkflowCommandReplays | crates/workflow-store/src/workflows.rs:43-61 | after anything in between, the same key is answered with the first reply, marked as a duplicate |
| CommandStore.LogAgreesOverRuns | crates/workflow-store/src/workflows.rs:21-209 | the StateChanged events of every workflow and task form an unbroken chain ending in its stored state |
| CommandStore.LogAgreesFromTheStart | crates/workflow-store/src/tasks.rs:41-129 | so from empty tables after any calls |
| CommandStore.CompletedOnceOverRuns | crates/workflow-store/src/workflows.rs:116-209 | a workflow is recorded as completed at most once, and exactly once when it is completed |
| CommandStore.ConstrainedOverRuns | crates/workflow-store/migrations/0016_candidate_files.sql:13-19 | in every run tasks and reservations belong to stored workflows and no workflow has two reservations |
| StoreRuns.StoreRunsTheMachine | crates/workflow-store/src/workflows.rs:21-209 | after any calls a stored workflow is the state machine run on the commands applied to it, all accepted |
| StoreRuns.StoredWorkflow | crates/workflow-store/src/workflows.rs:21-209 | so from empty tables every stored workflow is what its history says, and completed only through its gates |
| StoreRuns.StoreRunsTheTask | crates/workflow-store/src/tasks.rs:41-129 | a stored task is its machine run on the commands applied to it |
| StoreRuns.StoredTask | crates/workflow-core/src/task.rs:109-116 | so a stored task is completed only right after a lease, a start, a submission and a verification with every mandatory gate passed |
| StoreRuns.AnsweredExactly | crates/workflow-store/src/workflows.rs:21-114 | exactly when a workflow command is answered with success, and when with a replay |
| StoreRuns.TaskAnsweredExactly | crates/workflow-store/src/tasks.rs:41-129 | exactly when a task command is answered with success, and when with a replay |
| StoreRuns.DeliveredExactly | crates/workflow-store/src/workflows.rs:116-209 | a reserved delivery is recorded exactly with its row, digest, journal, workflow and an unused key |
| StoreRuns.FirstReplyIsStored | crates/workflow-store/src/workflows.rs:62-114 | the first reply is the stored state and the logged events |
| StoreRuns.RepeatedTaskCommandReplays | crates/workflow-store/src/tasks.rs:56-75 | after anything in between, a repeated task command is answered with the first reply, marked as a duplicate |
| StoreRuns.ReservedStands | crates/workflow-store/src/workflows.rs:31-42 | while a reservation stands its workflow does not change, whatever else is called |
| StoreRuns.ReservedMoves | crates/workflow-store/src/workflows.rs:116-209 | only a delivery with the row's candidate, digest and journal moves a reserved workflow, and it takes the row along |
| StoreRuns.JournalIsSwapped | crates/workflow-store/src/candidates.rs:134-159 | a row's journal digest changes only from what the caller expected to what it gave |
| WorkflowMachine.WorkflowObject.Apply | crates/workflow-core/src/workflow.rs:179-313 | the method computes the transition function, field by field |
| WorkflowMachine.WorkflowObject.RejectCandidate | crates/workflow-core/src/workflow.rs:315-332 | a rejection counts a repair cycle and blocks when the budget is used up |
| WorkflowMachine.InvariantOverRuns | crates/workflow-core/src/workflow.rs:179-375 | what suspended, counted and remembered fields say of each other, in every run |
| WorkflowMachine.NoInternalError | crates/workflow-core/src/workflow.rs:315-337 | a candidate or repair target is never missing, counting never overflows, and cycles stay below the limit outside Blocked and Cancelled |
| WorkflowMachine.EveryRunOfNew | crates/workflow-core/src/workflow.rs:179-337 | so in every run of a new workflow |
| WorkflowMachine.SuspensionsAreInvisible | crates/workflow-core/src/workflow.rs:345-375 | leaving out every pause, resume, block and retry gives the same run underneath, all of it accepted |
| WorkflowMachine.GatesBeforeCompletion | crates/workflow-core/src/workflow.rs:179-313 | candidates are accepted at most as often as the budget allows, and a completed workflow has passed, after its last candidate, exactly the gates of its mode |
| WorkflowHistory.HistoryDecides | crates/workflow-core/src/workflow.rs:179-375 | in every run of a new workflow state, mode, candidate, repair target, cycles and budget are what the accepted commands say, read from the last one back |
| WorkflowHistory.RepairGoesWhereSent | crates/workflow-core/src/workflow.rs:244-262 | after a rejection, whatever comes in between, the next repair begins in execution exactly when the rejection sent it there, else in architecture |
| WorkflowHistory.WorkIsEntered | crates/workflow-core/src/workflow.rs:188-262 | execution, architecture and quick execution are entered only from their route, an accepted architecture, a replan, or a repair sent there |
| WorkflowHistory.AcceptedExactly | crates/workflow-core/src/workflow.rs:179-337 | a reachable workflow accepts a command exactly in its place, an approval only with all gates, an extension only within the limit |
| WorkflowHistory.ResumesWhereItStood | crates/workflow-core/src/workflow.rs:258-312 | pausing or blocking and resuming changes nothing |
| WorkflowHistory.CompletableExactly | crates/workflow-core/src/workflow.rs:179-375 | a workflow can still be completed exactly when it is not cancelled and not blocked with a budget at its limit |
| WorkflowHistory.EventsTell | crates/workflow-core/src/workflow.rs:179-337 | the events of a command tell its effect on state, candidate, cycles and budget, and truly what was before |
| TaskHistory.HistoryDecides | crates/workflow-core/src/task.rs:87-142 | in every run of a new task its attempts are the starts accepted, and it is completed only right after being leased, started, submitted and verified with every mandatory gate passed |
| TaskHistory.AcceptedExactly | crates/workflow-core/src/task.rs:87-133 | a task accepts a command exactly in its place, a verification only with all gates passed |
| TaskHistory.CompletableExactly | crates/workflow-core/src/task.rs:87-133 | a task can still be completed exactly when it has not failed or been cancelled |
| GraphQuery.BuildAdjacency | crates/workflow-code-intel/src/query.rs:131-147 | every node's list holds exactly its edges in order |
| GraphQuery.Reconstruct | crates/workflow-code-intel/src/query.rs:149-170 | terminates and returns a real edge path from source to target of the found length |
| GraphQuery.SearchOver | crates/workflow-code-intel/src/query.rs:48-129 | what a finished search says: found is reachable, and all of it unless truncated, for which there are two reasons only |
| GraphQuery.ShortestPath | crates/workflow-code-intel/src/query.rs:48-92 | a nonempty answer is a real path of least length within both limits; an empty one means no path, or one beyond the depth limit, or that as many other nodes as the limit are no farther; truncation has one of two reasons |
| GraphQuery.ShortestAmongPaths | crates/workflow-code-intel/src/query.rs:48-92 | least length is meant among all edge paths |
| GraphQuery.ComputeImpact | crates/workflow-code-intel/src/query.rs:95-129 | the edges returned lead from the roots to every node returned; unless the node limit is reached all nodes and edges within the depth limit are there, and even then the nodes are the nearest and every edge two levels inside; not truncated means the whole closure |
| RelativePath.OverlapMeansSharedPath | crates/workflow-core/src/path.rs:11-19 | two scopes overlap if and only if some path lies in both |
| RelativePath.SafeMeans | crates/workflow-core/src/path.rs:1-9 | a path is safe exactly when it names no drive, has no backslash, and leads from any directory downwards only |
| RelativePath.SegmentsJoin | crates/workflow-core/src/path.rs:1-9 | its components joined by slashes are the path |
| TaskGraph.DependsOnSearch | crates/workflow-core/src/dag.rs:247-266 | true exactly for a transitive dependency |
| TaskGraph.DependencyOrdered | crates/workflow-core/src/dag.rs:243-245 | true exactly when one depends on the other |
| TaskGraph.Sort | crates/workflow-core/src/dag.rs:205-240 | Ok exactly for acyclic graphs; the order is topological and lexicographically least; indegrees never underflow |
| TaskGraph.GreedyIsLeast | crates/workflow-core/src/dag.rs:222-233 | taking the least free task each time is least among all topological orders |
| TaskGraph.TopologicalIsAcyclic | crates/workflow-core/src/dag.rs:205-240 | a graph with a topological order has no cycle |
| TaskGraph.StuckMeansCycle | crates/workflow-core/src/dag.rs:235-239 | tasks that wait for each other close a cycle |
| TaskGraph.CheckNode | crates/workflow-core/src/dag.rs:149-183 | accepts exactly valid nodes; a refusal names the first fault in the order of the checks |
| TaskGraph.CheckScopes | crates/workflow-core/src/dag.rs:184-201 | accepts exactly when overlapping scopes belong to ordered tasks |
| TaskGraph.Validate | crates/workflow-core/src/dag.rs:90-109 | a validated graph has unique tasks, valid nodes, ordered scopes and a topological order; a refusal names a fault that is there |
| TaskGraph.ReadyTasksDoNotShareAPath | crates/workflow-core/src/dag.rs:117-139 | in every state reached by completing tasks, no path lies in the write scopes of two ready tasks |
| TaskGraph.ReadyExactly | crates/workflow-core/src/dag.rs:117-139 | after any work a task is ready exactly when it is not completed and everything it depends on, however indirectly, is |
| TaskGraph.SomeTaskIsReady | crates/workflow-core/src/dag.rs:117-129 | some task is ready until all are complete |
| AdmissionSpec.RepairMakesConsistent | crates/workflowd/src/admission.rs:172-204 | from any state with distinct queues the repair pass makes waiting, owners, queues and rotation describe the same set |
| AdmissionSpec.RepairSettles | crates/workflowd/src/admission.rs:172-204 | on states the program reaches, it only drops from the queues who no longer waits, keeping all orders |
| AdmissionSpec.ReapedIsConsistent | crates/workflowd/src/admission.rs:156-170 | after every reap no queue is empty, none repeats, and all four structures agree |
| AdmissionSpec.ExecutedIsSane | crates/workflowd/src/admission.rs:68-120 | in both builds active leases never exceed the maximum, nobody runs and waits, and `admitted` means holding a lease |
| AdmissionSpec.PopMakesNoDifference | crates/workflowd/src/admission.rs:140-154 | leaving the served workflow in its queue is repaired to the same queues as popping it |
| AdmissionSpec.BuildsAnswerAlike | crates/workflowd/src/admission.rs:68-223 | builds with and without the pop answer every sequence of calls alike |
| AdmissionSpec.BuildsAnswerAlikeFromNew | crates/workflowd/src/admission.rs:40-223 | so do both builds from a new object |
| AdmissionTerms.AnsweredExactly | crates/workflowd/src/admission.rs:68-120 | a lease is granted exactly when there is room, it is the workflow's turn and the controller admits it; any other answer has its reason, adds no lease, and a deferred workflow stays at the front; leases and waits end 15 seconds after the call |
| AdmissionTerms.ReapedExactly | crates/workflowd/src/admission.rs:156-170 | a reap keeps exactly the leases and waiters that have not ended |
| AdmissionTerms.TermsAreReckoned | crates/workflowd/src/admission.rs:68-219 | over every run of either build, whether a workflow runs or waits and until when follows from the calls alone |
| AdmissionTerms.LeasesAreGranted | crates/workflowd/src/admission.rs:104-120 | whoever holds a lease after a run held it before or was granted it by a call to which the controller agreed |
| AdmissionTerms.LeasesLast | crates/workflowd/src/admission.rs:81-85 | a lease renewed in time and not given up is not lost, whoever else calls |
| AdmissionTerms.EveryLeaseOfNew | crates/workflowd/src/admission.rs:40-120 | so in every run of a new object |
| AdmissionFairness.OneStepNearer | crates/workflowd/src/admission.rs:140-154 | a waiting project never falls back and moves up with every admission of another |
| AdmissionFairness.WaitersKeepTheTurn | crates/workflowd/src/admission.rs:156-204 | a project with a waiting workflow is in the rotation, and a reap leaves it there if one of its workflows has renewed |
| AdmissionFairness.RoundRobin | crates/workflowd/src/admission.rs:68-154 | in either build, a project at index k of whose workflows one has renewed before every reap sees at most k admissions before its turn, newcomers never overtaking |
| AdmissionFairness.FirstIsServed | crates/workflowd/src/admission.rs:68-120 | the head of the first queue is admitted once there is room and the controller agrees |
| AdmissionFairness.FirstComeFirstServed | crates/workflowd/src/admission.rs:85-96 | within a project, a later workflow is not admitted while an earlier one still waits |
| AdmissionFairness.OrderIsKept | crates/workflowd/src/admission.rs:122-219 | whatever is called in either build, two workflows that go on waiting keep their order |
| AdmissionFairness.NobodyOvertakes | crates/workflowd/src/admission.rs:68-219 | in every run of either build, while a workflow goes on waiting ahead of another of its project, no call admits the other, even if it leaves and is queued again |
| Admission.RuntimeAdmission.Repair | crates/workflowd/src/admission.rs:172-204 | from any state whatever: queues keep who still waits for their project, the maps keep who stands in a queue, the rotation keeps the first turn of every queued project and gains the missing ones in ascending order; on reachable states that is settling |
| Admission.RuntimeAdmission.Reap | crates/workflowd/src/admission.rs:156-170 | expired leases and abandoned waiters go and the queues are settled |
| Admission.RuntimeAdmission.Remove | crates/workflowd/src/admission.rs:206-219 | the workflow leaves every structure, an emptied queue leaves the rotation |
| Admission.RuntimeAdmission.DequeueFront | crates/workflowd/src/admission.rs:140-154 | the front project goes to the back or leaves, in either build |
| Admission.RuntimeAdmission.Execute | crates/workflowd/src/admission.rs:68-120 | new state and reply of a call, in either build |
| FrameSpec.ParseSplit | crates/workflow-ipc/src/frame.rs:84-118 | reading a stream at once or in two parts gives the same frames and the same rest |
| FrameSpec.CutsDoNotMatter | crates/workflow-ipc/src/frame.rs:84-118 | however a stream is cut, a decoder fails with the same error or yields the same frames and rest |
| FrameSpec.EveryCutDelivers | crates/workflow-ipc/src/frame.rs:39-118 | any payloads of admissible size, however their encodings are cut, arrive as sent and leave nothing behind |
| FrameSpec.DeliveredInTime | crates/workflow-ipc/src/frame.rs:101-113 | after any part of a stream, exactly the payloads whose frames arrived in full are delivered |
| FrameSpec.MalformedStreamsDependOnTheCut | crates/workflow-ipc/src/frame.rs:96-106 | a frame completed in the failing call is dropped, one completed in an earlier call is not |
| FrameSpec.NothingLostMeans | crates/workflow-ipc/src/frame.rs:84-118 | of a malformed stream no frame is lost if and only if it has none or some cut falls at the start of or inside the refused header |
| FrameSpec.RestIsShort | packages/opencode-cycle/src/client.ts:1331-1343 | what is left is shorter than the largest frame |
| Bytes.MostSignificantFirst | crates/workflow-ipc/src/frame.rs:50-54 | a number is written most significant byte first |
| Bytes.FourBytes | crates/workflow-ipc/src/frame.rs:93-95 | a header of four bytes is read in that order |
| Framing.EncodeFrame | crates/workflow-ipc/src/frame.rs:39-55 | refuses exactly empty and oversized payloads; an encoded frame in front of any stream is read back and the rest as if alone |
| Framing.FrameDecoder.Feed | crates/workflow-ipc/src/frame.rs:84-118 | yields what the stream so far says and keeps the unfinished frame; closes for good at a bad header |
| Framing.FrameDecoder.Receive | crates/workflow-ipc/src/frame.rs:84-118 | a connection read chunk by chunk is the run of the specification |
| ClientFraming.EncodeFrame | packages/opencode-cycle/src/client.ts:1314-1323 | encodes the same frames |
| ClientFraming.FrameDecoder.Feed | packages/opencode-cycle/src/client.ts:1325-1346 | yields the same frames and rest as the other decoder on every stream; the buffer limit after the loop is never exceeded |
| FramingAgreement.ReceiveBoth | packages/opencode-cycle/src/client.ts:1325-1346 | fed the same chunks both decoders yield the same frames and hold the same rest, or refuse the same stream; encodings of payloads, however cut, come out as those payloads |
| Canonical.FieldEnds | crates/workflow-core/src/digest.rs:118-122 | a written field can be read back in front of anything |
| Canonical.OptionalEnds | crates/workflow-core/src/digest.rs:128-136 | so can an optional one |
| Canonical.FieldsEnd | crates/workflow-core/src/receipt.rs:49-54 | so can a counted list of fields |
| Canonical.ParseDigest | crates/workflow-core/src/digest.rs:48-66 | accepts exactly the printed digests and reads back what was printed |
| Canonical.ShowIsInjective | crates/workflow-core/src/digest.rs:28-35 | different digests print differently |
| Canonical.CanonicalHasher.WriteEach | crates/workflow-core/src/candidate.rs:224-226 | the loops append one self-delimiting field per element |
| Hashing.CandidateDigest | crates/workflow-core/src/candidate.rs:197-232 | hashes exactly the candidate's stream |
| Records.CandidateDigestBinds | crates/workflow-core/src/candidate.rs:197-232 | two candidates are hashed alike if and only if they agree in everything but id and executable flags |
| Hashing.ReceiptDigest | crates/workflow-core/src/receipt.rs:32-56 | hashes exactly the receipt's stream |
| Records.ReceiptDigestBinds | crates/workflow-core/src/receipt.rs:32-56 | a receipt's digest binds every field |
| Hashing.RequestDigest | crates/workflow-core/src/request.rs:140-161 | hashes exactly the request's stream, attachments sorted |
| Records.RequestDigestBinds | crates/workflow-core/src/request.rs:140-161 | a request's digest binds its text, its amendments, and its attachments up to order |
| Records.DomainsSeparate | crates/workflow-core/src/digest.rs:112-116 | records of different kinds are never hashed alike |
| Manifests.Arrange | crates/workflow-core/src/candidate.rs:158-177 | sorted files and evidence, or the least path, then the least id, that occurs twice |
| Manifests.OrderDoesNotMatter | crates/workflow-core/src/candidate.rs:158-189 | permuting the input files or evidence ids changes neither the manifest nor the error |
| Requests.RequestRecord.AppendAmendment | crates/workflow-core/src/request.rs:122-137 | amendments stay numbered from one without gaps, and nothing else changes |
| Requests.CheckSequence | crates/workflow-core/src/request.rs:68-84 | the check on stored records accepts exactly gapless numbering within the limit |
| Sorting.OneArrangement | crates/workflow-core/src/candidate.rs:165-171 | where keys tell elements apart there is one ascending arrangement |
| Ledger.InputDetermines | crates/workflow-ledger/src/chain.rs:34-61 | the bytes hashed for an entry determine its sequence, previous hash and event |
| Ledger.LedgerChain.Append | crates/workflow-ledger/src/chain.rs:86-92 | a chain that verifies goes on verifying; a refused event changes nothing |
| Ledger.LedgerChain.Verify | crates/workflow-ledger/src/chain.rs:95-136 | Valid exactly when every entry holds and the head is the expected one; a broken verdict names the first entry that fails and why |
| Ledger.HeadFixesChain | crates/workflow-ledger/src/chain.rs:95-136 | two chains that verify with the same head are equal entry by entry, or exhibit a hash collision |
| Ledger.TruncationIsNoticed | crates/workflow-ledger/src/chain.rs:126-131 | a chain that lost entries still verifies, but not with the expected head, short of a collision |
| LeaseSpec.LeasesAreDisjoint | crates/workflow-store/src/leases.rs:14-116 | in every run with a clock that does not go back, leases granted on one task are never valid together |
| LeaseSpec.LeasesAreDisjointFromTheStart | crates/workflow-store/src/leases.rs:14-116 | so from an empty table |
| LeaseSpec.StaleStaysStale | crates/workflow-store/src/leases.rs:74-116 | a replaced or released lease id is refused for ever and its history does not change |
| LeaseSpec.ExpiredStaysExpired | crates/workflow-store/src/leases.rs:74-106 | in every lawful run, an id whose lease has expired is refused by every heartbeat, also while its row is still there, and its end does not move |
| LeaseSpec.BlockedUntilReleased | crates/workflow-store/src/leases.rs:33-45 | an expired lease that is not idempotent answers every later acquisition with a manual review until it is released |
| LeaseTerms.LeaseLasts | crates/workflow-store/src/leases.rs:14-116 | until the end the calls give it, a lease not released keeps its row, every acquisition on its task is answered with it, and each heartbeat with a valid duration moves the end to then |
| LeaseTerms.GrantedExactly | crates/workflow-core/src/lease.rs:50-100 | a lease is granted exactly for a valid duration on a task nobody holds or whose idempotent lease has ended, and runs from the call for that duration |
| LeaseTerms.GrantedLasts | crates/workflow-store/src/leases.rs:14-106 | both together over every lawful run |
| LeaseTerms.ReleaseFrees | crates/workflow-store/src/leases.rs:108-116 | a release frees its task and no other |
| LeaseTable.LeaseStore.Acquire | crates/workflow-store/src/leases.rs:14-72 | new table and answer in every case |
| LeaseTable.LeaseStore.Heartbeat | crates/workflow-store/src/leases.rs:74-106 | renews only the active row with this id, or says why not |
| LeaseTable.LeaseStore.Release | crates/workflow-store/src/leases.rs:108-116 | deletes the row with this id and says whether there was one |
| IndexSpec.ScopeSweepsItsOwn | crates/workflow-code-intel/src/graph/store.rs:420-444 | a scope's deletion hits its own files unless their directory is called root |
| IndexSpec.PartitionsAreRebuilt | crates/workflow-code-intel/src/index.rs:119-231 | if equal metadata means equal content, a run from an up-to-date store leaves every partition as a rebuild would |
| IndexSpec.ReadAgainExactly | crates/workflow-code-intel/src/index.rs:134-152 | from any store and without trusting metadata, a successful run reads exactly the scopes of new, changed, vanished and forced files as the tree has them and keeps the others |
| IndexSpec.ManifestIsRebuilt | crates/workflow-code-intel/src/graph/store.rs:414-458 | the run succeeds with the manifest of a rebuild if and only if the rows deleted are those of the affected scopes |
| IndexSpec.RunFailsWhen | crates/workflow-code-intel/src/graph/store.rs:421-458 | from any store, a run fails if and only if the scope root is affected and a file in a directory called root still exists and no affected scope deletes its row |
| IndexSpec.RunKeepsUpToDate | crates/workflow-code-intel/src/index.rs:119-231 | under that condition the store stays up to date |
| IndexSpec.FirstRunRebuilds | crates/workflow-code-intel/src/index.rs:150-152 | the first run is a rebuild |
| IndexSpec.FlatProjectsStayUpToDate | crates/workflow-code-intel/src/index.rs:103-232 | where scopes do not nest, every sequence of runs ends as a rebuild would |
| IndexSpec.NestedProjectGoesWrong | crates/workflow-code-intel/src/graph/store.rs:420-444 | where they do, some tree and a single change within the paths already go wrong |
| IndexSpec.FlatIsExact | crates/workflow-code-intel/src/graph/store.rs:414-458 | every sequence of changes within given paths ends as a rebuild would if and only if their scopes do not nest and none is a directory called root |
| IndexSpec.NestedScopeGoesStale | crates/workflow-code-intel/src/graph/store.rs:432-438 | two runs after which a deleted file's facts are still in the index |
| IndexSpec.RootDirectoryFails | crates/workflow-code-intel/src/graph/store.rs:421-426 | a change of a file in a directory called root fails the run; after the file is deleted the next run succeeds with a stale manifest row |
| ProjectIndex.RunWorkers | crates/workflow-code-intel/src/index.rs:173-197 | for every interleaving no result arrives twice, and all arrive unless one of those that do reports an error; after an error, workers stop early or not, as they notice |
| ProjectIndex.IndexScope | crates/workflow-code-intel/src/index.rs:234-292 | the facts and entries of all files of the scope |
| ProjectIndex.GraphStore.FindAffected | crates/workflow-code-intel/src/index.rs:134-152 | the scopes of new, changed, vanished and forced files |
| ProjectIndex.GraphStore.IndexProject | crates/workflow-code-intel/src/index.rs:103-232 | for every interleaving the committed store is the specified one; any error commits nothing |
| LicenseSpec.ReadIsTheGrammar | scripts/ci/check-licenses.ts:61-108 | a sequence is read in exactly one way, and exactly when the grammar derives it |
| LicenseSpec.AllowedMeans | scripts/ci/check-licenses.ts:61-108 | allowed is exactly derivable with the value true |
| LicenseSpec.AcceptedOutsideTheGrammar | scripts/ci/check-licenses.ts:74-85 | two accepted sequences that the SPDX grammar does not derive |
| LicenseSpec.AcceptedInGrammar | scripts/ci/check-licenses.ts:74-85 | an accepted sequence is in the SPDX grammar if and only if every WITH stands between two identifiers |
| LicenseSpec.PrintedTreesEvaluate | scripts/ci/check-licenses.ts:61-108 | on any AND/OR/WITH tree printed with the fewest parentheses the parser computes the value of the tree |
| License.Parser.ParsePrimary | scripts/ci/check-licenses.ts:66-86 | reads the phrase at the index, moves behind it, returns its value, or throws |
| License.Parser.ParseAnd | scripts/ci/check-licenses.ts:87-94 | likewise for conjunctions |
| License.Parser.ParseOr | scripts/ci/check-licenses.ts:95-102 | likewise for disjunctions |
| License.LicenseExpressionAllowed | scripts/ci/check-licenses.ts:61-108 | terminates; true exactly for what the grammar derives with the value true |

## Left out

- Promotion.RecoverAfterRun: assumes manifests in which no path is a directory prefix of another, no other writer, fresh journal nonces, and reads for hashing in a rollback that do not fail; compares file maps only, since a rollback does not remove directories created for new files
- Recovery.Commit: the commit marker is created atomically; in the code a marker whose sync fails after it was created meets the rollback that follows, and if that rollback is interrupted, a later recovery takes the delivery for committed
- Promotion.RetryAfterRun: no other client uses the delivery's key, and HEAD matches in the retry, as the handler demands
- CommandStore.Store.ReserveDelivery: the foreign key from reservations to stored candidates; candidates are not modelled as a table
- Rollback.RollbackPayload: for journals whose paths are distinct and prefix-free; file-to-directory transitions only as far as one level of recorded directories
- FileTree.Disk.Link: hard links are modelled as equal files, and `Path::exists` as reliable
- fsync ordering, symlinks, reparse points, platform mode differences and legacy journal directories
- JSON: a journal on disk is a value with a digest, frame payloads and ledger events are byte strings; messages of errors are not kept
- Git, SQL text, sockets, processes, clocks and the resource controller; a transaction is one atomic change of its tables
- identifiers are numbers; fresh ids are assumed new; timestamps stand as text
- Staging.StageAll: an error while staging returns without a rollback, as in the code, and leaves the journal to the next recovery
- GraphQuery.ComputeImpact: the collected nodes and edges are sets, which is what the code's ordered sets hold
- IndexSpec.PartitionsAreRebuilt: a partition is the set of facts extracted from its files; node and edge ids are taken to differ between files, and full-text rows and generations are not modelled
- LeaseTable.LeaseStore.Acquire: the read-only mode of the store, and the cascade from deleted tasks
- LicenseSpec.ReadIsTheGrammar: token sequences only; the splitting into tokens and the replacement of slashes are not modelled
- Manifests.Arrange: the library's unstable sort is modelled as one sort; the contract does not depend on which, since equal paths are refused
- Canonical.ParseDigest: UTF-8 text is its bytes
- the bound on continuations of goals, which the code does not keep
- routing, essentiality, redaction, packaging and user interface, which would add only branch checks
