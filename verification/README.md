# AgentFabric in Dafny

A model of the parts of AgentFabric in which something can go wrong over a whole run: scheduling and
running task graphs, rebuilding state from the event log after a crash, dependency graphs between
repositories, approved file writes with undo, the retry and dead-letter queue, governed proposals, and
the stores that must stay consistent. Each part is proved for every input, every interleaving or every
sequence of calls, not for examples.

`dafny verify dfyconfig.toml` checks everything.

How the parts fit together:

- **Task graphs.** `TaskGraphs`, `Scheduling`, `QueueOrder` and `TopologicalOrder` define the layered and the
  FIFO form of Kahn's algorithm and prove what they compute; `DependencyGraphs` holds the loops themselves. A
  batch number turns out to be the length of the longest dependency chain, concatenating the batches gives the
  FIFO order, and that order is told without running anything by when the last dependency of a node is popped.
- **Workflow runs.** `WorkflowRuns` is `MeshWorkflowEngine` as a state machine whose actions are single
  updates, event appends and runner calls, so that a list of actions is one interleaving of the threads of
  a batch. A `Start` is possible in every state: it is a restart after a crash there. `Confluence`,
  `Progress`, `Pauses`, `CrashSafety`, `Recovery`, `Restarts`, `RefusedResults` and `SequentialEngine` are
  theorems about all such lists.
- **Event log.** `EventStore` is the hash chain; `Checkpoints` says which checkpoint is loaded as latest.
- **Repositories.** `RepositoryDependencies` (depth-first cycle check) and `RepositoryImpact`
  (breadth-first closure).
- **Approved writes.** `BuildWorker` and `RepositoryExecution`, over a map from canonical target to
  content and an arbitrary path resolution, so that two paths may name one file.
- **Queue, governance, stores.** `RetryQueue`, `Consensus`, `Governance`, `RateLimit`, `Migrations`,
  `MemoryStore`. `Digraphs`, `TextOrder`, `SequenceOrder` and `Values` are shared.

Where the code does less than its name suggests, the model follows the code, and the exact condition under
which the expected property holds is a lemma:

- a restart keeps what the log recorded before it: completed tasks, their results, retry counters and
  checkpoints (`RestartAgreesIff`, `RetryCounterOutlivesRestart`);
- a failed run emits no failure event and so rebuilds as running; a result that the context store refuses
  stays in the live state of the failed node and cannot be rebuilt (`ResultsAgreeUnlessRefused`,
  `RefusedResultIsNotRebuilt`);
- checkpoint keys are filtered by prefix and sorted as text, so after ten batches the ninth is loaded as
  latest, or the checkpoint of a workflow whose id extends this one across a colon (`LatestIsNewestIff`,
  `NinthIsLoadedAfterTen`, `AnotherWorkflowIsLoaded`);
- the run cache joins workflow id and idempotency key with a colon (`CacheKeyCollisions`);
- `add` on the repository graph keeps an edge it rejects (`RejectionPersists`, `RejectedEdgeStays`,
  `ClearingSucceedsIff`);
- the artifact writer's rollback deletes paths that existed before the write
  (`RollbackRestoresUnlessPresentBefore`, `RollbackLosesAnOldFile`); a rolled-back build stays completed, so executing it again
  returns without writing (`BuildWorkerService.Execute`);
- an escalating vote that is turned away, or that a bad vote keeps from being evaluated, does not stop a
  proposal that was already approved (`EscalationStops`, `LateEscalation`); and votes are stored by id, so a
  later vote with the id of an escalation overwrites it (`VetoSurvivesIff`, `OverwrittenVeto`);
- writing a memory record over one of another owner, tenant or workflow leaves a stale index entry,
  and listing for the old tenant then returns the other tenant's record (`PutKeepsExactIff`,
  `AnotherTenantsRecordIsListed`);
- acknowledging a delivery that is not in flight unbalances the queue (`FailureBalancesIff`,
  `FailingTwiceDuplicates`), and a clock that steps back inside a call breaks the rate limit exactly when the
  minute before the stamp was full (`ConnectorExecutionService.Execute`, `SteppingBackInsideACall`).

## Model

| member | source | states |
|---|---|---|
| `TaskGraphs.SizeDetectsDuplicates` | agentfabric/collaboration/dependency_graph.py:15-17 | comparing the size of the id dictionary with the node list refuses exactly the graphs with a repeated id |
| `TaskGraphs.ChildrenCount` | agentfabric/collaboration/dependency_graph.py:18-25 | a node occurs among the children of another as often as it lists that one as dependency, so repeated dependencies stay balanced with the counters |
| `DependencyGraphs.BuildTables` | agentfabric/collaboration/dependency_graph.py:13-25 | the constructor loops raise exactly on repeated ids or unknown dependencies, in that order of precedence, and otherwise build the exact children lists and in-degrees |
| `DependencyGraphs.BuildGraph` | agentfabric/collaboration/dependency_graph.py:13-25 | a graph object exists exactly for well-formed node lists, with its tables valid |
| `DependencyGraphs.ReleaseChildren` | agentfabric/collaboration/dependency_graph.py:38-41 | the inner loop lowers counters and enqueues a child at the moment its last dependency is met |
| `DependencyGraphs.DependencyGraph.TopologicalBatches` | agentfabric/collaboration/dependency_graph.py:27-44 | the loops refuse exactly cyclic graphs, give every node the batch number of its longest dependency chain, and list the nodes by the moment their last dependency is popped, ties by their place in the graph |
| `Scheduling.LayersAreReady` | agentfabric/collaboration/dependency_graph.py:27-42 | each batch is exactly the set of nodes whose dependencies all lie in earlier batches, and nothing is ready after the last |
| `Scheduling.LayersFlattenToFifo` | agentfabric/phase3/workflow.py:130-138 | from any frontier, the batches one after another are the order in which a FIFO queue pops the nodes |
| `TopologicalOrder.LayerIsLongestChain` | agentfabric/collaboration/dependency_graph.py:32-42 | a node of batch k starts a dependency chain of k edges and none longer |
| `TopologicalOrder.LeftoverIsCyclic` | agentfabric/collaboration/dependency_graph.py:42-43 | nodes left over when the queue runs dry contain a dependency cycle |
| `TopologicalOrder.BatchesTheorem` | agentfabric/collaboration/dependency_graph.py:27-44 | scheduling fails exactly on cyclic graphs; otherwise the batches partition the nodes and batch numbers are longest-chain lengths |
| `TopologicalOrder.SortsAgree` | agentfabric/phase3/workflow.py:116-142 | both algorithms refuse the same graphs with the same error, and the FIFO order is the concatenation of the batches |
| `TopologicalOrder.OrderTheorem` | agentfabric/phase3/workflow.py:130-142 | both sorts list the nodes in queue order: after their dependencies, sorted by the position of the last dependency, then by place in the graph |
| `QueueOrder.QueueOrderIsUnique` | agentfabric/phase3/workflow.py:130-138 | there is only one listing of the same nodes in queue order, so that order determines the result of both sorts |
| `TopologicalOrder.FirstBatch` | agentfabric/collaboration/dependency_graph.py:28-33 | the first batch is the nodes without dependencies, as the graph lists them |
| `DependencyGraphs.DrainQueue` | agentfabric/phase3/workflow.py:130-138 | the queue loop pops nodes in the specified FIFO order |
| `DependencyGraphs.TopologicalSort` | agentfabric/phase3/workflow.py:116-142 | the sort succeeds exactly on well-formed acyclic graphs, returns every node once in queue order, and so the concatenated batches |
| `WorkflowRuns.PhaseMoves` | agentfabric/collaboration/workflow.py:112-142 | only a start and the acting thread move a node's phase; opening a batch holds its unapproved nodes or starts all its threads |
| `WorkflowRuns.ShapeKept` | agentfabric/collaboration/workflow.py:112-158 | the main thread never leaves the plan, and an open batch has one thread for each of its nodes |
| `Pauses.PauseHoldsTheUnapproved` | agentfabric/collaboration/workflow.py:113-129 | in every paused run exactly those nodes of the batch await approval that ask for it and were not given it in this start, and the last event requests approval of just these |
| `Pauses.AwaitingOnlyInPauses` | agentfabric/collaboration/workflow.py:113-129 | outside a pause no node awaits approval |
| `Confluence.EveryGraphIsStaged` | agentfabric/collaboration/workflow.py:77-112 | every graph the constructor accepts gives a plan in which dependencies sit in strictly earlier batches |
| `Confluence.EveryInterleavingEvaluates` | agentfabric/collaboration/workflow.py:112-142 | if a successful result depends only on node and dependency results, every completed run, under every interleaving and every pattern of retried failures, holds the results of direct recursive evaluation |
| `Confluence.CallsAreBounded` | agentfabric/collaboration/workflow.py:189-258 | in every run a node's runner is called at most max_retries + 1 times per start, exactly that often when the node fails |
| `Confluence.NeverStuck` | agentfabric/collaboration/workflow.py:112-169 | a run that is neither finished, paused, failed nor refused always has a next step other than a restart |
| `Progress.StartsComeToAnEnd` | agentfabric/collaboration/workflow.py:112-258 | however threads interleave and runners behave, the steps between two starts are at most seven for each attempt that the retry limits allow, two for each batch and two to finish |
| `Progress.EveryStartCanFinish` | agentfabric/collaboration/workflow.py:112-169 | from every point of every start some continuation without a restart pauses, fails or finishes, whatever approvals and runner there are |
| `Progress.StartCanComplete` | agentfabric/collaboration/workflow.py:112-169 | with all approvals given and a runner that may return a storable value for every node, every point of a start at which no thread has lost its last attempt extends to a completed run |
| `Progress.SpentNeverCompletes` | agentfabric/collaboration/workflow.py:237-258 | once a thread has lost its last attempt, no continuation without a restart completes |
| `Progress.CompletedRunExists` | agentfabric/collaboration/workflow.py:112-169 | every graph that can be scheduled has a completed run under such a runner |
| `Confluence.EvaluateIgnoresRunner` | agentfabric/collaboration/workflow.py:189-218 | the evaluated results depend on graph and node function only |
| `Recovery.RebuildWorkflow` | agentfabric/recovery/state_rebuilder.py:9-77 | sorts by sequence number and folds; for events with different numbers, handed over in any order, the result is the fold of their log |
| `Recovery.TracesAreOutcomes` | agentfabric/recovery/state_rebuilder.py:40-55 | the rebuilt traces are the completed and failed attempts of the log, in order |
| `Recovery.ResolvedApproval` | agentfabric/recovery/state_rebuilder.py:59-62 | a resolved approval sets its nodes to pending and the run to running, and nothing else |
| `Recovery.WorkflowTraces` | agentfabric/recovery/state_rebuilder.py:67-69 | of the workflow traces only one that says completed counts |
| `Recovery.CoupledAlways` | agentfabric/collaboration/workflow.py:81-258 | after every step of every run with any number of starts, also inside a batch, live and rebuilt state differ in no more than the steps the acting threads still owe the log and what the log had recorded before the current start |
| `Recovery.RebuiltAgreesSinceStart` | agentfabric/recovery/state_rebuilder.py:27-77 | at every batch boundary of every run with any number of starts, the rebuilt node status, retry counters, results, checkpoints, completed and failed sets are those of the current start laid over those before it, where a task completed before never counts as failed again |
| `Recovery.EveryStartBeginsAfresh` | agentfabric/recovery/state_rebuilder.py:29-35 | right after every start, whatever came before, the run is live and rebuilt as running, with every task pending and assigned to its agent |
| `Recovery.RebuiltAgreesWithLive` | agentfabric/recovery/state_rebuilder.py:27-77 | with one start, at every batch boundary, paused, failed or finished, the log rebuilds node status, retry counters, assignments, checkpoints, completed, failed and pending sets, and, if only storable results occur, all results |
| `Restarts.RestartAgreesIff` | agentfabric/recovery/state_rebuilder.py:23-55 | after any number of starts, rebuilt and live node status are equal if and only if no task completed before has failed now, retry counters if and only if every task counted before has been attempted again, checkpoints if and only if there were none before |
| `Restarts.RetryCounterOutlivesRestart` | agentfabric/recovery/state_rebuilder.py:36-39 | a concrete run whose rebuilt retry counter survives a restart that resets the live one |
| `Restarts.OneCheckpointPerBatch` | agentfabric/collaboration/workflow.py:143-158 | in every run there is one checkpoint for each batch the current start has finished, numbered from one |
| `RefusedResults.ResultsAreLastReturns` | agentfabric/collaboration/workflow.py:189-232 | in every run a node's live result is what its runner last returned in this start, and until the node succeeds every returned value was one the context store refuses |
| `RefusedResults.RefusedAreTheFailed` | agentfabric/collaboration/workflow.py:218-258 | at a boundary, the nodes whose last returned value was refused are exactly the failed nodes that hold a result |
| `RefusedResults.ResultsAgreeUnlessRefused` | agentfabric/collaboration/workflow.py:218-258 | at a boundary, live and rebuilt results are equal if and only if the context store takes every value that a runner last returned |
| `RefusedResults.RefusedResultIsNotRebuilt` | agentfabric/collaboration/context_store.py:156-165 | a concrete run in which a value under a sensitive key makes them differ |
| `Values.StorableIff` | agentfabric/collaboration/context_store.py:156-165 | a value is stored if and only if no key at any depth reads, lowered, raw, secret, password or token, or begins with raw_ |
| `Values.LowerMeans` | agentfabric/collaboration/context_store.py:156-165 | letters are lowered one by one and nothing else changes |
| `CrashSafety.CompletedSetIsClosed` | agentfabric/recovery/state_rebuilder.py:36-47 | after every prefix of the log of every run with any number of restarts, completed tasks have results and only completed dependencies |
| `CrashSafety.NothingStartsUnapproved` | agentfabric/collaboration/workflow.py:112-142 | no task that needs approval, nor any task resting on one, starts in a run that was not given that approval |
| `SequentialEngine.RunNode` | agentfabric/phase3/workflow.py:61-104 | the retry loop returns the first success, all attempts before it having failed, or fails after all max_retries + 1 attempts have |
| `SequentialEngine.RunNodes` | agentfabric/phase3/workflow.py:58-104 | the node loop blames the first node of the order that fails on the results before it, and otherwise has a result for every node |
| `SequentialEngine.WorkflowEngine.Run` | agentfabric/phase3/workflow.py:40-114 | a cached run is returned unchanged; otherwise the run is sorted, executed and cached only on success |
| `SequentialEngine.SequentialRunEvaluates` | agentfabric/phase3/workflow.py:58-104 | the run succeeds exactly when every node succeeds within its attempts, and then holds the recursively evaluated results |
| `SequentialEngine.EnginesAgree` | agentfabric/phase3/workflow.py:58-104 | every completed run of the mesh engine holds the results of a completed sequential run on the same graph |
| `SequentialEngine.CacheKeyCollisions` | agentfabric/phase3/workflow.py:49-51 | two different id and key pairs share a cache entry if and only if one id extends the other across a colon and the keys make up for it |
| `SequentialEngine.CacheKeysCollide` | agentfabric/phase3/workflow.py:49-51 | such a pair exists |
| `Checkpoints.LatestIsLastInTextOrder` | agentfabric/recovery/checkpoint_loader.py:19-24 | with checkpoints 1 to n stored, among any other keys, the text-greatest of them is loaded if and only if no other key that begins like this workflow's sorts after it |
| `Checkpoints.LatestIsNewestIff` | agentfabric/recovery/checkpoint_loader.py:19-24 | the newest checkpoint n is loaded if and only if n without its last digit is zero or all nines, and no other key that begins like this workflow's sorts after it |
| `Checkpoints.NinthIsLoadedAfterTen` | agentfabric/recovery/checkpoint_loader.py:24-24 | after ten batches, with nothing else stored, the ninth is loaded |
| `Checkpoints.NothingToLoad` | agentfabric/recovery/checkpoint_loader.py:22-23 | nothing is loaded if and only if no stored key begins with the workflow id and a colon |
| `Checkpoints.ForeignKeysExtendTheId` | agentfabric/recovery/checkpoint_loader.py:20-21 | a checkpoint key that passes the prefix filter belongs to the workflow itself or to one whose id extends it across a colon |
| `Checkpoints.AnotherWorkflowIsLoaded` | agentfabric/recovery/checkpoint_loader.py:20-24 | for workflow "a", beside a workflow "a:x", the checkpoint of the latter is loaded |
| `Checkpoints.SameLengthOrder` | agentfabric/recovery/checkpoint_loader.py:24-24 | numerals of equal length sort as text as they do as numbers |
| `EventStores.EventStore.Append` | agentfabric/events/event_store.py:319-355 | an unregistered type changes nothing; otherwise one event with the given type, aggregate, payload, id and time, the next number and the last hash is added, joins the replay of its own aggregate and no other, and an intact log stays intact and equal to what is persisted |
| `EventStores.RunsStayIntact` | agentfabric/events/event_store.py:319-350 | every run of appends gives an intact chain that is already in sequence order |
| `EventStores.EventStore.ValidateIntegrity` | agentfabric/events/event_store.py:372-395 | the loop accepts exactly the logs whose sorted events are chained |
| `EventStores.EventStore.Load` | agentfabric/events/event_store.py:309-317 | the reloaded events are what persistence holds, sorted by number; whatever intact log with fresh ids was persisted, and whatever order it is listed in, they are that log |
| `EventStores.ReloadDetectsTampering` | agentfabric/events/event_store.py:372-395 | reloading and checking integrity succeeds if and only if storage, with events under their own ids, is what persisting some intact log leaves |
| `EventStores.ReloadRestores` | agentfabric/events/event_store.py:312-317 | sorting any permutation of an intact log gives that log |
| `EventStores.StorageRestores` | agentfabric/events/event_store.py:312-317 | with distinct event ids the keyed storage loses nothing: any listing of its values reloads to the log |
| `EventStores.SameLastHashSameLog` | agentfabric/events/event_store.py:372-395 | with a collision-free hash, two intact logs with the same last hash are equal event for event |
| `EventStores.ReplayIsInOrder` | agentfabric/events/event_store.py:352-355 | replay gives exactly the events of the aggregate, each once and in sequence order |
| `EventStores.ReplayAppend` | agentfabric/events/event_store.py:352-355 | an append extends the replay of its own aggregate and no other |
| `RepositoryDependencies.Search.Visit` | agentfabric/repository_factory/dependency_graph.py:18-28 | raises only if the edges contain a cycle; otherwise settles the node and everything below it and leaves the stack as it was |
| `RepositoryDependencies.RepositoryDependencyGraph.Validate` | agentfabric/repository_factory/dependency_graph.py:14-31 | for every visiting order, succeeds exactly when the stored edges are acyclic |
| `RepositoryDependencies.RepositoryDependencyGraph.Add` | agentfabric/repository_factory/dependency_graph.py:10-12 | stores the edges in either case and returns exactly when the graph is acyclic, so runs of returning calls stay acyclic |
| `RepositoryDependencies.RejectionPersists` | agentfabric/repository_factory/dependency_graph.py:10-12 | a cycle survives every later call that replaces no repository on it |
| `RepositoryDependencies.RejectedEdgeStays` | agentfabric/repository_factory/dependency_graph.py:10-12 | two repositories that depend on each other: after the rejected call, adding a third without dependencies is rejected too |
| `RepositoryDependencies.ClearingBreaksCyclesThrough` | agentfabric/repository_factory/dependency_graph.py:10-12 | clearing a repository's edges leaves only cycles that avoid it |
| `RepositoryDependencies.ClearingSucceedsIff` | agentfabric/repository_factory/dependency_graph.py:10-31 | adding a repository without dependencies makes the graph acceptable if and only if it lies on every cycle |
| `RepositoryImpact.Discover` | agentfabric/repository_graph/graph.py:53-58 | one round adds exactly the new direct dependents to closure and queue |
| `RepositoryImpact.Analyse` | agentfabric/repository_graph/graph.py:47-65 | terminates on every graph; the transitive dependents are exactly the repositories with a non-empty dependency path to the given one |
| `BuildWorker.UndoRestores` | agentfabric/build_workers/service.py:337-350 | putting backups back in exact reverse write order restores every file, also when several paths name one file |
| `BuildWorker.OtherFilesUntouched` | agentfabric/build_workers/service.py:185-193 | no file outside the targets of the plan changes |
| `BuildWorker.LastEntryStands` | agentfabric/build_workers/service.py:185-193 | after the writes a target reads back the content of the last entry that names it |
| `BuildWorker.CheckPassesIff` | agentfabric/build_workers/service.py:194-199 | the hash check passes if and only if every entry hashes like the last one at its target |
| `BuildWorker.FirstBackupStands` | agentfabric/build_workers/service.py:337-350 | whatever the files hold, restoring leaves at every target the backup of the first path that names it |
| `BuildWorker.CheckedContentsAreThePlan` | agentfabric/build_workers/service.py:194-199 | with a collision-free hash, every path of a build that passed the check reads back its planned content |
| `BuildWorker.ApprovalIsOfThisPlan` | agentfabric/build_workers/service.py:319-325 | with a collision-free digest, an approval that matches a stored plan was given to that very plan |
| `BuildWorker.BuildWorkerService.StorePlan` | agentfabric/build_workers/service.py:105-139 | the build id is determined by tenant, execution and content hashes; the stored plan carries the hash of every content and the digest of the whole |
| `BuildWorker.BuildWorkerService.Approve` | agentfabric/build_workers/service.py:160-171 | records the digest of the plan as stored, for its own tenant only |
| `BuildWorker.BuildWorkerService.WriteEntries` | agentfabric/build_workers/service.py:185-193 | stops at the first refused or raising path, with the writes and the backups of exactly the entries before it |
| `BuildWorker.BuildWorkerService.CheckHashes` | agentfabric/build_workers/service.py:194-199 | accepts exactly when every path hashes to what the plan says |
| `BuildWorker.BuildWorkerService.Restore` | agentfabric/build_workers/service.py:337-350 | restores the given paths in descending path order |
| `BuildWorker.BuildWorkerService.WritePlan` | agentfabric/build_workers/service.py:180-203 | all or nothing: a failure at any write or at the hash check leaves every file as it was, a success leaves backups that undo it |
| `BuildWorker.BuildWorkerService.Carry` | agentfabric/build_workers/service.py:178-246 | what an approved execution does: all or nothing, with the rollback plan that undoes it |
| `BuildWorker.BuildWorkerService.Execute` | agentfabric/build_workers/service.py:173-246 | writes only under a matching approval, which with a collision-free digest its tenant gave to this very plan; succeeds if and only if every path can be written and entries that share a target hash alike; then every target holds its last entry and no other file changes; a failing build changes no file |
| `BuildWorker.BuildWorkerService.Rollback` | agentfabric/build_workers/service.py:277-294 | needs approval and a stored rollback plan, and then leaves the backup of the first path at every target and touches no other file |
| `BuildWorker.BuildWorkerService.ExecuteThenRollback` | agentfabric/build_workers/service.py:277-294 | executing and rolling back is the identity on files |
| `RepositoryExecution.WriteNewAddsThePlan` | agentfabric/repository_execution/artifact_writer.py:26-40 | a successful write keeps every existing file, adds the targets of the plan and no others, and every path reads back its content |
| `RepositoryExecution.WriteNewSucceedsIff` | agentfabric/repository_execution/artifact_writer.py:27-40 | a write succeeds if and only if every path is accepted and handled without a fault, existing files hold the planned content, and entries that share a target plan the same |
| `RepositoryExecution.ArtifactWriter.Write` | agentfabric/repository_execution/artifact_writer.py:19-45 | all or nothing, under exactly that condition: on any failure every file is as before |
| `RepositoryExecution.ArtifactWriter.Attempt` | agentfabric/repository_execution/artifact_writer.py:26-45 | the loop with its clean-up computes the all-or-nothing write |
| `RepositoryExecution.ArtifactWriter.Unlink` | agentfabric/repository_execution/artifact_writer.py:41-44 | the clean-up loop removes exactly the files written so far |
| `RepositoryExecution.ArtifactWriter.Remove` | agentfabric/repository_execution/artifact_writer.py:47-63 | deletes, last path first, exactly the targets behind the last refused path, all of them if none is refused |
| `RepositoryExecution.RollbackRestoresUnlessPresentBefore` | agentfabric/repository_execution/artifact_writer.py:47-63 | rollback restores the files if and only if no path of the plan existed before the write |
| `RepositoryExecution.RollbackLosesAnOldFile` | agentfabric/repository_execution/artifact_writer.py:47-56 | a file present before with the planned content is deleted by rollback |
| `RepositoryExecution.ExecutionEngine.MakePlan` | agentfabric/repository_execution/execution_engine.py:88-153 | the id is determined by tenant, organization, context, repository and content hashes; the plan replaces an earlier one with its id, and stored approvals stay traceable |
| `RepositoryExecution.ExecutionEngine.Replay` | agentfabric/repository_execution/execution_engine.py:226-238 | stores the new plan before it compares; within the same organization it succeeds exactly when every content hashes as before |
| `RepositoryExecution.ExecutionEngine.Approve` | agentfabric/repository_execution/approval_gate.py:28-37 | binds the digest of the plan as stored to its own tenant |
| `RepositoryExecution.ExecutionEngine.Execute` | agentfabric/repository_execution/execution_engine.py:180-224 | after any run of calls, whatever is written is path for path a plan that this tenant approved; existing files keep their content; a run that writes nothing changes nothing |
| `RepositoryExecution.ExecutionEngine.Rollback` | agentfabric/repository_execution/execution_engine.py:240-252 | without an approval of the plan as it is stored now, nothing is deleted; with it, success exactly when every path is accepted, and the deleted files are named in either case |
| `RetryQueue.QueueService.Enqueue` | agentfabric/server/services.py:283-286 | one message at the end of any queue; on a work queue with a user payload, one more original and the books are kept |
| `RetryQueue.QueueService.Dequeue` | agentfabric/server/services.py:288-293 | hands out the oldest message of any queue with its payload and marks its row; on a work queue the books are kept |
| `RetryQueue.QueueService.AckSuccess` | agentfabric/server/services.py:295-296 | marks the row of any id that has one; for a delivery in flight the original is done and the books are kept |
| `RetryQueue.QueueService.AckFailure` | agentfabric/server/services.py:298-312 | for any item whose retry count can be read, re-queues or dead-letters the same user payload with one more counted failure, and otherwise raises after marking the row; for a delivery in flight the books are kept |
| `RetryQueue.FailureBalancesIff` | agentfabric/server/services.py:298-312 | after a negative acknowledgement the messages and the originals of the queue balance if and only if the delivery was in flight; otherwise they differ by one |
| `RetryQueue.FailingTwiceDuplicates` | agentfabric/server/services.py:298-312 | acknowledging one delivery as failed twice queues its payload twice |
| `RetryQueue.QueueService.PushMessage` | agentfabric/server/queue.py:78-105 | one message at the end of its queue and one queued row under a fresh id |
| `RetryQueue.PushMeans` | agentfabric/server/queue.py:78-119 | a push adds one message at the end of its queue and one fresh queued row, and nothing else |
| `RetryQueue.PopMeans` | agentfabric/server/queue.py:89-127 | a pop takes the first message off its queue and marks its row processing with one more attempt |
| `RetryQueue.MarkMeans` | agentfabric/server/queue.py:121-143 | marking changes status and attempts of one row only |
| `RetryQueue.FailMeans` | agentfabric/server/services.py:298-312 | a failure queues the payload with the raised count, in its own queue while attempts are left and in the .dlq queue after that |
| `RetryQueue.DecimalIsRead` | agentfabric/server/services.py:300-300 | a retry count written as text is read as its number |
| `RetryQueue.SignedIsRead` | agentfabric/server/services.py:300-300 | so is a negative one |
| `RetryQueue.BlanksAreSkipped` | agentfabric/server/services.py:300-300 | blanks before it do not matter |
| `RetryQueue.RunsAreConsistent` | agentfabric/server/queue.py:72-143 | after every run of the four operations each row status, queued message and original agree |
| `RetryQueue.Conservation` | agentfabric/server/services.py:283-312 | originals = waiting + in flight + done + dead-lettered, where the first and last are the lengths of the two backend queues |
| `RetryQueue.EveryRunConserves` | agentfabric/server/services.py:283-312 | so it is at every point of every run, and no original is handed out more than max_attempts times |
| `RetryQueue.RecordsCountDeliveries` | agentfabric/server/worker.py:36-55 | the counted deliveries of an original are the dequeues of the run that handed out one of its messages |
| `RetryQueue.EveryDeliveryCarriesThePayload` | agentfabric/server/worker.py:41-48 | every delivery in every run shows the handler the payload that was enqueued |
| `RetryQueue.DeliveriesAreBounded` | agentfabric/server/services.py:298-312 | at most max_attempts deliveries; a dead letter has the unchanged user payload and retry count max_attempts |
| `RetryQueue.QueuedOnce` | agentfabric/server/queue.py:72-98 | no original sits twice in any queues |
| `Consensus.OrderDoesNotMatter` | agentfabric/governance/consensus_engine.py:44-101 | in every mode, permuting the votes changes nothing but possibly which bad vote is complained about |
| `Consensus.AddedApprovalKeepsApproval` | agentfabric/governance/consensus_engine.py:56-100 | with non-negative weights an added authorised approval never undoes approval, through the security and compliance recursion |
| `Consensus.AddedRejectionNeverApproves` | agentfabric/governance/consensus_engine.py:56-100 | with a positive threshold an added rejection never creates approval |
| `Consensus.ApprovalMeans` | agentfabric/governance/consensus_engine.py:44-101 | approval implies risk within authority, authorised votes only, no escalation, enough approvals and every required role |
| `Consensus.ApprovedIff` | agentfabric/governance/consensus_engine.py:44-101 | a proposal is approved if and only if nothing stands in the way and the numbers of approving and rejecting votes reach what the mode asks for, mode by mode |
| `Consensus.VerdictMeans` | agentfabric/governance/consensus_engine.py:46-69 | expired, blocked, escalated and rejected verdicts and complaints, each if and only if its condition holds and none of higher precedence |
| `Consensus.VerdictCounts` | agentfabric/governance/consensus_engine.py:59-101 | every verdict reports the numbers of approving, rejecting and abstaining votes |
| `Consensus.AuthorityMeans` | agentfabric/governance/consensus_engine.py:48-49 | a risk is within authority if and only if both are known levels and it is not the higher one |
| `Consensus.EscalationBlocks` | agentfabric/governance/consensus_engine.py:66-67 | one escalating vote rules out approval under every policy |
| `Governance.VotesForMembers` | agentfabric/governance/proposal_service.py:129-134 | exactly the stored votes of the tenant for the proposal are counted, each once and in order of id |
| `Governance.GovernanceService.CollectVotes` | agentfabric/governance/proposal_service.py:129-134 | lists the table in order of id and keeps the votes of tenant and proposal |
| `Governance.GovernanceService.CreateProposal` | agentfabric/governance/proposal_service.py:61-89 | stores any proposal exactly when policy allows; under a fresh id every invariant survives if and only if it does not arrive approved or executed |
| `Governance.GovernanceService.GetProposal` | agentfabric/governance/proposal_service.py:94-103 | expires an overdue proposal unless executed or rejected; final states stay |
| `Governance.GovernanceService.Count` | agentfabric/governance/proposal_service.py:112-127 | stores the vote, over any earlier one with its id, before it evaluates; a pending verdict leaves the status, a raising evaluation leaves everything but the vote; vetoes that the vote does not lift stand |
| `Governance.GovernanceService.CastVote` | agentfabric/governance/proposal_service.py:105-127 | the complete reply, new state and evaluation record for every vote, new or overwriting: overdue proposals are closed, closed ones never change, and otherwise the status follows the verdict, which only while pending leaves it |
| `Governance.GovernanceService.Cast` | agentfabric/governance/proposal_service.py:105-127 | checks, storing and evaluation in the order of the code, with the complete new state |
| `Governance.GovernanceService.Execute` | agentfabric/governance/proposal_service.py:136-182 | succeeds if and only if the proposal is approved and not overdue, a human has consented where required, and policy allows; then some recorded evaluation approved it and no veto stands |
| `Governance.BackedMeans` | agentfabric/governance/proposal_service.py:136-139 | what that evaluation had: risk within authority, enough approvals, all required roles, no escalation |
| `Governance.VetoHolds` | agentfabric/governance/proposal_service.py:112-127 | while an escalation of the proposal is stored, no evaluation approves it |
| `Governance.VetoSurvivesIff` | agentfabric/governance/proposal_service.py:112-112 | a stored escalation survives a cast if and only if the vote is itself an escalation of the proposal or another one is stored under a different id |
| `Governance.OverwrittenVeto` | agentfabric/governance/proposal_service.py:112-127 | an escalation that holds, then an approval with its id: the proposal is approved |
| `Governance.StandingVeto` | agentfabric/governance/proposal_service.py:112-114 | a stored escalation bars a proposal not yet approved even when its own call raises |
| `Governance.EscalationStops` | agentfabric/governance/proposal_service.py:105-127 | after a same-tenant escalation the proposal can be executed if and only if it was approved before, and either its high-risk proposer is voting without leave, or it is unexpired and within authority (or human-required) and some vote counted has a role or ballot the engine refuses |
| `Governance.LateEscalation` | agentfabric/governance/proposal_service.py:112-115 | a concrete approved proposal that survives an escalation whose call raises |
| `RateLimit.ConnectorExecutionService.Execute` | agent_connectors/service.py:88-111 | refused if and only if the executions of this connector for this tenant within the last sixty seconds number at least the limit; the windows of every connector and tenant stay within their limits if and only if the minute before each stamp was not full, which a clock that does not step back inside a call ensures |
| `RateLimit.NoWindowExceedsTheLimit` | agent_connectors/service.py:202-210 | no closed minute, wherever it begins, holds more than the limit of one connector's executions for one tenant, and none at all under a negative limit |
| `RateLimit.SteppingBackInsideACall` | agent_connectors/service.py:202-210 | two executions in one minute under a limit of one, when the stamp is earlier than the check |
| `Migrations.MigrationRunner.Apply` | agentfabric/migrations/runner.py:28-49 | the pending migrations before the first whose apply or validation raises are applied one after the other, each marked on what it left, and nothing of that one remains; migrations may change the whole store |
| `Migrations.MigrationRunner.constructor` | agentfabric/migrations/runner.py:19-22 | migrations are taken in order of version |
| `Migrations.RunAllOutcome` | agentfabric/migrations/runner.py:30-43 | so it is for every list of migrations and every store |
| `Migrations.FailureLeavesTheSuccessfulPrefix` | agentfabric/persistence/unit_of_work.py:18-36 | a failing migration leaves store and versions exactly as after the last successful one |
| `Migrations.PendingAfterRun` | agentfabric/migrations/runner.py:24-26 | after any run of migrations that leave the rows of the version table alone, what is pending is exactly the part not applied, in order |
| `Migrations.ResumedApplyEqualsUninterrupted` | agentfabric/migrations/runner.py:28-49 | a failed apply followed by a successful one equals one uninterrupted apply, and nothing is left pending |
| `MemoryStores.PutKeepsExactIff` | agentfabric/memory/memory_store.py:26-31 | index buckets still equal scans of the records if and only if the id is new, or owner and tenant are unchanged and an indexed workflow stays |
| `MemoryStores.StaleEntryIsListed` | agentfabric/memory/memory_store.py:26-31 | after a write that moves a record to another tenant or owner, the old bucket still names it |
| `MemoryStores.StaleEntryOutlivesTheRecord` | agentfabric/memory/memory_store.py:64-72 | and still does after the new owner has deleted it |
| `MemoryStores.AnotherTenantsRecordIsListed` | agentfabric/memory/memory_store.py:56-62 | a concrete store in which listing for one tenant returns another tenant's record, and raises once that is deleted |
| `MemoryStores.AddKeepsExact` | agentfabric/memory/memory_index.py:16-20 | adding a record in its place keeps every bucket equal to a scan |
| `MemoryStores.RemoveKeepsExact` | agentfabric/memory/memory_index.py:22-26 | removing a record keeps every bucket equal to a scan |
| `MemoryStores.DurableMemoryStore.constructor` | agentfabric/memory/memory_store.py:15-24 | loading the persisted records in any order gives exact buckets |
| `MemoryStores.DurableMemoryStore.Put` | agentfabric/memory/memory_store.py:26-31 | refuses sensitive content without a trace; otherwise stores, indexes and persists in any state, and an exact index stays exact precisely under the condition above |
| `MemoryStores.DurableMemoryStore.Create` | agentfabric/memory/memory_store.py:33-54 | a new record is stored, indexed and persisted, or refused without a trace |
| `MemoryStores.DurableMemoryStore.ListForAgent` | agentfabric/memory/memory_store.py:56-62 | in any state, returns the records its bucket names in order of id and touches only those, or raises before touching any if one is missing; with an exact index these are the records of tenant and owner |
| `MemoryStores.DurableMemoryStore.Delete` | agentfabric/memory/memory_store.py:64-72 | in any state, removes exactly the addressed record of its owner if deletion is on and it is not on legal hold, else nothing; an exact index stays exact |
| `MemoryStores.DurableMemoryStore.EnforceRetention` | agentfabric/memory/memory_store.py:74-84 | in any state, exactly those records stay that may not be deleted, are on legal hold, or whose kind of memory has no time to live or has not outlived it; returns how many go; an exact index stays exact |

## Left out

- Negative `max_retries`: the retry loop would be skipped; retries are natural numbers here.
- `MeshWorkflowEngine.start` as an object: the engine is a state machine on values, since its threads interleave; update in place of `WorkflowState` is not modelled beyond that. Parallel and sequential batches are both among its interleavings.
- Appends by concurrent threads: one append is one step; the code reads the sequence number from the length of the list without a lock.
- Tenant and organization ids, timestamps, the live list of traces, latency, reputation and the conversation context in workflow events; no workflow property here depends on them.
- Initial payload and shared context handed to node runners, and timeouts: a runner is a relation between node, dependency results and attempt.
- Checkpoint contents.
- SHA-256 and JSON: arbitrary functions, collision-free only where a member says so. `str.lower` is ASCII lower-casing.
- Real files: directories, symbolic links other than aliasing, newline translation, partial writes, and a path that resolves to the destination directory itself. The set of paths whose handling raises is a parameter.
- Building the contents of plans: workers, quality gates, materialisation, dry runs and reviews. The build service's destination check is part of path resolution.
- The hash comparison after writing in `execution_engine.execute`: it compares the plan's hashes with hashes of the same contents and cannot fail.
- Redis, session commits and row errors of the queue. The whole-run results are for work queues and user payloads, with each delivery acknowledged once; the operations themselves are stated for every call. Message ids are a counter. Reading a retry count knows integers and ASCII text, not floats, booleans or null.
- Storing a proposal under a used id is stated without the invariant. The human approval queue is a set of approved tenant and proposal pairs, and the policy service a boolean.
- Floating-point rounding of vote ratios: ratios are real numbers.
- Denied connector calls' records, sandbox and vault checks: one boolean says whether the call completes. The limit of a connector is fixed.
- Migration dry runs, the built-in migrations that stand in for an empty list, application times and the SQLite unit of work. Resuming is stated for migrations that leave the rows of the version table alone and whose effect, when they succeed, depends on the store alone.
- The retention clock is read once per call.
- BuildWorker.BuildWorkerService.StorePlan: takes the contents already sorted by path, as the code stores them.
- MemoryStores.DurableMemoryStore.Create: asks for an unused id, standing for a fresh uuid.
- Federation, marketplace, cloud dispatch, billing, health and reputation scores, catalogs and generated sources: data handling with mostly one-branch claims.
