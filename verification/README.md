# A verified model of the BitBake run queue and its neighbours

This project models, in Dafny, the core of a BitBake build and proves what its parts promise.

**The run queue** (`bitbake/lib/bb/runqueue.py`), in the order a build goes through it:

- `RunQueuePrepare.dfy`, `TaskWeights.dfy`: marking and pruning the task graph, reverse dependencies, the layered
  weighting that also finds cycles, and the hash order.
- `SceneCollapse.dfy`: collapsing the graph onto the setscene tasks and finding the unskippable ones.
- `SceneExecute.dfy`: hard dependencies between setscene tasks, the recursive counter update, and the run.
- `SkipList.dfy`: which tasks need not run because setscene tasks covered them.
- `Schedulers.dfy`: the speed and completion orders and the choice of the next task.
- `ExecuteTasks.dfy`: the executor, its workers, stamps, statistics and failures.
- `StampCheck.dfy`: the memoised recursive stamp check.
- `WorkerPipe.dfy`: decoding worker replies from a byte stream.
- `RunQueue.dfy`: the stages chained, from a resolved dependency graph to the verdict of the build.

**Around it**

- `NameCodecs.dfy`: task ids and virtual file names (`cache.py`, `runqueue.py`).
- `DataStore.dfy`, `VarNames.dfy`, `Overrides.dfy`: the layered datastore, what its operations make of the names of
  variables, and the choice among override variables (`data_smart.py`).
- `CowLevels.dfy`: copy-on-write dictionaries (`COW.py`).
- `ParseFanout.dfy`: feeder, parsers and server of the parallel parser (`cooker.py`).
- `DependencyReport.dfy`: the report of paths to unsupported recipes (`supportedrecipes.py`).

`Graphs.dfy` holds paths, reachability, acyclicity and the rank that falls along every edge; `Wrappers.dfy` an option
type.  `dafny verify dfyconfig.toml` checks everything.

## How the code is rendered

Objects whose methods update fields are classes with those fields.  Where the identity of Python objects is what
matters (levels, dictionaries, lists and sets that are shared), the objects live in a store or heap and are named by
their index, so that sharing and copying are visible.  Loops over sets and dictionaries pick their elements in any
order.  Everything the code asks the world is arbitrary: the order and status of worker reports, stamps, hash and
verify hooks, cache validity, queue timeouts, expansions.  What decides about a task (its stamps, the answers of the
hooks, whether it is empty) is an input of the run, asked once for each task, so that what became of the task can be
stated in terms of it.  Each method is proved against predicates or functions on
its data, and the lemmas say what these mean.  Recursion that the code bounds by the graph is shown to end by the rank;
`renameVar` and the passing on of setscene failures, which can recurse without bound, take the interpreter's recursion
limit as a parameter.  That workers are prompt means that whenever their replies are read at least one busy worker has
replied; only the statements that bound the number of turns assume it.

## What the proofs found

- Forwarding in the setscene collapse hands on what a point was sent (`task`, line 1919), not what it collected, so a
  squashed set may hold more than the nearest setscene dependents.  It is bounded by these and by all of them.
- After a failure in abort mode the same call of `execute` may still start one task; never two.
- The first pass over the tasks when the skip list is computed does not look at the setscene tasks that failed; the
  later passes do (lines 1540-1555).
- Task ids and virtual names do not round-trip for all strings; the exact conditions are stated.  The key
  `multiconfig:mc:cls` disagrees with the encoder exactly when the class begins with a colon.
- A copy-on-write level hands out its parent's own object for a key that ends in the storage suffix, and only then can
  a change through one level be seen outside the levels made from it (`CowStore.SuffixLeaks`).  A mutable value set
  over an inherited immutable one stays invisible.
- The rightmost override need not win when recorded names are compound.  A name is matched in the pass counted by how
  often a part stands left of the next one, so a pair `a_b` whose parts stand in this order in `OVERRIDES` beats every
  single override.  The rightmost one is sure to win iff all others have their parts in reverse order and begin left.
- Copies of a datastore share the set of exported names, and nothing else that is ever changed in place: what is
  exported in a copy is exported in the original (`DataHeap.ExportLeaks`).
- Renaming a variable to its own name with an override behind it recurses without end, because the new name is recorded
  as an override of the old one before the recorded ones are renamed (`DataHeap.RenameNeverEnds`).  Without recorded
  override variables that is the only way in which it does not end; with them a large enough limit is enough whenever
  the new name does not begin with the old one and an underscore, and none is if it contains the old name and is the
  first of them.
- The failure of a setscene task is passed on without end exactly if hard dependencies lead from it to a cycle;
  otherwise never deeper than there are tasks (`SceneExecute.NestingEnds`, `FailureNeverEnds`).  So the stage breaks off
  exactly if such a task fails, and tasks on a cycle of requirements wait for ever.
- Setting `x_append` for a lower-case name `x` without an underscore records `x` as an override of `x` less its last
  character (lines 550-566); the model keeps this (`VarNames.OverrideForMeans`).
- If a recipe on a cycle is unsupported or needs an unsupported one, the dependency report may leave paths out, since
  pruning is decided while the cycle is cut.  If `r` needs `a`, `a` needs `b` and the unsupported `u`, and `b` needs
  `a`, then `b` is found harmless on the way through `a`, and a root `s` that needs only `b` is not listed.  Tasks
  without any cycle give such recipes (`DependencyReport.ReportMissesPath`, `KnotIsRecipeGraph`, `ReportOfKnot`).  What
  is listed is still right, and each unsupported recipe that needs no other one ends some line.
- The comment in the report promises a line for each path to an unsupported recipe; paths that a longer listed path
  continues are left out.

## Model
| member | source | states |
|---|---|---|
| RunQueue.Build | bitbake/lib/bb/runqueue.py:1163-1254 | Preparation, restoring, skip list and execution chained: the queue is refused exactly if a target is unknown, nothing is active, the pruned graph has a cycle, or a prepared setscene task needs one hard that is not prepared; restoring breaks off exactly as the recursion of failures does; otherwise, for every behaviour of workers, stamps and hooks, the skipped tasks are those that covering and removing yield, the returned history is safe and records exactly the complete and the failed tasks, of the tasks started exactly those that are neither skipped nor empty nor have a current stamp were handed to workers, each once, a complete build completed every needed task, a failed one in continue mode completed exactly the tasks that neither failed nor depend on a failed task, and every setscene task was restored, given up or left waiting for ever; a setscene task is restored without a worker only if it is stamped, empty, or left out as neither target nor unskippable nor needed by anything unrestored; if busy workers report whenever they are read, a number of turns linear in the tasks ends each stage |
| RunQueue.Restore | bitbake/lib/bb/runqueue.py:1851-2087 | The setscene stage never meets its fatal inconsistency and refuses exactly the hard dependencies on tasks that do not exist; with a recursion limit not less than the number of tasks it breaks off exactly if a task fails from which hard dependencies lead to a cycle; it keeps restored and failed tasks apart, dispatches each task once with all its hard prerequisites restored, and only if the hash check accepts it, no stamp speaks for it and it is not to be run again; a task is left out only if it is no target, not unskippable, called unneeded by the hook, required by something and by nothing that is not restored; any other task restored without a worker was present or stamped, and one given up without a worker was ruled out or is to be run anyway; a task that was dispatched although it could have been left out had something it waited for given up; when the stage has finished every setscene task is restored, given up, or waits for ever, for a task without a setscene variant or on a cycle of requirements; the log names exactly the tasks dispatched and those dealt with at once |
| RunQueue.TargetsAreRestored | bitbake/lib/bb/runqueue.py:2159-2211 | So a target or an unskippable task that no stamp speaks for is restored only by a worker, and a target not at all if forced |
| RunQueue.ResolvedFits | bitbake/lib/bb/runqueue.py:1977-2025 | What collapsing and hard-dependency resolution produce meets everything the setscene run needs of its graphs; the requirements are the hard dependencies and, for tasks that nothing needs hard, setscene dependents |
| RunQueue.RequirementsAcyclic | bitbake/lib/bb/runqueue.py:1977-2008 | The requirement graph of the setscene run has no cycle if the hard dependencies have none |
| RunQueue.NoneStranded | bitbake/lib/bb/runqueue.py:2215-2235 | If every hard dependency has a setscene variant and they have no cycle, a finished stage has restored or given up every setscene task |
| RunQueue.RunTasks | bitbake/lib/bb/runqueue.py:1526-1829 | The last stage on a prepared graph: the returned history is safe and records exactly the returned complete and failed tasks, with the verdicts about completeness; of the tasks started, exactly those are handed to workers that are neither skipped nor empty nor have a current stamp, each once |
| RunQueue.SuccessRunsAll | bitbake/lib/bb/runqueue.py:1757-1807 | A build that succeeds has handed to workers exactly the tasks of the graph that are neither skipped nor empty nor have a current stamp, each once |
| TaskWeights.WeightsPositive | bitbake/lib/bb/runqueue.py:398-415 | Every weight that satisfies the weight law on an acyclic graph is positive |
| TaskWeights.DependencyWeighsMore | bitbake/lib/bb/runqueue.py:384-442 | A dependency weighs strictly more than each of its dependents |
| TaskWeights.WeightsUnique | bitbake/lib/bb/runqueue.py:384-442 | On an acyclic graph the weight law (10 for endpoints, otherwise 1 plus the sum over distinct dependents) determines the weights |
| RunQueuePrepare.FinishedIsSound | bitbake/lib/bb/runqueue.py:407-418 | A task whose counter reached zero is neither on a cycle nor below one |
| RunQueuePrepare.UnfinishedIsBelowCycle | bitbake/lib/bb/runqueue.py:420-426 | A task left unfinished when the layers run out is on a cycle or below one |
| RunQueuePrepare.RunQueueData.SpreadWeight | bitbake/lib/bb/runqueue.py:409-415 | One task of a layer hands its weight to each dependency exactly once |
| RunQueuePrepare.RunQueueData.SpreadLayer | bitbake/lib/bb/runqueue.py:407-418 | One layer finishes and the next one holds exactly the tasks whose last dependent it was |
| RunQueuePrepare.RunQueueData.CalculateTaskWeights | bitbake/lib/bb/runqueue.py:384-442 | The problem tasks are exactly those on or below a cycle, none iff the graph is acyclic, and then the weights obey the weight law |
| RunQueuePrepare.RunQueueData.RemoveSelfReferences | bitbake/lib/bb/runqueue.py:634-642 | Only self references go |
| RunQueuePrepare.RunQueueData.MarkActive | bitbake/lib/bb/runqueue.py:656-669 | Recursive marking adds the task and only tasks it needs, and leaves the newly marked ones closed under dependencies |
| RunQueuePrepare.RunQueueData.MarkTargets | bitbake/lib/bb/runqueue.py:671-709 | The active tasks are exactly the targets (or, for the trailing-dash form, their dependencies) and everything these need; the first unknown target is reported iff there is one |
| RunQueuePrepare.NeededClosed | bitbake/lib/bb/runqueue.py:656-709 | What the targets need is closed under dependencies, so pruning leaves no dangling edge |
| RunQueuePrepare.RunQueueData.PruneInactive | bitbake/lib/bb/runqueue.py:713-721 | Exactly the inactive tasks go |
| RunQueuePrepare.RunQueueData.BuildReverseDependencies | bitbake/lib/bb/runqueue.py:742-745 | The reverse dependencies are the inverse relation |
| RunQueuePrepare.RunQueueData.FindEndpoints | bitbake/lib/bb/runqueue.py:749-758 | The endpoints are the tasks without dependents, each once; preparation goes on iff no two tasks depend on each other, and otherwise two such are named |
| RunQueuePrepare.RunQueueData.HashTasks | bitbake/lib/bb/runqueue.py:936-951 | The hash loop ends and hashes every task once, after everything it depends on |
| RunQueuePrepare.RunQueueData.Prepare | bitbake/lib/bb/runqueue.py:634-951 | Preparation succeeds iff all targets are known, something is active and the pruned graph is acyclic; then graph, inverse, weights and hash order are the specified ones; otherwise the first unknown target, the lack of active tasks, two tasks that depend on each other, or else exactly the tasks on or below a cycle are reported |
| NameCodecs.SplitBuildTid | bitbake/lib/bb/runqueue.py:51-74 | Splitting a built task id returns its parts iff an exact condition on the parts holds |
| NameCodecs.BuildSplitTid | bitbake/lib/bb/runqueue.py:51-74 | Building from the split parts returns the id iff an exact condition on the id holds |
| NameCodecs.TidReadersAgree | bitbake/lib/bb/runqueue.py:45-69 | On such ids the one-colon readers agree with the splitter |
| NameCodecs.ReadOfVirtual | bitbake/lib/bb/cache.py:247-274 | Decoding an encoded virtual name returns file, class and configuration iff an exact condition holds; class parts may contain colons |
| NameCodecs.VirtualOfRead | bitbake/lib/bb/cache.py:247-274 | Encoding a decoded virtual name returns it iff an exact condition on how the name is divided by colons holds |
| NameCodecs.VariantOfMulticonfigKey | bitbake/lib/bb/cache.py:276-287 | The key stored for a multiconfig datastore (built at lines 358-364) names the same virtual file iff the class part does not begin with a colon |
| NameCodecs.VariantOfPlainKey | bitbake/lib/bb/cache.py:276-287 | A plain class key names the same virtual file iff it does not look like a multiconfig key |
| Schedulers.SpeedPrioMap | bitbake/lib/bb/runqueue.py:193-211 | The bucket loop yields the speed order: every task once, heaviest first, later tasks first among equals |
| Schedulers.SpeedOrderUnique | bitbake/lib/bb/runqueue.py:199-211 | There is only one such order |
| Schedulers.SpeedListsDependenciesFirst | bitbake/lib/bb/runqueue.py:199-211 | With the weights of an acyclic graph the speed order lists every dependency before its dependents |
| Schedulers.CompletionPrioMap | bitbake/lib/bb/runqueue.py:223-243 | The in-place grouping loop equals grouping by recipe |
| Schedulers.GroupedIsPermutation | bitbake/lib/bb/runqueue.py:229-243 | Grouping is a permutation |
| Schedulers.GroupedIsContiguous | bitbake/lib/bb/runqueue.py:229-243 | Each recipe is contiguous after grouping |
| Schedulers.GroupedKeepsRecipeOrder | bitbake/lib/bb/runqueue.py:229-243 | Grouping keeps the order inside each recipe |
| Schedulers.GroupedKeepsRecipes | bitbake/lib/bb/runqueue.py:229-243 | Grouping orders the recipes by first appearance |
| Schedulers.DeleteIndices | bitbake/lib/bb/runqueue.py:235-243 | Deleting the collected indices from the back removes exactly the tasks of the recipe |
| Schedulers.RunQueueScheduler.constructor | bitbake/lib/bb/runqueue.py:124-143 | The scheduler starts with its order and exactly the buildable tasks |
| Schedulers.RunQueueScheduler.BestFree | bitbake/lib/bb/runqueue.py:163-174 | The search returns a task of lowest rank whose stamp is free, or None iff there is none |
| Schedulers.RunQueueScheduler.NextBuildableTask | bitbake/lib/bb/runqueue.py:145-174 | The choice is the best-placed buildable, not running task with a free stamp, None iff there is none |
| Schedulers.RunQueueScheduler.Next | bitbake/lib/bb/runqueue.py:176-181 | Nothing is handed out at the parallelism limit, and otherwise the choice above |
| ExecuteTasks.StartsAfterAllDependencies | bitbake/lib/bb/runqueue.py:1650-1829 | In every safe history a task starts only after all its transitive dependencies have completed |
| ExecuteTasks.DependentsOfFailedNeverStart | bitbake/lib/bb/runqueue.py:1650-1829 | In every safe history no transitive dependent of a failed task starts |
| ExecuteTasks.QuiescentIsComplete | bitbake/lib/bb/runqueue.py:1811-1827 | With nothing on workers and nothing left to start, exactly the tasks are complete that neither failed nor depend on a failed task |
| ExecuteTasks.StampReturned | bitbake/lib/bb/runqueue.py:1451-1456 | Removing a stamp from both books keeps them in step and the stamps distinct |
| ExecuteTasks.RunQueueExecuteTasks.constructor | bitbake/lib/bb/runqueue.py:1536-1539 | The initial books satisfy the invariant |
| ExecuteTasks.RunQueueExecuteTasks.CheckDependents | bitbake/lib/bb/runqueue.py:1661-1674 | Exactly the dependents whose dependencies are all complete become buildable, even though live dependencies contain self references by then |
| ExecuteTasks.RunQueueExecuteTasks.TaskCompleteOutright | bitbake/lib/bb/runqueue.py:1654-1674 | Completing a task restores: buildable iff all dependencies complete |
| ExecuteTasks.RunQueueExecuteTasks.RunqueueProcessWaitpid | bitbake/lib/bb/runqueue.py:1451-1462 | A worker report frees the stamp and moves the task to complete or failed; abort mode starts cleaning up |
| ExecuteTasks.RunQueueExecuteTasks.ReadWorkers | bitbake/lib/bb/runqueue.py:1451-1462 | Any reports in any order keep the invariant |
| ExecuteTasks.RunQueueExecuteTasks.TaskSkip | bitbake/lib/bb/runqueue.py:1692-1698 | A skipped task starts and completes in one step and the books stay balanced |
| ExecuteTasks.RunQueueExecuteTasks.BuildTaskDepData | bitbake/lib/bb/runqueue.py:1831-1849 | The dependency data covers exactly the task and everything it transitively needs; the only side effect is that the task joins its own live dependencies |
| ExecuteTasks.RunQueueExecuteTasks.RunNoexec | bitbake/lib/bb/runqueue.py:1771-1781 | An empty task is accounted for like a finished one |
| ExecuteTasks.RunQueueExecuteTasks.Dispatch | bitbake/lib/bb/runqueue.py:1786-1807 | A dispatched task is recorded once, with a stamp no other worker holds |
| ExecuteTasks.RunQueueExecuteTasks.PickNext | bitbake/lib/bb/runqueue.py:1756 | None iff the limit is reached or every candidate stamp is held; otherwise a startable task of best priority |
| ExecuteTasks.RunQueueExecuteTasks.StartNext | bitbake/lib/bb/runqueue.py:1756-1807 | One task is started iff there is room and a task could start, and none that could start stands before it in the order of the scheduler |
| ExecuteTasks.RunQueueExecuteTasks.StartTask | bitbake/lib/bb/runqueue.py:1757-1807 | A picked task is handed to a worker iff it is neither covered nor empty nor has a current stamp; covered and current tasks are counted as skipped, and whatever is not handed on is complete at once |
| ExecuteTasks.RunQueueExecuteTasks.Execute | bitbake/lib/bb/runqueue.py:1700-1829 | A call starts one task at most, and starts one if a task could start and there is room; a call that ends the queue has completed everything possible, and it reports success only with every task buildable, run and complete, so the sanity messages cannot fire |
| ExecuteTasks.RunQueueExecuteTasks.Finish | bitbake/lib/bb/runqueue.py:1487-1500 | Cleaning up starts nothing and reports failure iff a task failed |
| ExecuteTasks.RunQueueExecuteTasks.Run | bitbake/lib/bb/runqueue.py:1211-1231 | Over any number of turns: safe history that records exactly the started, complete and failed tasks; of the tasks started exactly those are handed to workers that are neither covered nor empty nor have a current stamp, each once, whatever fails was, and whatever started without a worker completed; the skipped counter is the number of covered and current tasks started; completed + failed + active = started, active = held stamps within the limit, held stamps distinct, at most one start after the first failure in abort mode, and sound verdicts; if a busy worker reports in each reading, more than twice as many turns as tasks reach a verdict |
| ExecuteTasks.Accounting | bitbake/lib/bb/runqueue.py:92-105 | The books force completed + failed + active = started |
| SkipList.SkipSafety | bitbake/lib/bb/runqueue.py:1534-1606 | A task left to run depends only on tasks not skipped or covered from the start |
| SkipList.SkippedIsLeast | bitbake/lib/bb/runqueue.py:1534-1606 | With nothing tried in vain and nothing named invalid, exactly the least set is skipped that contains the restored tasks and whatever has only skipped dependents |
| SkipList.CoveredByFirst | bitbake/lib/bb/runqueue.py:1543-1555 | After the first pass nothing is left open: what is covered is determined, and a task that was tried in vain is covered by the first pass or not at all |
| SkipList.OnePassCovers | bitbake/lib/bb/runqueue.py:1537-1541 | Whatever its order, the first pass covers every task that the restored ones support |
| SkipList.CoveredTasks.Cover | bitbake/lib/bb/runqueue.py:1536-1555 | The passes end; the first covers, in some order of the tasks, whatever is supported by what it has covered so far, whether tried in vain or not; the others add exactly the least set above that which is closed under covering supported tasks that were not tried in vain |
| SkipList.CoveredTasks.RemoveInvalid | bitbake/lib/bb/runqueue.py:1584-1604 | The removal worklist ends, removes each task only while it is covered and removes exactly the least closed set above the invalid ones |
| SkipList.CoveredTasks.Compute | bitbake/lib/bb/runqueue.py:1534-1606 | Both loops together yield exactly the skip set: everything that covering adds, less the least closed set above the covered tasks that the hook names; a task left to run depends on nothing skipped that was not restored |
| SceneCollapse.SceneQueue.SendOn | bitbake/lib/bb/runqueue.py:1913-1919 | One point, exactly: each dependency no longer waits for it and receives what it sends; those that are no setscene tasks and wait for nobody or have received anything are points of the next round, with what the point itself was sent; and the flow invariant is kept |
| SceneCollapse.SceneQueue.ProcessPoint | bitbake/lib/bb/runqueue.py:1903-1919 | One point: what it has collected is stored at a setscene task and passed on otherwise, with the exact effect of sending; the flow invariant is kept |
| SceneCollapse.SceneQueue.ProcessEndpoints | bitbake/lib/bb/runqueue.py:1901-1923 | The recursion ends on an acyclic graph and leaves ancestors at setscene tasks only |
| SceneCollapse.SceneQueue.ProcessEndpoints2 | bitbake/lib/bb/runqueue.py:1932-1957 | The second recursion ends and marks exactly the unskippable tasks |
| SceneCollapse.SceneQueue.FindUnskippable | bitbake/lib/bb/runqueue.py:1927-1961 | Unskippable are exactly the setscene tasks reachable from a plain endpoint with no setscene task in between |
| SceneCollapse.SceneQueue.Collapse | bitbake/lib/bb/runqueue.py:1879-1973 | Each squashed set lies between the directly dependent and all transitively dependent setscene tasks, and the fatal inconsistency is unreachable |
| SceneExecute.ResolveHardDeps | bitbake/lib/bb/runqueue.py:1977-2008 | Fatal iff a dependency names no task; otherwise hard tasks keep only their hard requirements and all others gain theirs |
| SceneExecute.NothingLeft | bitbake/lib/bb/runqueue.py:2215-2235 | With nothing on workers and nothing to start, every task is covered, was given up, or waits for a task without a setscene variant or on a cycle of requirements none of which is covered |
| SceneExecute.LeftOver | bitbake/lib/bb/runqueue.py:2215-2235 | At the end a task is left waiting iff something it requires is |
| SceneExecute.NestingEnds | bitbake/lib/bb/runqueue.py:2089-2100 | The failure of a task nests without end iff hard dependencies lead from it to a cycle; otherwise no deeper than there are tasks |
| SceneExecute.FailureNeverEnds | bitbake/lib/bb/runqueue.py:1977-2100 | So it happens: if a needs p and b hard and b needs a, then p waits for nothing and its failure never ends |
| SceneExecute.KeptAtStart | bitbake/lib/bb/runqueue.py:2157-2176 | What a startable task has waited for is covered or given up, so that one that is not needed is left out unless something was given up |
| SceneExecute.RunQueueExecuteScenequeue.constructor | bitbake/lib/bb/runqueue.py:2017-2031 | The counters start exact and the tasks without requirements buildable |
| SceneExecute.RunQueueExecuteScenequeue.UpdateCounters | bitbake/lib/bb/runqueue.py:2089-2100 | With any hard dependencies, cyclic ones included, and any recursion limit: an update that ends takes away exactly the task and, on failure, what needs it hard, even when a dependent is reached repeatedly, and frees exactly those whose last requirement went; it does not end if the task fails and leads to a cycle, and does if the limit exceeds the rank of any other |
| SceneExecute.RunQueueExecuteScenequeue.TaskCompleteOutright | bitbake/lib/bb/runqueue.py:2102-2111 | Covering a task keeps the counters exact |
| SceneExecute.RunQueueExecuteScenequeue.GiveUp | bitbake/lib/bb/runqueue.py:2127-2140 | Giving a task up keeps the counters exact; with a limit not less than the number of tasks it succeeds iff the task leads to no cycle of hard dependencies |
| SceneExecute.RunQueueExecuteScenequeue.RunqueueProcessWaitpid | bitbake/lib/bb/runqueue.py:2122-2132 | A report covers the task or gives it up, or breaks the run off |
| SceneExecute.RunQueueExecuteScenequeue.Prevalidate | bitbake/lib/bb/runqueue.py:2035-2083 | With a hash check exactly the stamped and empty tasks are covered and exactly the others that it does not accept are ruled out; without one nothing happens |
| SceneExecute.RunQueueExecuteScenequeue.FindTask | bitbake/lib/bb/runqueue.py:2157-2178 | The search comes to the first free task in order, if there is one; it leaves the task out exactly if it is not unskippable, no target, called unneeded by the hook, required by something and by nothing that is not covered; otherwise it gives it up exactly if the hash check has ruled it out, and else returns it |
| SceneExecute.RunQueueExecuteScenequeue.StartTask | bitbake/lib/bb/runqueue.py:2180-2211 | The task found is handed to a worker iff its own stamp is not current, it is no forced target and its setscene stamp is not current; it is given up in the first two cases and covered in the last |
| SceneExecute.RunQueueExecuteScenequeue.Dispatch | bitbake/lib/bb/runqueue.py:2197-2211 | A dispatched task has all its hard prerequisites covered |
| SceneExecute.RunQueueExecuteScenequeue.Execute | bitbake/lib/bb/runqueue.py:2149-2235 | A call deals with one task at most, and with one if any is free and there is room; the stage ends only with idle workers and nothing free, or is broken off by a failure that leads to a cycle |
| SceneExecute.RunQueueExecuteScenequeue.Run | bitbake/lib/bb/runqueue.py:2149-2235 | In every run: it breaks off exactly if a task fails from which hard dependencies lead to a cycle, given a recursion limit not less than the number of tasks; otherwise covered and given-up tasks are disjoint, each task has a reason for what became of it (not needed, present, stamped, refused or handed to a worker), each dispatch is made once and with covered hard prerequisites, and a task is buildable iff released by every requirement; at the end every task is covered, given up, behind a task without a setscene variant or on or behind a cycle, and one that was not dealt with at once is left over iff a requirement of it is; with prompt workers it ends in a linear number of turns |
| StampCheck.CurrentMeans | bitbake/lib/bb/runqueue.py:1090-1161 | A task is current iff no chain of tasks whose stamps count leads from it to a stale one; which stamps count is said by the laws below |
| StampCheck.StampChecker.CheckStampTask | bitbake/lib/bb/runqueue.py:1090-1161 | With any sound cache the answer is that of the uncached definition, for which the laws below hold, and the cache stays sound |
| StampCheck.MustBeFresh | bitbake/lib/bb/runqueue.py:1142-1150 | A current task has a stamp, and each dependency without a setscene stamp has one that is not newer: always within its own file, under the full policy everywhere, and under a whitelist for files that are not listed |
| StampCheck.DoesNotMatter | bitbake/lib/bb/runqueue.py:1103-1110 | The answer for a task does not depend on the files of tasks that only dependencies in other files, with the per-file policy or listed in the whitelist, lead to |
| StampCheck.PerFileIsOwn | bitbake/lib/bb/runqueue.py:1103-1110 | With the default policy two states of the files that agree on the tasks of one file give the same answers there |
| StampCheck.FullMeans | bitbake/lib/bb/runqueue.py:1090-1161 | With the full policy and no setscene stamps a task is current iff it and everything it transitively needs have stamps none of which is older than that of a dependency |
| StampCheck.LocallyStamped | bitbake/lib/bb/runqueue.py:1119-1150 | With the full policy and any setscene stamps: the task has a stamp, and each dependency has one that is not newer or a setscene stamp that is newer than its own or stands alone |
| StampCheck.FileOfBuilt | bitbake/lib/bb/runqueue.py:51-74 | The file and the configuration that the check compares are those the task id was built from, if its parts can be told apart again |
| WorkerPipe.FrontStable | bitbake/lib/bb/runqueue.py:2373-2394 | A complete message at the front of the queue is not affected by later bytes |
| WorkerPipe.DecodeAppend | bitbake/lib/bb/runqueue.py:2365-2395 | Decoding in two goes equals decoding at once, for every byte stream |
| WorkerPipe.ChunksDoNotMatter | bitbake/lib/bb/runqueue.py:2365-2395 | However the stream is cut into reads, the messages and the remainder are the same |
| WorkerPipe.FrontOfEncoded | bitbake/lib/bb/runqueue.py:2375-2394 | An encoded message whose payload lacks its own closing tag is read back whole |
| WorkerPipe.EncodedText | bitbake/lib/bb/runqueue.py:2373-2394 | An event stands between <event> and </event>, an exit code between <exitcode> and </exitcode> |
| WorkerPipe.PartOfEncoded | bitbake/lib/bb/runqueue.py:2373-2394 | A proper prefix of an encoded message yields nothing |
| WorkerPipe.DecodeStream | bitbake/lib/bb/runqueue.py:2365-2395 | After any number of bytes of a clean stream exactly the complete messages have been delivered, in order, and the queue holds the rest |
| WorkerPipe.RunQueuePipe.Read | bitbake/lib/bb/runqueue.py:2357-2395 | One read delivers exactly the decoded messages and keeps only an unfinished rest |
| DependencyReport.DumpDependencies | meta-ostro/lib/supportedrecipes.py:205-264 | On any graph the lines are those of the walk, at most max_lines, and simple dependency paths from roots to unsupported recipes, and if they are not cut short every unsupported recipe that a root needs, and that needs no other unsupported one, ends a line; if every recipe on a cycle is clear, that is neither unsupported nor in need of an unsupported one, they are the specified report, or its first max_lines lines, truncated iff it is longer |
| DependencyReport.ReportMissesPath | meta-ostro/lib/supportedrecipes.py:231-256 | On a graph with a cycle that is not clear the walk takes a recipe for clear that reaches an unsupported one, and leaves a path from a root out |
| DependencyReport.KnotIsRecipeGraph | meta-ostro/lib/supportedrecipes.py:214-225 | That graph is the recipe graph of a task graph |
| DependencyReport.KnotTasksAcyclic | meta-ostro/lib/supportedrecipes.py:214-225 | which has no cycle |
| DependencyReport.ReportOfKnot | meta-ostro/lib/supportedrecipes.py:205-264 | So the function, given that task graph, returns only the path of the first root |
| DependencyReport.AcyclicIsTame | meta-ostro/lib/supportedrecipes.py:231-261 | A recipe graph without cycles has no cycle that is not clear |
| DependencyReport.EveryCulpritListed | meta-ostro/lib/supportedrecipes.py:228-261 | On every graph a walk that is not cut short ends a line with each unsupported recipe that a root needs and that needs no other unsupported one |
| DependencyReport.DependencyDump.VisitRecipe | meta-ostro/lib/supportedrecipes.py:231-256 | The recursion ends on every graph and lists simple paths; with sound pruning, and no cycle but among clear recipes, its output is the expected list below the recipe, and the pruning set stays sound |
| DependencyReport.DependencyDump.VisitDependencies | meta-ostro/lib/supportedrecipes.py:241-243 | The loop over the sorted dependencies lists them in order or stops at the line limit |
| DependencyReport.FlattenTasks | meta-ostro/lib/supportedrecipes.py:214-225 | The lists are the sorted dependencies between recipes and the roots are the recipes no other recipe depends on; which recipes these are is said by the laws below |
| DependencyReport.RecipeOfIff | meta-ostro/lib/supportedrecipes.py:217-222 | The recipe of a task is the name without a dot that the task begins with and that ends there or at a dot |
| DependencyReport.RecipeEdges | meta-ostro/lib/supportedrecipes.py:214-225 | One recipe depends on another iff they differ and a task of the one, so named, depends on a task of the other |
| DependencyReport.RootsMean | meta-ostro/lib/supportedrecipes.py:214-225 | The roots are the given recipes that no task of another recipe depends on |
| DependencyReport.BeforeMeans | meta-ostro/lib/supportedrecipes.py:241-261 | The order in which recipes are listed is the lexicographic one |
| DependencyReport.ReportMeans | meta-ostro/lib/supportedrecipes.py:205-264 | A line is reported iff it is a path of at least two recipes from a root to an unsupported recipe below which nothing unsupported can be reached |
| DependencyReport.ReportOrdered | meta-ostro/lib/supportedrecipes.py:241-261 | The report is strictly increasing in depth-first sorted order |
| DependencyReport.OrderedDistinct | meta-ostro/lib/supportedrecipes.py:244-252 | So no line occurs twice or continues another |
| DependencyReport.BelowMeans | meta-ostro/lib/supportedrecipes.py:231-256 | The expected lines below a prefix are exactly its reportable continuations |
| DependencyReport.BelowEmpty | meta-ostro/lib/supportedrecipes.py:253-254 | Nothing is listed below a recipe iff nothing unsupported is there to list, which justifies the pruning |
| CowLevels.Isolated | bitbake/lib/bb/COW.py:54-119 | A change confined to one level and the levels made from it is invisible to every other level |
| CowLevels.OrdinaryKeysHandOutOwn | bitbake/lib/bb/COW.py:95-106 | For every key without the storage suffix, reading hands out an object that the level itself holds |
| CowLevels.SuffixedIff | bitbake/lib/bb/COW.py:39-106 | The keys that may hand out an object of another level are exactly those that end in the storage suffix |
| CowLevels.RevertUndoesSet | bitbake/lib/bb/COW.py:116-119 | Reverting undoes setting an item that the level did not hold |
| CowLevels.CowStore.Cow | bitbake/lib/bb/COW.py:54-57 | A new level returns for every key what its parent does |
| CowLevels.CowStore.SetItem | bitbake/lib/bb/COW.py:61-66 | Setting changes only the keys stored under that name, is invisible to other branches, and a mutable value is visible iff the plain name is found nowhere on the chain |
| CowLevels.CowStore.DelItem | bitbake/lib/bb/COW.py:113-114 | Deleting hides the key on this level only |
| CowLevels.CowStore.RevertItem | bitbake/lib/bb/COW.py:116-119 | Reverting drops the own item, or fails iff there is none |
| CowLevels.CowStore.GetMutable | bitbake/lib/bb/COW.py:68-86 | The first access copies an inherited mutable value into the level, which no reader notices |
| CowLevels.CowStore.GetItem | bitbake/lib/bb/COW.py:95-111 | Reading returns what the level shows and changes nothing for any reader; the object handed out is the level's own iff the lookup of the plain name did not yield an inherited mutable object |
| CowLevels.CowStore.Write | bitbake/lib/bb/COW.py:68-106 | An in-place change of a value obtained through a level stays invisible to the other branches iff that object was the level's own |
| CowLevels.CowStore.WriteObject | bitbake/lib/bb/COW.py:68-106 | An in-place change, however late, of an object that no level outside the branch holds stays within the branch |
| CowLevels.CowStore.SuffixLeaks | bitbake/lib/bb/COW.py:95-106 | With a suffixed key a child hands out its parent's object, and a change through it is seen in the parent |
| CowLevels.CowStore.Run | bitbake/lib/bb/COW.py:54-119 | Any run of operations on a level and levels made from it, with keys without the suffix, mixed with changes to any object handed out earlier, leaves every other level as it was |
| DataStore.Isolated | bitbake/lib/bb/data_smart.py:446-466 | A change confined to one store is invisible to every store that does not inherit from it, but for the exported names |
| DataStore.ExportSeen | bitbake/lib/bb/data_smart.py:658-663 | The exception: adding an exported name is seen by every store that shares the set object, iff the name is new |
| VarNames.OverrideForMeans | bitbake/lib/bb/data_smart.py:550-566 | A name with an underscore is recorded for w under o iff it is w_o, o and its last part are lower-case, and w is not empty unless o has no underscore; a lower-case name without one is recorded under itself less its last character |
| VarNames.LowerByLast | bitbake/lib/bb/data_smart.py:554 | Lower case by the last character: a capital spoils it, a small letter is enough without capitals before it, others do nothing |
| VarNames.KeywordMeans | bitbake/lib/bb/data_smart.py:477-481 | The keyword of a name, and the override behind it, are those of the way to read the name as base, keyword and either nothing or an underscore and the rest that has the shortest base; none iff there is no way |
| DataStore.ActiveNamesMeans | bitbake/lib/bb/data_smart.py:512-522 | With underscore-free overrides an assignment empties exactly the variables recorded for the name under a name made of overrides |
| VarNames.AddedOnce | bitbake/lib/bb/data_smart.py:560-564 | A record is made once, behind the records there are, which stay |
| VarNames.RemovedOne | bitbake/lib/bb/data_smart.py:617-641 | Of the records of a pair the first goes and the others stay in order |
| DataStore.DataHeap.CreateCopy | bitbake/lib/bb/data_smart.py:839-858 | A copy returns every variable and every recorded override of the original, which is not affected |
| DataStore.DataHeap.ExportInCopy | bitbake/lib/bb/data_smart.py:643-663 | Exporting a name in a fresh copy is seen in the original iff the original keeps a set of exported names in which the name is new, and then the original shows it as exported |
| DataStore.DataHeap.ExportLeaks | bitbake/lib/bb/data_smart.py:643-663 | So it happens in a store that exports one name and a copy that exports another |
| DataStore.DataHeap.AddToExportlist | bitbake/lib/bb/data_smart.py:658-663 | The name joins the exported names, and exactly the stores that find the same set object see it, iff it is new |
| DataStore.DataHeap.MakeShadowCopy | bitbake/lib/bb/data_smart.py:456-466 | The shallow copy looks like what was found |
| DataStore.DataHeap.UpdateOverrides | bitbake/lib/bb/data_smart.py:550-566 | Under each shorter name the loop comes to, and no other, the variable is recorded once; existing lists are replaced, not changed |
| DataStore.DataHeap.SetVar | bitbake/lib/bb/data_smart.py:468-534 | The value is held afterwards and the variable recorded under its shorter names; unless met in parsing, every active override variable is emptied and pending appends and prepends are gone; keyword names extend a copy of a list |
| DataStore.DataHeap.SetKeyword | bitbake/lib/bb/data_smart.py:478-502 | Any value is appended to a copy of the keyword list, unless something that cannot be appended to is kept there, and the base name is recorded |
| DataStore.DataHeap.Override | bitbake/lib/bb/data_smart.py:507-523 | A plain assignment drops pending appends and prepends and the recorded overrides, and exactly the active override variables are emptied; it fails iff the variable is recorded as its own active override |
| DataStore.DataHeap.DelVar | bitbake/lib/bb/data_smart.py:617-641 | The variable is empty afterwards, has no recorded overrides and leaves the record of every shorter name |
| DataStore.DataHeap.SetVarFlag | bitbake/lib/bb/data_smart.py:643-663 | The flag holds the value and the other flags what they did; export and unexport add the name to the exported names, which another store sees iff it finds the same set object and the name is new there |
| DataStore.DataHeap.DelVarFlag | bitbake/lib/bb/data_smart.py:760-774 | The flag, and nothing else, is gone from a variable that has any; other variables and all records stay |
| DataStore.DataHeap.RawValue | bitbake/lib/bb/data_smart.py:665-750 | The value read for a rename: content, else default, else nothing, when no removals apply |
| DataStore.DataHeap.RenameVar | bitbake/lib/bb/data_smart.py:571-605 | For any recursion limit: without recorded override variables the rename succeeds iff what is pending for the old name can be joined to what is pending for the new one and the new name does not become an override variable of the old one; then it has moved value and pending lists. With them it succeeds if the new name does not begin with the old one and an underscore, what is pending anywhere is a list, and no override variable is longer than the old name by the limit or more; then the new name has the value, the override variables are empty, the new name of each that is no part of another has its value, and outside the two families nothing has changed but what the new name begins with. It never succeeds if the old name occurs in the new one and this is the first override variable |
| DataStore.DataHeap.RenameKeywords | bitbake/lib/bb/data_smart.py:583-590 | Pending lists are joined for each keyword in turn, which succeeds iff each of the old ones can be joined to the new one |
| VarNames.OccursNext | bitbake/lib/bb/data_smart.py:592-596 | If the old name occurs in the new one, the new name occurs in what it is to be renamed to, so that it goes on for ever |
| VarNames.ReplacedFirst | bitbake/lib/bb/data_smart.py:592-596 | The new name of an override variable has the old name replaced where it first occurs and, from there on, in the rest |
| VarNames.NewRecord | bitbake/lib/bb/data_smart.py:550-605 | In a renaming to a name that does not begin with the old one, however nested, what assigning to the new name records within the family of the old one is longer than the name it is recorded for, shorter than the bound, and not recorded for the name being renamed |
| DataStore.DataHeap.RenameNeverEnds | bitbake/lib/bb/data_smart.py:571-605 | So it happens: renaming A to A_x exhausts every recursion limit |
| DataStore.DataHeap.RenameWithOverride | bitbake/lib/bb/data_smart.py:571-605 | So it ends: with A and A_x set, renaming A to B moves both values, to B and B_x, and empties the old names |
| DataStore.DataHeap.Run | bitbake/lib/bb/data_smart.py:456-663 | Any run of setVar, appendVar, prependVar, delVar, setVarFlag, delVarFlag and renameVar on a store leaves every variable but __exportlist, and every recorded override, of all stores that do not inherit from it |
| Overrides.CollectActive | bitbake/lib/bb/data_smart.py:669-678 | The active keys are exactly the recorded override names that apply, each with the variable recorded last |
| Overrides.PartsJoin | bitbake/lib/bb/data_smart.py:673-678 | Splitting a name at its underscores yields parts without underscores that joined together are the name |
| Overrides.AppliesIff | bitbake/lib/bb/data_smart.py:671-678 | With underscore-free overrides the names that apply are exactly those made of overrides, at any positions |
| Overrides.ApplyOverride | bitbake/lib/bb/data_smart.py:683-692 | One override against every key in any order: every key read is present, and for settled keys the effect is independent of the order |
| Overrides.ChooseOverride | bitbake/lib/bb/data_smart.py:680-694 | The loop always ends and chooses a recorded variable; for steady keys it is that of a key matched last, None iff no key is ever matched |
| Overrides.VisitShrinks | bitbake/lib/bb/data_smart.py:684-692 | Each rewrite strictly reduces the total length of the keys |
| Overrides.RightmostChosen | bitbake/lib/bb/data_smart.py:680-694 | If no key ends in an override to strip, the choice is exactly that of the rightmost override with a recorded variable |
| Overrides.RightmostWinsIff | bitbake/lib/bb/data_smart.py:680-694 | With underscore-free overrides, the rightmost one with a recorded variable is sure to win iff every other recorded name has its parts in strictly reverse order of OVERRIDES and its first part left of that override |
| Overrides.NameFate | bitbake/lib/bb/data_smart.py:683-692 | A name of any number of distinct parts is matched where its first part stands, in the pass counted by the ascents of the positions of its parts |
| Overrides.ChosenByPlaces | bitbake/lib/bb/data_smart.py:680-694 | The choice in terms of positions in OVERRIDES alone: a name whose positions have most ascents and, among these, one whose first part stands furthest right |
| Overrides.FindOverride | bitbake/lib/bb/data_smart.py:668-697 | From the recorded variables and OVERRIDES to the variable used: recorded last for an applicable override name, the loop's answer for steady keys, the rightmost recorded override if there is nothing to strip; and with distinct underscore-free overrides, where each recorded name made of them has distinct parts none of which, after the first, begins with a later one, a variable is used iff one is recorded for such a name, namely one whose positions have most ascents and whose first part, among these, stands furthest right |
| Overrides.SamePlaces | bitbake/lib/bb/data_smart.py:673-694 | A name is made of distinct underscore-free overrides in one way only, so that the choice by positions determines it |
| Overrides.PairAgainstSimple | bitbake/lib/bb/data_smart.py:680-694 | A pair beats a plain override unless its first part stands right of its second and left of the plain one |
| Overrides.RightmostFails | bitbake/lib/bb/data_smart.py:680-694 | A concrete case in which the rightmost override loses |
| ParseFanout.Conserved | bitbake/lib/bb/cooker.py:1944-2023 | No step of the feeder, a parser or the server loses or doubles a file |
| ParseFanout.RunConserves | bitbake/lib/bb/cooker.py:1944-2023 | In any run, timeouts included, each file is in as many places as it was to be parsed |
| ParseFanout.NoDeadlock | bitbake/lib/bb/cooker.py:1944-2023 | While something has not been read and there is a parser, a step other than a timeout is possible |
| ParseFanout.RunEnds | bitbake/lib/bb/cooker.py:1944-2023 | A run without timeouts is bounded by the files' distance from being read |
| ParseFanout.StuckMeansRead | bitbake/lib/bb/cooker.py:1944-2183 | A run that can go on by timeouts only has read every file, as often as it was to be parsed |
| ParseFanout.NobodyParses | bitbake/lib/bb/cooker.py:2083-2084 | Without a parser process no run ever reads anything |
| ParseFanout.CookerParser.SplitFiles | bitbake/lib/bb/cooker.py:2072-2079 | Every listed file is either left to the cache or to be parsed, by the cache's answer |
| ParseFanout.CookerParser.constructor | bitbake/lib/bb/cooker.py:2058-2110 | Counters, queues and the number of parser processes start as computed |
| ParseFanout.CookerParser.ParseNext | bitbake/lib/bb/cooker.py:2164-2239 | One result, an error, or the end; the first poll that does not give up takes the result that waits, results are taken in order, and the server goes on waiting only if every poll that found some gave up; it ends only with every file delivered exactly once and parsed + cached = total, and an error comes only from a file of the cache that cannot be loaded or a result that has raised |
| ParseFanout.CookerParser.ParseAll | bitbake/lib/bb/cooker.py:2185-2239 | The same for the whole loop of the caller, which takes the files of the cache first, one in each round |

## Left out

- Dependency resolution before line 634 of `runqueue.py` (inter-task and recursive dependencies): the model starts from
  the resolved graph.
- Multiple-provider checks, alternate-provider retry, setscene whitelist enforcement (`runqueue.py` 771-930, 1241-1247,
  1705-1748, 2113-2120): reporting and policy beside the scheduling.
- The fakeroot worker that cannot be spawned (`runqueue.py` 1791-1797): it ends the queue outside the accounting.
- Worker processes, pipes, pickling, stamps on disk, events, logging and progress: only their effects on the state.
- `dry_run`, `finish_now` and the dummy executor: nothing the properties need.
- The base scheduler (`runqueue.py` 118-184 used directly): its list holds a keys view as its only element, so it has
  no priorities; only the speed and completion schedulers are modelled.
- The computation of task hashes: hashing is an event in the order in which it happens.
- `SceneCollapse.SceneQueue.Collapse`: bounds the squashed sets instead of giving them exactly, because which further
  setscene tasks arrive depends on the order of iteration over Python dictionaries.
- `ExecuteTasks.RunQueueExecuteTasks.ReadWorkers`: tasks report at most once, as workers do.
- `SkipList.CoveredTasks.RemoveInvalid`: the hook names covered tasks, each once, as it is asked to; in
  `SkipList.CoveredTasks.Compute` it may name any, of which the covered ones count.
- `SceneExecute.RunQueueExecuteScenequeue.GiveUp`: the recursion limit is the same for each failure; with one that is
  less than the number of tasks a failure may also break off on a long chain, and nothing is said about when.
- `StampCheck.StampChecker.CheckStampTask`: the file times are a fixed snapshot, and a stamp whose time cannot be read
  counts as missing for its dependents; stamp whitelists are part of which dependencies are in scope.
- `WorkerPipe.RunQueuePipe.Read`: payloads are bytes; a payload that cannot be unpickled is fatal in the original.
- `DependencyReport.DumpDependencies`: that all paths are reported is stated where every recipe on a cycle is clear,
  because on other cycles pruning leaves paths out.
- `CowLevels.CowStore.GetItem`: keys that are names of methods of the classes themselves, which Python finds first, and
  warnings; values that are copy-on-write dictionaries, which are copied by making a level of them.
- `DataStore.DataHeap.Run`: a variable called `_data`, which would be taken for the link to the parent; the expand
  cache, the history and the set of variables that OVERRIDES refers to, which belong to one store; expansions that
  themselves write to the store.
- `DataStore.DataHeap.SetVar`: which overrides are active is a parameter, since it depends on expansions; a list or set
  that a caller passes is taken as it is then, not as what the caller makes of it later.
- `DataStore.DataHeap.RenameVar`: with recorded override variables nothing is said about success where the new name
  begins with the old one and an underscore without being the first of them, where either the old name begins with an
  underscore or records do not begin with the name they are for, as `VarNames.OverrideForMeans` allows for a lower-case
  name, nor about renaming a variable to itself; and nothing about what the new names of override variables hold that
  are override variables of each other, since one may then be moved over another.
- `DataStore.DataHeap.RenameKeywords`: a keyword flag that is not a list extends the destination arbitrarily.
- `Overrides.NameFate`: the parts of a name are distinct overrides without underscores, and none after the first begins
  with a later one, which stripping the later one would otherwise cut up.
- `Overrides.ChooseOverride`: for keys in which stripping an override leaves something it applies to again (an override
  repeated in one name), only termination and that a recorded variable is chosen; there the original depends on the
  order of the dictionary.
- `ParseFanout.CookerParser.ParseNext`: shutdown after the end or an error; results lost with the processes then.
- Skipped recipes, virtual file counts and the cache's own bookkeeping in `cooker.py` and `cache.py`.
