# A verified model of the NODES tasking runtime

NODES runs tasks with data dependencies. This project models the protocols that decide when a task may run, when it may
be forgotten, and how a loop of tasks is replayed, and proves what they promise in every run of the model.

- **Data accesses** (`AccessFlags`, `DataAccess`, `AccessTree*`, `Propagation`). Every access to an address is a node in
  a tree of chains. It has 23 flags that are only ever added, a successor and a child. Adding flags sends permissions
  (read, write, concurrent, commutative) to the next access, the first child, or back to the parent. `DataAccess` holds
  the automata as imperative code on one access, proved against the function `Emit`; `AccessTree` lets any thread take
  the next atomic step, with all messages ever sent in a log; `AccessTreeLinks`, `AccessTreeTokens`, `AccessTreeSteps`
  and `AccessTreeInvariant` prove that every step keeps the invariant; `AccessTreeSafety`, `AccessTreeMeaning` and
  `AccessTreeProgram` hold the results, the last one in terms of the accesses of a program. `Propagation` is the loop
  over the LIFO mailbox, with its termination.
- **Taskiter** (`TaskiterUnroll`, `TaskiterLoop`, `TaskiterGraph`, `TaskiterOrder`, `TaskiterExecution`, `TaskiterRun`).
  The body of a loop is recorded once as a graph, closed with edges to the next iteration, and replayed with one counter
  per task. `TaskiterUnroll` and `TaskiterLoop` prove that the closed graph means the same as the repeated program,
  `TaskiterGraph` that the recording code builds that graph, `TaskiterOrder` that the graph orders what the access types
  ask for, `TaskiterExecution` that the counters execute it, and `TaskiterRun` that the unregistration code does so to
  the end.
- **Optimizations of the graph** (`TaskDag`, `CriticalPath`, `GranularityChains`, `GranularitySizes`,
  `GranularityFronts`). Priorities by critical path, grouping of chains, and grouping of fronts, where
  `GranularitySizes` says what fronts, sizes and groups are to be.
- **Task tree** (`TaskTree`, `TaskTreeSafety`, `TaskRelease`, `TaskFinalization`). Wake-up and removal counters along
  the ancestors of a task: taskwait, delayed release of dependencies, and reclamation.
- **Readiness** (`Readiness`, `Submission`). The predecessor counter during registration, and why its guard is two;
  `Submission` runs it over several trees of accesses at once.
- **Commutative accesses** (`CommutativeSemaphore`).
- **Reductions** (`ReductionOrder`, `ReductionInfo`, `ReductionInvariant`, `ReductionMemory`, `ReductionSafety`,
  `ReductionSharing`, `ReductionRace`, `SubmittedSuccessor`). The counter that decides when a reduction is combined,
  over the steps of `AccessTree` and the calls that propagate messages, each with its stack of messages and the
  reduction it saw last. Accesses below a weak reduction join it. `ReductionInvariant` keeps the counters,
  `ReductionMemory` what the calls remember, `ReductionSafety` and `ReductionSharing` hold the results, and
  `SubmittedSuccessor` joins them with `Submission`.
- **Reduction storage** (`AtomicBitset`, `ReductionStorage`, `ReductionSlots`, `ReductionContributions`). The private slots
  of the CPUs: the methods of one thread, the lock-free search by several, and the contributions of several.

All atomics are sequentially consistent: a `fetch_add` or `fetch_sub`, with what the code decides from its result, is one
step. Where the source changes an object in place the model is a class whose methods are proved against a function of the
old state; where several threads share state the model is a transition system, and the classes perform its steps.

Three remarks on what the code does, as opposed to what a reader might expect.

- Chain grouping asks whether the *first* successor can be grouped and uses the answer for the whole chain. So a group can
  hold a vertex that may not be grouped (`GranularityChains.StrayExample`), exactly when some chain starts with two vertices
  that may be grouped and goes on to one that may not (`GranularityChains.StrayMembers`).
- A task after a reduction can be scheduled with write permission before the reduction is combined
  (`ReductionRace.ScheduledBeforeCombined`): the thread that brings write permission to the first participant delivers it
  first and counts the arrival later, and in between another thread may unregister that participant and go on.
  `ReductionSafety.SuccessorSees` says exactly when the reduction has been combined. Its closing is part of the condition
  because a successor outside the chain of the reduction need not have closed it; a task with an access later in the chain
  has done so before it is submitted (`SubmittedSuccessor.SubmittedSees`).
- The taskiter treats commutative accesses as writes, so it orders them.

## Model

| member | source | states |
|---|---|---|
| AccessFlags.WordInjective | src/dependencies/discrete/DataAccessFlags.hpp:21-46 | sets of the 23 flags that pack to the same word are equal |
| AccessFlags.FlagWords | src/dependencies/discrete/DataAccessFlags.hpp:21-46 | each flag alone is its word of the header |
| AccessFlags.FetchAddIsUnion | src/dependencies/discrete/DataAccess.cpp:481-486 | adding two words gives the word of the union if and only if the sets are disjoint |
| DataAccess.CheckIsEnables | src/dependencies/discrete/DataAccess.cpp:16-24 | the propagation test recognises exactly the updates that complete a condition, provided no flag is added twice |
| DataAccess.Access.TranslateFlags | src/dependencies/discrete/DataAccess.cpp:27-45 | satisfied flags become the matching child-done flags, permission by permission |
| DataAccess.Access.CalculatePropagationFlags | src/dependencies/discrete/DataAccess.cpp:47-84 | the acknowledgement flags are exactly those of the permissions sent, by destination |
| DataAccess.Access.CalculateDisposing | src/dependencies/discrete/DataAccess.cpp:86-125 | the accumulated mask accepts exactly the flag sets of a complete access |
| DataAccess.Access.ReadDestination | src/dependencies/discrete/DataAccess.cpp:127-148 | the receiver and, towards the parent, the translated flags |
| DataAccess.Access.InAutomata | src/dependencies/discrete/DataAccess.cpp:150-203 | the message to the child or to the successor that the declarative conditions call for |
| DataAccess.Access.OutAutomata | src/dependencies/discrete/DataAccess.cpp:205-268 | the single message of a write access, with its schedule request |
| DataAccess.Access.ReductionAutomata | src/dependencies/discrete/DataAccess.cpp:279-343 | the single message of a reduction, with its combination request |
| DataAccess.Access.ConcurrentAutomata | src/dependencies/discrete/DataAccess.cpp:345-398 | as for reads, with the concurrent permission shared |
| DataAccess.Access.CommutativeAutomata | src/dependencies/discrete/DataAccess.cpp:400-453 | as for reads, with the commutative permission shared |
| DataAccess.Access.ApplyPropagated | src/dependencies/discrete/DataAccess.cpp:455-471 | records a delivery and reports whether it completed the access |
| DataAccess.Access.Apply | src/dependencies/discrete/DataAccess.cpp:473-550 | for all six access types the mailbox gains exactly the messages of the declarative definition, and disposal is reported exactly on completion |
| DataAccess.Access.ApplySingle | src/dependencies/discrete/DataAccess.cpp:552-574 | the one message that comes back during registration |
| DataAccess.EmitSends | src/dependencies/discrete/DataAccess.cpp:150-453 | each permission whose condition is completed goes out in exactly one message, addressed to the right access, and so does the schedule request |
| DataAccess.RaisedIsEnabled | src/dependencies/discrete/DataAccess.cpp:21-24 | a token is raised by an update exactly when the update completes its trigger |
| AccessTreeInvariant.StepInv | src/dependencies/discrete/DataAccessRegistration.cpp:185-313 | registration, delivery, scheduling, acknowledgement, closing, unregistration and the end of a parent all keep the invariant of the tree |
| AccessTreeSafety.WriteExclusivity | src/dependencies/discrete/DataAccess.cpp:205-268 | in every run, when an access holds write permission every access before it in depth-first order, other than its ancestors, is unregistered |
| AccessTreeSafety.HolderExcludes | src/dependencies/discrete/DataAccess.cpp:164-198 | the same for every permission, except for accesses that share it |
| AccessTreeSafety.CompatibleSiblings | src/dependencies/discrete/DataAccess.cpp:164-181 | two siblings in use at once have the same type, which is read, concurrent or commutative |
| AccessTreeSafety.NextLinkIsLossless | src/dependencies/discrete/DataAccess.cpp:14-24 | towards the successor or the parent, the sender's condition holds exactly when the receiver has the permission or it is in flight, never both, and one message carried it |
| AccessTreeSafety.ChildLinkIsLossless | src/dependencies/discrete/DataAccess.cpp:47-84 | the same towards the first child |
| AccessTreeSafety.FetchAddNeverCarries | src/dependencies/discrete/DataAccess.cpp:455-486 | no update of any run sets a flag that is set, so the addition never carries |
| AccessTreeSafety.SingleDestinationAlways | src/dependencies/discrete/DataAccess.cpp:205-343 | no reachable update makes the write, readwrite or reduction automaton address both child and successor |
| AccessTreeSafety.ScheduledExactlyOnce | src/dependencies/discrete/DataAccessRegistration.cpp:212-218 | a strong access asks for its task in exactly one message, if and only if its own permission has arrived |
| AccessTreeSafety.DisposalReportedOnce | src/dependencies/discrete/DataAccess.cpp:86-125 | exactly one transition of a run reports the disposal of an access |
| AccessTreeSafety.DisposedIsFinal | src/dependencies/discrete/DataAccessRegistration.cpp:193-251 | no step changes a disposed access |
| AccessTreeSafety.MessagesReferToLiveAccesses | src/dependencies/discrete/DataAccessRegistration.cpp:193-251 | no message still to be handled has a disposed sender, nor before delivery a disposed receiver |
| AccessTreeSafety.BottomIsLive | src/dependencies/discrete/DataAccessRegistration.cpp:363-376 | a bottom-map entry never leads to a disposed access before that access is told that the parent is done |
| AccessTreeSafety.UpdateReportIsNegative | src/dependencies/discrete/DataAccessRegistration.cpp:709-740 | the updates of registration and closing, and deliveries to an access that is not unregistered, never complete it |
| AccessTreeSafety.AcknowledgementReportIsNegative | src/dependencies/discrete/DataAccessRegistration.cpp:718-752 | an acknowledgement by an access that is not unregistered, or by a last child whose parent is not done (line 288), never completes it |
| AccessTreeSafety.UnregisterReportIsNegative | src/dependencies/discrete/DataAccessRegistration.cpp:298-312 | an unregistration that sends a message never completes the access |
| AccessTreeSafety.NewAccessForwardsNothing | src/dependencies/discrete/DataAccessRegistration.cpp:709-744 | a new access answers with one message at most, which forwards nothing and only acknowledges a combination |
| AccessTreeSafety.ParentAnswersNothing | src/dependencies/discrete/DataAccessRegistration.cpp:284-288 | a parent access that is not unregistered answers nothing when its children give permissions back |
| AccessTreeSafety.RegistrationSendsOne | src/dependencies/discrete/DataAccess.cpp:563-573 | the access that registration extends sends one message at most |
| AccessTreeMeaning.QuiescentMeaning | src/dependencies/discrete/DataAccess.cpp:150-550 | without messages in flight every permission flag is that of a recursive definition over the shape of the tree |
| AccessTreeMeaning.OrderIndependence | src/dependencies/discrete/DataAccessRegistration.cpp:185-252 | two runs that did the same to the accesses, under whatever names, end with the same permissions, whatever the order of deliveries and of independent registrations |
| AccessTreeMeaning.EverythingIsDisposed | src/dependencies/discrete/DataAccess.cpp:86-125 | when everything is unregistered, all parents are finished and no message is left, every access has been disposed once |
| AccessTreeProgram.InsertingRegisters | src/dependencies/discrete/DataAccessRegistration.cpp:640-740 | registration adds an access of the type and strength asked for behind the last one of its chain, and changes only that one's successor or its parent's child |
| AccessTreeProgram.NothingIsRefused | src/dependencies/discrete/DataAccessRegistration.cpp:640-740 | in every run a chain that is not finished can be extended, an access of a running task unregistered, once its chain of children is closed, and a chain finished after its parent |
| AccessTreeProgram.PermissionsFlow | src/dependencies/discrete/DataAccess.cpp:150-453 | with no message left, permission by permission and type by type: what an access holds follows from what its predecessor or parent holds and lets through, and what comes back to a parent from its last child |
| AccessTreeProgram.HoldsExactly | src/dependencies/discrete/DataAccess.cpp:150-453 | an access holds a permission if and only if that has entered its chain and every access before it lets it through |
| AccessTreeProgram.SharersRunTogether | src/dependencies/discrete/DataAccess.cpp:178-179 | readers in a row hold read permission together, registered or not, and so do concurrents and commutatives theirs |
| AccessTreeProgram.StartsExactly | src/dependencies/discrete/DataAccessRegistration.cpp:212-218 | a task stops waiting for an access if and only if the access is weak, a reduction, or holds the permission of its type |
| AccessTreeProgram.StartsWhenClear | src/dependencies/discrete/DataAccess.cpp:150-453 | in a chain without weak and nested accesses, a task stops waiting for an access if and only if each one before it is unregistered or may be in use together with it |
| Propagation.PropagationDecreases | src/dependencies/discrete/DataAccessRegistration.cpp:185-252 | every propagation step lowers a measure of unset flags and pending messages, although one delivery may send two |
| Propagation.PropagationIsBounded | src/dependencies/discrete/DataAccessRegistration.cpp:185-252 | no sequence of propagation steps is longer than that measure, so propagation ends |
| Propagation.DependencySystem.PropagateMessages | src/dependencies/discrete/DataAccessRegistration.cpp:185-252 | the LIFO loop empties the mailbox, takes only propagation steps, finishes its own messages and all they cause, and touches no other |
| Propagation.DependencySystem.InsertAccess | src/dependencies/discrete/DataAccessRegistration.cpp:709-740 | adds an access of the given type, links it into its chain and leaves no message, so the recursive definition holds again |
| Propagation.DependencySystem.FinalizeDataAccess | src/dependencies/discrete/DataAccessRegistration.cpp:265-312 | closes the chain of the children if there is one, unregisters exactly this access, and leaves no message |
| Propagation.DependencySystem.FinalizeChildAccesses | src/dependencies/discrete/DataAccessRegistration.cpp:363-376 | tells the last access of a chain that the parent is done |
| TaskiterUnroll.UnrolledEdgesAreNeighbours | src/dependencies/discrete/taskiter/TaskiterGraph.hpp:269-307 | over the repeated body the copied edges are exactly the pairs in consecutive groups, also where the last group of reads merges with the first |
| TaskiterLoop.UnrollingPreservesOrder | src/dependencies/discrete/taskiter/TaskiterGraph.hpp:247-309 | for any body and any number of iterations, the unrolled graph orders two executions if and only if the sequential program does |
| TaskiterLoop.EdgeOnCycle | src/dependencies/discrete/taskiter/TaskiterGraph.hpp:247-309 | every edge of the closed graph lies on a cycle that crosses the iteration boundary exactly once |
| TaskiterGraph.TaskiterGraph.SwapChains | src/dependencies/discrete/taskiter/TaskiterGraph.hpp:342-358 | the last group becomes the previous one, and the first or second if it is the first or second to be complete |
| TaskiterGraph.TaskiterGraph.CreateEdges | src/dependencies/discrete/taskiter/TaskiterGraph.hpp:145-152 | exactly the edges from the chain to the node are new |
| TaskiterGraph.TaskiterGraph.AddTaskAccess | src/dependencies/discrete/taskiter/TaskiterGraph.hpp:830-874 | adds the access to those registered; the edges are exactly the body edges of all of them, and the four groups kept are the right ones |
| TaskiterGraph.ClosingIsCross | src/dependencies/discrete/taskiter/TaskiterGraph.hpp:257-307 | the two first and two last groups determine exactly the edges to the next iteration |
| TaskiterGraph.TaskiterGraph.CloseDependencyLoop | src/dependencies/discrete/taskiter/TaskiterGraph.hpp:247-309 | the graph has exactly the body and cross edges of the loop, each counted at its target |
| TaskiterGraph.TaskiterGraph.SetTaskDegree | src/dependencies/discrete/taskiter/TaskiterGraph.hpp:637-687 | the counters are those from which the execution starts: the guard and the body edges now, all edges for each later iteration |
| TaskiterOrder.RecordedOrder | src/dependencies/discrete/taskiter/TaskiterGraph.hpp:830-874 | while a body is recorded, its edges order two tasks if and only if a chain of accesses that need an order leads from one to the other; two accesses to an address need none only if both read or both are concurrent |
| TaskiterOrder.ClosedOrder | src/dependencies/discrete/taskiter/TaskiterGraph.hpp:247-309 | the closed graph orders two executions in any number of iterations if and only if the registered accesses do |
| TaskiterOrder.PairIsOrdered | src/dependencies/discrete/taskiter/TaskiterGraph.hpp:849-866 | two accesses to one address, unless both read or both are concurrent, order their tasks in the recorded graph and across iterations in the closed one |
| TaskiterOrder.EdgeNeedsConflict | src/dependencies/discrete/taskiter/TaskiterGraph.hpp:849-866 | every edge joins two tasks with such accesses |
| TaskiterExecution.StepInv | src/dependencies/discrete/DataAccessRegistration.cpp:422-477 | removing a guard, finishing an execution and satisfying a successor keep the invariant of the replay |
| TaskiterExecution.NeverTwoAhead | src/dependencies/discrete/taskiter/TaskiterGraph.hpp:472-492 | no predecessor runs two iterations ahead: an edge never offers more than the next execution of its target needs |
| TaskiterExecution.CounterIsExact | src/tasks/TaskMetadata.hpp:231-244 | the shared counter is the number of edges missing for the next execution, never negative, never mixing iterations, and submits at zero only a task that is not submitted |
| TaskiterExecution.OneDecrementPerEdge | src/dependencies/discrete/taskiter/TaskiterGraph.hpp:472-492 | between two executions of a task each edge into it contributes exactly one decrement |
| TaskiterExecution.FirstExecution | src/dependencies/discrete/taskiter/TaskiterGraph.hpp:637-705 | the first execution waits for one decrement per body edge and none per cross edge |
| TaskiterExecution.ProgramOrderIsKept | src/dependencies/discrete/DataAccessRegistration.cpp:436-462 | an execution is submitted only when all executions that the sequential program orders before it, in any iteration, have completed |
| TaskiterExecution.EveryTaskRunsInEveryIteration | src/tasks/TaskMetadata.hpp:564-574 | a run can stop only when every task has executed once per iteration, nothing is then in flight, and all such runs have the same length |
| TaskiterOrder.ConflictsRunInOrder | src/dependencies/discrete/DataAccessRegistration.cpp:436-462 | of two executions with such accesses the later one is submitted only when the earlier one has completed |
| TaskiterRun.TaskiterRun.UnregisterTask | src/dependencies/discrete/DataAccessRegistration.cpp:436-462 | one unregistration satisfies each successor once, those of the next iteration only if the task runs again |
| TaskiterRun.TaskiterRun.ExecuteLoop | src/dependencies/discrete/DataAccessRegistration.cpp:422-477 | executing submitted tasks in any order ends with every task executed in every iteration |
| CriticalPath.Weight | src/dependencies/discrete/taskiter/TaskiterGraph.cpp:98-106 | a task weighs its elapsed time, and at least one; the combination of a reduction weighs one |
| CriticalPath.PrioritizeCriticalPath | src/dependencies/discrete/taskiter/TaskiterGraph.cpp:71-111 | one pass gives each vertex the priority of its best successor plus its weight |
| CriticalPath.PriorityIsCriticalPath | src/dependencies/discrete/taskiter/TaskiterGraph.cpp:84-110 | the priority is the weight of the heaviest path from the vertex less one, attained by some path, and strictly decreases along every arc |
| TaskDag.DegreesCount | src/dependencies/discrete/taskiter/TaskiterGraph.cpp:946-964 | the degrees that decide about grouping are the numbers of arcs into and out of a vertex |
| GranularityChains.GraphTransformSequential | src/dependencies/discrete/taskiter/TaskiterGraph.cpp:918-1015 | the pass places every vertex in exactly one group, each a chain with one way in and one way out in list order, and as long as the grouping condition allows |
| GranularityChains.ContractionKeepsOrder | src/dependencies/discrete/taskiter/TaskiterGraph.cpp:935-1014 | one vertex reaches another if and only if it is earlier in the same group or its group reaches the other's |
| GranularityChains.NewGraphIsAcyclic | src/dependencies/discrete/taskiter/TaskiterGraph.cpp:1005-1012 | the contracted graph has no cycle |
| GranularityChains.StrayMembers | src/dependencies/discrete/taskiter/TaskiterGraph.cpp:955-967 | a group of several vertices holds one that may not be grouped if and only if some chain starts with two that may and goes on to one that may not |
| GranularityChains.StrayExample | src/dependencies/discrete/taskiter/TaskiterGraph.cpp:955-967 | in a chain of three of which the last may not be grouped, the pass groups it |
| GranularityFronts.GraphTransformFront | src/dependencies/discrete/taskiter/TaskiterGraph.cpp:1033-1165 | places every vertex: the fronts are the vertices whose dependencies are in earlier fronts, those of a front that may be grouped fill groups of one size in order, the others stay alone, and no group spans two fronts |
| GranularityFronts.AverageIsSize | src/dependencies/discrete/taskiter/TaskiterGraph.cpp:1075-1081 | with the least number of groups that occupies all CPUs and leaves at most `us` of work in each, the size is the largest that fills so many groups, and at least one |
| GranularityFronts.GroupsAreIndependent | src/dependencies/discrete/taskiter/TaskiterGraph.cpp:1103-1145 | merged vertices do not reach each other |
| GranularityFronts.FrontsKeepOrder | src/dependencies/discrete/taskiter/TaskiterGraph.cpp:1153-1160 | every dependency is kept between the groups |
| GranularityFronts.NewGraphIsAcyclic | src/dependencies/discrete/taskiter/TaskiterGraph.cpp:1153-1160 | the merged graph has no cycle |
| TaskTree.StepInv | src/system/TaskFinalization.cpp:45-186 | spawning, blocking, completing, every part of the ancestor walk and disposal keep the invariant of the tree |
| TaskTreeSafety.CountersAreExact | src/tasks/TaskMetadata.hpp:271-324 | the wake-up counter counts unfinished children plus one unless blocked or finished; the removal counter counts undisposed children, the task itself and its accesses |
| TaskTreeSafety.WaitsForDescendants | src/system/TaskWait.cpp:26-54 | a taskwait returns, and a delayed release happens, only when all descendants have finished, with the counter at zero |
| TaskTreeSafety.ReportsWholeSubtree | src/system/TaskFinalization.cpp:114-181 | a task is reported to its parent once, when everything below it has finished |
| TaskTreeSafety.DelayedFinishesAtOnce | src/system/TaskFinalization.cpp:146-160 | a delayed task that a walk releases finishes at once, and its removal count does not reach zero under the walk |
| TaskTreeSafety.ResumedOncePerTaskwait | src/system/TaskFinalization.cpp:167-173 | every taskwait is resumed exactly once |
| TaskTreeSafety.DisposedOnceAndInTime | src/system/TaskFinalization.cpp:188-234 | a task is disposed at most once, after its subtree finished and was reported, its accesses and children were disposed, and its own thread let go |
| TaskTreeSafety.WalkTouchesOnlyLive | src/system/TaskFinalization.cpp:114-181 | the ancestor walk never touches a disposed task, nor one that could become disposable under it |
| TaskTreeSafety.OneWalkPerTask | src/system/TaskFinalization.cpp:126-181 | two walks are never at the same task |
| TaskTreeSafety.ShortcutIsSound | src/system/TaskWait.cpp:26-30 | a removal count of one means that all descendants have finished and are disposed, so taskwait need not block |
| TaskTreeSafety.NothingIsRefused | src/system/TaskFinalization.cpp:45-186 | in every run a task that runs can create tasks, wait and complete, a resumed one goes on, and what can be disposed is |
| TaskTreeSafety.EveryTaskIsReclaimed | src/system/TaskFinalization.cpp:188-234 | a run can stop only when every task has been disposed |
| TaskRelease.ReleasesAfterDescendants | src/system/TaskFinalization.cpp:57-70 | a task that was created with a wait clause releases its accesses only when all its descendants have finished |
| TaskRelease.CompletionByClause | src/system/TaskFinalization.cpp:60-70 | at the end of its body a task created with a wait clause is delayed if a child has not reported, and released at once otherwise; without the clause it is never delayed |
| TaskRelease.TaskIsAsCreated | src/system/TaskFinalization.cpp:188-234 | a task keeps its parent, and is disposed only after as many of its accesses as it was created with |
| TaskFinalization.SettledMeaning | src/system/TaskFinalization.cpp:45-186 | with no walk in progress, a subtree is done, a task waits, and a task is disposed exactly when its children say so |
| TaskFinalization.TaskFinalization.CompleteTask | src/system/TaskFinalization.cpp:45-112 | the task ends delayed if and only if it was created with a wait clause and the subtree of some child is not done, and finished otherwise; the callback leaves no walk and no disposal behind and touches only the task and its ancestors |
| TaskFinalization.TaskFinalization.FinishTask | src/system/TaskFinalization.cpp:114-186 | the climb ends, leaves nothing doomed, and touches only the task and its ancestors |
| TaskFinalization.TaskFinalization.DisposeTask | src/system/TaskFinalization.cpp:188-234 | disposes the task and every ancestor left with nothing to wait for, and touches nothing else |
| TaskFinalization.TaskFinalization.Taskwait | src/system/TaskWait.cpp:21-57 | blocks if and only if some child's subtree is not done |
| Readiness.ReadyExactlyOnce | src/dependencies/discrete/DataAccessRegistration.cpp:328-360 | a task is submitted at most once, and has been if and only if its registration is over and every access it waits for is satisfied |
| Readiness.GuardOfTwoIsNeeded | src/dependencies/discrete/DataAccessRegistration.cpp:328-329 | a guard is safe for all interleavings if and only if it is at least two |
| Readiness.GuardOfOneFails | src/dependencies/discrete/DataAccessRegistration.cpp:767-769 | with a guard of one, an access satisfied before it is counted submits the task twice |
| Readiness.PredecessorCounter.SatisfyTask | src/dependencies/discrete/DataAccessRegistration.cpp:103-119 | the thread that satisfies an access submits the task exactly when registration is over and nothing is left to wait for |
| Submission.SubmittedOnce | src/dependencies/discrete/DataAccessRegistration.cpp:328-360 | over several trees of accesses a task is submitted at most once, and has been if and only if its registration is over and the request of every strong access that is no reduction has been handled |
| Submission.SubmittedHasAll | src/dependencies/discrete/DataAccessRegistration.cpp:103-119 | a submitted task holds every permission it needs |
| Submission.SatisfiedIsSubmitted | src/dependencies/discrete/DataAccessRegistration.cpp:212-218 | with no message left and registration over, a task has been submitted if and only if every such access holds its permission |
| Submission.RegistersAccess | src/dependencies/discrete/DataAccessRegistration.cpp:640-740 | registering an access for the task adds one of that type and strength to its tree and to the accesses of the task, and to nothing else |
| Submission.SubmittedWhenClear | src/dependencies/discrete/DataAccessRegistration.cpp:103-119 | end to end: with no message left and registration over, a task with accesses in plain chains has been submitted if and only if before each strong access other than a reduction everything is unregistered that may not be in use together with it |
| Submission.AskingIsWaiting | src/dependencies/discrete/DataAccessRegistration.cpp:766-772 | whatever asks for the task to be scheduled is counted or about to be |
| CommutativeSemaphore.CommutativeSemaphore.RegisterTask | src/dependencies/discrete/CommutativeSemaphore.cpp:20-34 | takes the semaphore if and only if no holder has a bit of the mask, and waits otherwise |
| CommutativeSemaphore.CommutativeSemaphore.ReleaseTask | src/dependencies/discrete/CommutativeSemaphore.cpp:36-71 | admits and keeps exactly what a full scan in order would, and keeps the mask the disjoint union of the holders' |
| CommutativeSemaphore.CutOffIsFullScan | src/dependencies/discrete/CommutativeSemaphore.cpp:62-66 | once all released bits are taken again, the rest of the scan admits nobody |
| CommutativeSemaphore.ScanConserves | src/dependencies/discrete/CommutativeSemaphore.cpp:49-70 | a scan loses and duplicates nobody |
| CommutativeSemaphore.ScanIsGreedy | src/dependencies/discrete/CommutativeSemaphore.cpp:49-70 | a scan is first come, first served: in order, a task is admitted if and only if no bit of its mask is taken by the mask or by a task admitted before it |
| CommutativeSemaphore.MaskOf | src/dependencies/discrete/CommutativeSemaphore.hpp:32-35 | the mask has exactly the bits of the addresses |
| CommutativeSemaphore.SharedAddressExcludes | src/dependencies/discrete/CommutativeSemaphore.hpp:32-40 | two tasks that share a commutative address never hold together, under any hash |
| CommutativeSemaphore.WaitersHaveHolders | src/dependencies/discrete/CommutativeSemaphore.cpp:20-71 | every waiter conflicts with a holder, so without holders nobody waits |
| ReductionMemory.StepInv | src/dependencies/discrete/DataAccessRegistration.cpp:671-758 | registration at any depth, delivery, combination requests, release and closing keep the counters exact and tell each call what it needs to remember |
| ReductionSharing.MatchJoins | src/dependencies/discrete/DataAccessRegistration.cpp:674-703 | a reduction that matches the open one of the access before it joins it: none is created, none is closed, and it counts one more |
| ReductionSharing.MismatchOpens | src/dependencies/discrete/DataAccessRegistration.cpp:674-703 | one that does not match opens its own and takes the other out of the chain, to be closed |
| ReductionSharing.NothingOpenOpens | src/dependencies/discrete/DataAccessRegistration.cpp:688-703 | without an open reduction, outside other reductions, it opens its own |
| ReductionSharing.NestedJoins | src/dependencies/discrete/DataAccessRegistration.cpp:658-684 | the first access below a reduction joins that of its parent |
| ReductionSharing.OtherCloses | src/dependencies/discrete/DataAccessRegistration.cpp:704-707 | any other access participates in nothing and takes the open reduction out of the chain, to be closed |
| ReductionSharing.NeighboursShareOneCombination | src/dependencies/discrete/DataAccessRegistration.cpp:674-703 | all matching reductions that a run registers in a chain one after the other share one reduction, which is combined once at most, and only when each of them is released |
| ReductionSafety.CombinedExactlyOnce | src/dependencies/discrete/ReductionInfo.hpp:97-121 | a reduction is combined at most once, and has been if and only if it is closed, an arrival has been counted and all participants, at whatever depth, are released |
| ReductionSafety.FirstArrivalCounts | src/dependencies/discrete/DataAccessRegistration.cpp:220-234 | of all write arrivals exactly the one at the first participant is counted, although the calls only remember the last reduction they saw |
| ReductionSafety.CombinesReleased | src/dependencies/discrete/DataAccessRegistration.cpp:291-298 | at the step that combines a reduction no participant counts any more |
| ReductionSafety.CombinedIsUntouched | src/dependencies/discrete/ReductionInfo.hpp:107-116 | nobody joins or decrements a reduction after its combination |
| ReductionSafety.AssertedUnfinished | src/dependencies/discrete/DataAccessRegistration.cpp:380-387 | a reduction that is not closed is unfinished, and one whose participant is being registered is not combined by its arrival |
| ReductionSafety.StrayChildCloses | src/dependencies/discrete/DataAccessRegistration.cpp:683-707 | below a weak reduction an access of another kind, and only such a one, would close the reduction of its parent |
| ReductionSafety.FirstIsFirst | src/dependencies/discrete/DataAccessRegistration.cpp:674-703 | every participant comes after the first one, or below it |
| ReductionSafety.CombinedAlone | src/dependencies/discrete/DataAccessRegistration.cpp:220-234 | when a reduction is combined, everything before its first participant, other than its ancestors, is unregistered, and all participants are released |
| ReductionSafety.NothingIsRefused | src/dependencies/discrete/DataAccessRegistration.cpp:668-758 | reductions allow whatever the accesses allow, except other registrations below a participant and the unregistration of one that has not been released |
| ReductionSafety.EveryReductionIsCombined | src/dependencies/discrete/DataAccessRegistration.cpp:535-558 | when nothing is left to do, every reduction has been combined |
| ReductionSafety.SuccessorSees | src/dependencies/discrete/DataAccessRegistration.cpp:197-234 | once an access after a reduction holds write permission, all participants are released, and the reduction is combined if and only if it is closed and its first arrival has been handled |
| SubmittedSuccessor.StepOk | src/dependencies/discrete/DataAccessRegistration.cpp:683-748 | each step of the reductions in several trees and of the counter of one task that registers in them keeps both, and takes what was open in a chain before the task goes on |
| SubmittedSuccessor.SubmittedSees | src/dependencies/discrete/DataAccessRegistration.cpp:197-234 | once a task that writes has been submitted, a reduction earlier in the same chain is released and closed, and combined if and only if the arrival at its first participant has been handled |
| ReductionRace.ScheduledBeforeCombined | src/dependencies/discrete/DataAccessRegistration.cpp:197-234 | a run in which such an access is scheduled while the reduction is closed and released but not combined |
| AtomicBitset.AtomicBitset.SetFirst | src/common/AtomicBitset.hpp:115-139 | undisturbed, sets the lowest clear bit and returns it, or -1 exactly if all bits are set |
| AtomicBitset.AtomicBitset.Reset | src/common/AtomicBitset.hpp:98-104 | clears one bit and no other |
| ReductionStorage.FoldPermutation | src/dependencies/discrete/devices/HostReductionStorage.cpp:49-69 | the fold of the contributions does not depend on their order |
| ReductionStorage.FoldOfParts | src/dependencies/discrete/devices/HostReductionStorage.cpp:49-69 | the fold of one value is that value, and the fold of a list that of its parts |
| ReductionStorage.SomeSlotIsFree | src/dependencies/discrete/devices/HostReductionStorage.cpp:71-95 | slots are held injectively, and at any moment a CPU without one has one free |
| ReductionSlots.StepInv | src/common/AtomicBitset.hpp:98-139 | every load, exchange, store and reset by any CPU keeps bits and owners matched, and no more CPUs past a word than there are positions after it |
| ReductionSlots.ScanNeverFails | src/dependencies/discrete/devices/HostReductionStorage.cpp:88-92 | with as many slots as CPUs no scan ends without a slot, although the words change under it |
| ReductionSlots.RetryIsNeeded | src/dependencies/discrete/devices/HostReductionStorage.cpp:88-90 | some search has to be repeated in some run if and only if there are fewer slots than CPUs |
| ReductionSlots.SlotsAreExclusive | src/dependencies/discrete/devices/HostReductionStorage.cpp:71-110 | a slot in use belongs to one CPU, in every run |
| ReductionSlots.BitsAreOwned | src/common/AtomicBitset.hpp:115-139 | a bit is set if and only if one CPU owns it |
| ReductionSlots.FindsSlotAlone | src/common/AtomicBitset.hpp:115-139 | from any moment on, a search that is not disturbed ends with a slot after two steps more than there are words left, at most |
| ReductionSlots.FindsFreedSlot | src/dependencies/discrete/devices/HostReductionStorage.cpp:88-90 | with any number of slots, an undisturbed search that is repeated when it fails has a slot as soon as one is free |
| ReductionContributions.StepInv | src/dependencies/discrete/devices/HostReductionStorage.cpp:31-47 | unlocked reads and writes of slots by all CPUs keep what the slots hold together |
| ReductionContributions.NothingIsLost | src/dependencies/discrete/devices/HostReductionStorage.cpp:49-69 | whatever the interleaving, the slots together hold every contribution once, in any order |
| ReductionContributions.CombinedOnceIdle | src/dependencies/discrete/devices/HostReductionStorage.cpp:49-69 | combining the slots once no CPU uses one gives the original value with every value that was added, each once |
| ReductionContributions.WritesOverWhatItRead | src/dependencies/discrete/devices/HostReductionStorage.cpp:71-95 | a CPU replaces what its slot holds at that moment |
| ReductionStorage.HostReductionStorage.GetFreeSlot | src/dependencies/discrete/devices/HostReductionStorage.cpp:71-95 | undisturbed, the CPU keeps its slot or gets one that no other CPU holds, as it was left there or with the identity; nothing else changes |
| ReductionStorage.HostReductionStorage.ReleaseSlotsInUse | src/dependencies/discrete/devices/HostReductionStorage.cpp:97-110 | gives up the slot of this CPU only |
| ReductionStorage.HostReductionStorage.CombineInStorage | src/dependencies/discrete/devices/HostReductionStorage.cpp:49-69 | the result is the original value folded with every contribution exactly once, whatever slots they went through |

## Left out

- AccessTree.Next: allows more runs than the code, which only strengthens what holds in all of them. A message sent while an access is registered or a chain closed may be delivered by any thread, while the code delivers it at once in the same thread; an access may be unregistered once its own permission has been requested, while the code waits for the whole task; one address is modelled, since accesses to different addresses share only the counters of their tasks.
- DataAccess.Access.Apply: requires that no flag is added twice and, for the one-message automata, a single destination; both are proved of every reachable state as AccessTreeSafety.FetchAddNeverCarries and AccessTreeSafety.SingleDestinationAlways.
- ReductionMemory.StepInv: below a participant only accesses to the same reduction are registered, while its task runs, as the source asserts for the first of them; what others would do is ReductionSafety.StrayChildCloses. One address; reductions of a taskiter are not modelled.
- Propagation.DependencySystem.InsertAccess: links and propagates; counting predecessors is in Submission, joining reductions in ReductionInfo, the commutative mask in CommutativeSemaphore.
- Propagation.DependencySystem.FinalizeDataAccess: links and propagates; the reduction counter is in ReductionInfo.
- Propagation.DependencySystem.FinalizeChildAccesses: one chain; closing its reduction is in ReductionInfo.
- TaskTree.StepInv: a task is spawned, given its parent and its accesses counted in one step, since it cannot run before.
- TaskFinalization.TaskFinalization.FinishTask: states where the climb ends and what it leaves alone; what then holds of every task is TaskFinalization.SettledMeaning.
- TaskFinalization.TaskFinalization.CompleteTask: the whole call without interference; all interleavings of its steps are in TaskTree.
- TaskFinalization.TaskFinalization.Taskwait: up to the pause, without interference; blocking and resuming under interference are in TaskTreeSafety.
- TaskiterGraph.TaskiterGraph.AddTaskAccess: reductions are excluded, since the closing code says that it does not handle them; tasks of a taskloop source, which the code skips, never reach it.
- TaskiterExecution.ProgramOrderIsKept: for any graph whose edges are edges of the closed loop and whose missing edges are implied by the others; that a transitive reduction is such a graph is a precondition.
- CommutativeSemaphore.MaskOf: the hash is a parameter, and the 1024 bits are positions in a set.
- AtomicBitset.AtomicBitset.SetFirst: one thread; lost races and their retries are in ReductionSlots.
- ReductionStorage.HostReductionStorage.GetFreeSlot: one thread; the search by several CPUs at once is in ReductionSlots, their contributions in ReductionContributions.
- Weak memory ordering: all atomics are sequentially consistent.
- Reuse of identities: accesses, tasks and reductions are named by numbers that are never used again.
- Access children created after an early release, and children with stronger accesses than a reading parent.
- The read route out of a reduction, which does not wait for its combination: nothing is claimed about the value seen through it; for the write route see ReductionSafety.SuccessorSees.
- While-taskiters, control tasks, cancellation, and the variants of the successor loop for the smart immediate successor and for binding.
- Taskiter bookkeeping other than predecessors and iterations: wake-up counts of the taskiter itself, groups at run time, reductions replayed in the graph.
- External events: the release count is always one here, so a task that is not delayed releases its accesses as soon as it completes.
- Overflow of priorities and counters, and of the time sums that choose the size of groups.
- NUMA and locality scheduling, allocation, instrumentation, environment variables, and the calls into nOS-V; a submit is a step that makes a task ready.
- Multidimensional dependencies, taskloop splitting, data regions, spin locks and user mutexes are not modelled.
