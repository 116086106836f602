# Verified model of Tilt's concurrent and incremental algorithms

Tilt runs a development environment on Kubernetes. Most of it is plumbing, but
some of its parts are algorithms whose correctness is not plain from reading
them: a memo shared by many callers, orders that must respect dependencies, a
start gate between a controller and a reducer, a shortcut that must agree with
the slow way, parsers that are fed their input in pieces. This project models
those parts and proves what they promise. `dafny verify dfyconfig.toml` checks
all of it.

| files | what they model |
|---|---|
| `Shared`, `Graphs` | an optional value and facts about sets; walks, reachability, cycles and ranks |
| `OwnerTrees`, `OwnerProtocol`, `OwnerLiveness`, `OwnerReach`, `OwnerSharing`, `OwnerFetcher`, `FetchShapes`, `RunShapes` | the owner fetcher: plain recursion, the goroutines as a step system, what every interleaving keeps and when all callers are answered, the part of the graph that callers reach, cycles that they do reach, the object itself with one caller, and which owners a tree holds where cycles are cut, for one caller and for many |
| `DeletionOrder`, `DeletionTies`, `DownCommand` | the deletion order of `tilt down`, what it is where dependencies leave it open, and the code that computes it on a heap of nodes |
| `BuildGate`, `BuildReductions`, `BuildSlots`, `BuildSettling`, `BuildReloads`, `BuildCancels`, `BuildController` | starting builds: controller, queue and reducer as a step system, what the reducer makes of each action and when Tilt ends with a fatal error, the limit on parallel builds, how it is kept while a queue drains, which reloads endanger it, whose build a cleanup cancels, and the two objects |
| `Batches`, `Upsert` | splitting entities into batches, and applying them with a bounded group of workers |
| `Paths`, `DockerIgnore`, `IgnorePatterns`, `IgnoreExclusions` | path ancestry, ignore patterns, the shortcut for whole directories, what common patterns match, and which exclusions the shortcut handles soundly |
| `FilteredWriter` | the line filter |
| `AnsiColors`, `AnsiRenditions`, `Ansi`, `AnsiMeaning`, `AnsiSequences` | the escape-sequence parser: colours, graphic renditions, the parser, what it makes of every input, and what single sequences show |
| `Decimals`, `Selectors`, `Names` | unique names of workloads |
| `Blockers` | the dependency tree and its root blockers |
| `Labels` | label injection |
| `FlexLayout`, `Canvases`, `CanvasBlanks`, `CanvasRuns`, `FlexPlaces` | space allocation, nested canvases, what they are blanked with, drawing, dividing and closing them in any order, and where a layout puts its children |

Where the code does not do what one would expect of it, the model keeps the
code, and the exact condition is proved, or an input that shows the failure:

* The owner fetcher's cycle check looks at strict ancestors only. One caller
  hangs exactly when what it asks for leads to an object that owns itself
  (`OwnerFetching.TopLevelCall`), and so do several that share no cycle
  (`OwnerSharing.UnsharedCanFinishExactlyWhen`); others can hang on any cycle
  (`OwnerLiveness.CanAlwaysFinishExactlyWhenAcyclic`).
* The directory shortcut overlooks some exclusions: those whose first wildcard
  is a `?` in a segment before the last, and those with a star in the first
  segment, whose prefix is the empty string and not the root, unless the first
  name of a path decides about them, as with `/**` and `/*.go`, but not with
  `/**/*.go` (`IgnoreExclusions.SafeExactlyWhenDefinite`). At the root, the
  pattern for the root itself, and no other, matches the root without what is
  below it (`DockerIgnore.RootMatchCoversAllExactlyWhen`).
* A Tiltfile reload can endanger the limit on parallel builds: it does so exactly
  when it takes its manifest, by dropping it or making it anew, from a build
  whose completion is not yet queued, and no fatal error is queued
  (`BuildSlots.ReloadCanExceedLimit` is a run,
  `BuildReloads.ReloadIsSafeExactlyWhen` the condition, for any queue behind the
  reload without certain starts, live updates and further reloads that touch
  the same manifests).
* A build's deferred cleanup cancels another build exactly when that one has
  registered since for the same manifest and its registration still stands
  (`BuildCancels.CleanupCancelsAnotherExactlyWhen`).
* The line filter reads before its buffer when the text it holds begins with a
  newline: exactly when the first line not yet offered to the sink is complete
  and empty (`FilteredWriters.NextWritePanicsExactlyWhen`). After a failing sink
  that state can be reached for ever (`FilteredWriters.PanicsForEverIsReached`).
  It reports the length of the combined text, which is more than it was given
  whenever the text before does not end in a newline
  (`FilteredWriters.ReportsTooMuchExactlyWhen`); a Go writer must not.
* The parser of escape sequences reads the arguments of 38 and 48 again as codes:
  `38;5;31` sets red and not colour 31 of the palette
  (`AnsiRenditions.PaletteColorIsSetExactlyWhen`,
  `AnsiRenditions.RgbColorIsSetExactlyWhen`).
* The eight bright colours of the palette, 8 to 15, all come out black: they are
  looked up by their number in the palette, not in the table of eight
  (`AnsiColors.PaletteIsRightExactlyWhen`).
* A rendition without a parameter, which is to count as 0 and reset everything
  (section 8.3.117 of ECMA-48), does nothing (`AnsiSequences.NoParameterDoesNothing`,
  `AnsiSequences.ResetsExactlyWhen`).
* A rendition that sets one colour, or an attribute alone, also resets what it
  does not ask for: the colour it leaves unset goes to the terminal library with
  an empty name (`AnsiRenditions.RenditionSets`).
* The comment on `applyLabelsToMap` has its two modes the wrong way round, and
  the comment on `allowLabelChangesInOptionalSelector` says that a missing
  selector is inferred before labels are added to the pods; the code does it
  after. The model follows the code. Replacing labels can leave a service
  without a selector (`Labels.ServiceStillMatchesExactlyWhen`).
* In the full dependency tree, a resource that depends on the Tiltfile alone is
  lost (`Blockers.FullTreeShowsAllExactlyWhen`).
* `UniqueNamesMeta` takes an empty unique name for none at all
  (`Names.FallsBackExactlyWhen`).

## Model

| member | source | states |
|---|---|---|
| OwnerTrees.UncachedFailsExactlyWhen | internal/k8s/owner_fetcher.go:154-181 | plain recursion over an acyclic owner graph fails if and only if some object reachable over owner references cannot be looked up or has no UID |
| OwnerTrees.UncachedShape | internal/k8s/owner_fetcher.go:173-180 | a tree is rooted at the object asked for and has, in order, the tree of every owner under it; an object that is not found is a leaf |
| OwnerProtocol.RunKeepsSound | internal/k8s/owner_fetcher.go:139-181 | in every interleaving, on any owner graph, every unsettled promise is owned by exactly one goroutine, and stacks are chains of owner references whose path parameters list the strict ancestors |
| OwnerProtocol.SettlesOnlyPending | internal/k8s/owner_fetcher.go:274-282 | whoever is about to settle a promise finds it unsettled, and nobody else is responsible for it: no channel is closed twice |
| OwnerProtocol.SettledForGood | internal/k8s/owner_fetcher.go:274-287 | a settled promise keeps its result for the rest of the run |
| OwnerProtocol.FinishedLeavesNothingPending | internal/k8s/owner_fetcher.go:165-171 | when all callers have returned, every promise has been settled |
| OwnerLiveness.ChainOfWaitersEnds | internal/k8s/owner_fetcher.go:284-287 | on an acyclic owner graph the chain of waiting goroutines strictly descends and ends at one that can step |
| OwnerLiveness.DeadlockFree | internal/k8s/owner_fetcher.go:139-181 | acyclic owners, any callers, any interleaving: while a call is unfinished some goroutine can step |
| OwnerLiveness.RunBounded | internal/k8s/owner_fetcher.go:222-239 | acyclic owners: every run is finite, bounded by the cost of the calls |
| OwnerLiveness.AcyclicCanAlwaysFinish | internal/k8s/owner_fetcher.go:139-181 | acyclic owners: from every reachable state all callers can still be answered |
| OwnerLiveness.MemoAgreesWithPlainRecursion | internal/k8s/owner_fetcher.go:150-181 | acyclic owners, any interleaving: every answer and every settled promise is what plain recursion without a memo gives |
| OwnerLiveness.HungForever | internal/k8s/owner_fetcher.go:225-237 | once every object of a cycle has a caller stuck on it, no continuation answers them all |
| OwnerLiveness.CanAlwaysFinishExactlyWhenAcyclic | internal/k8s/owner_fetcher.go:222-239 | with readable metadata, concurrent callers are certain to be answered if and only if the owner graph is acyclic |
| OwnerReach.SameRun | internal/k8s/owner_fetcher.go:139-181 | what goroutines do depends only on the part of the world that their callers reach |
| OwnerSharing.EveryRunEnds | internal/k8s/owner_fetcher.go:139-181 | any owner graph, any metadata: every run is finite, bounded by two steps a call and a budget for each object, whose promise is made once |
| OwnerSharing.SomeoneCanStep | internal/k8s/owner_fetcher.go:284-287 | callers that share no cycle, none of which leads to an object that owns itself: while a call is unfinished some goroutine can step, for goroutines that wait for each other in a circle would share a cycle |
| OwnerSharing.UnsharedCanFinish | internal/k8s/owner_fetcher.go:222-239 | such callers can all still be answered from every reachable state, whatever cycles they lead to |
| OwnerSharing.SelfOwnerIsNeverAnswered | internal/k8s/owner_fetcher.go:228-231 | readable metadata, any callers: once one leads to an object that owns itself, no schedule answers them all |
| OwnerSharing.UnsharedCanFinishExactlyWhen | internal/k8s/owner_fetcher.go:139-181 | readable metadata: callers of which no two ask for different objects that lead to one cycle can be answered, from any reachable state, if and only if none leads to an object that owns itself |
| OwnerReach.ReachedAcyclicCanFinish | internal/k8s/owner_fetcher.go:139-181 | whatever cycles lie elsewhere: callers that reach none can all still be answered from every reachable state |
| OwnerReach.ReachedAnswersAreRight | internal/k8s/owner_fetcher.go:150-181 | and every answer is that of plain recursion over what they reach |
| OwnerFetching.OwnerFetcher.GetOrCreatePromise | internal/k8s/owner_fetcher.go:139-148 | reports whether a promise was there; if not, an open one is, and nothing else changed |
| OwnerFetching.OwnerFetcher.OwnerTreeOfRef | internal/k8s/owner_fetcher.go:150-152 | the object's memo and answer are those of the specification of a call with no ancestors |
| OwnerFetching.OwnerFetcher.OwnerTreeOfRefHelper | internal/k8s/owner_fetcher.go:154-181 | memo and answer as specified, for any ancestors, including the wait that never ends |
| OwnerFetching.OwnerFetcher.OwnerTreeOf | internal/k8s/owner_fetcher.go:198-220 | the same where the caller already has the object's metadata |
| OwnerFetching.OwnerFetcher.OwnerTreeOfHelper | internal/k8s/owner_fetcher.go:222-239 | the loop over owner references leaves the memo and the trees of the specification, of which FetchShapes.FetchShaped says which trees these are |
| OwnerFetching.FetchOk | internal/k8s/owner_fetcher.go:154-181 | one caller, any owner graph: unsettled promises are exactly the path; settled trees repeat no UID on a branch and speak of settled objects only; settled promises stay; which owners a tree has is FetchShapes.FetchShaped |
| OwnerFetching.SettledReachesNoSelfOwner | internal/k8s/owner_fetcher.go:228-231 | what a successful answer covers contains no object that owns itself |
| OwnerFetching.TopLevelCall | internal/k8s/owner_fetcher.go:150-181 | a call on an idle memo hangs only if it leads to an object that owns itself, and exactly then when all metadata is readable; otherwise it leaves the memo idle; on acyclic owners it gives what plain recursion gives |
| OwnerFetching.CallsReturnExactlyWhen | internal/k8s/owner_fetcher.go:150-181 | readable metadata, any owner graph, any sequence of calls by one caller: all return if and only if none leads to an object that owns itself |
| OwnerFetching.EntityCall | internal/k8s/owner_fetcher.go:198-220 | a call with metadata in hand, for an object not yet in the memo: with readable metadata, no errors in the memo and no owner without a UID, it hangs if and only if the object is its own owner or an owner leads to one that is; the same invariant and agreement with plain recursion hold |
| OwnerFetching.NoRepeatBranches | internal/k8s/owner_fetcher.go:228-236 | on no branch of a returned tree, from the root down, does a UID occur twice |
| FetchShapes.FetchShaped | internal/k8s/owner_fetcher.go:222-239 | one caller, any owner graph, any path: a call that makes a promise returns a tree with the object's creation time and, in order, exactly one subtree for every owner reference that is no ancestor on the path, the settled tree of that owner; and every settled tree is of that shape for some path that leads to it |
| FetchShapes.TopLevelAnswer | internal/k8s/owner_fetcher.go:150-181 | asked from outside, a new tree has the settled trees of all its owners, in order, none cut; an object that is not found is a leaf |
| FetchShapes.EntityAnswer | internal/k8s/owner_fetcher.go:198-220 | the same for a caller that has the metadata in hand |
| FetchShapes.CallsAreShaped | internal/k8s/owner_fetcher.go:150-181 | after any sequence of calls all that is settled has that shape |
| FetchShapes.FailureIsTheFirst | internal/k8s/owner_fetcher.go:158-181 | any owner graph: a call that makes a promise fails with the error of the object's own lookup, or with that of the first of its owners, ancestors aside, that fails |
| RunShapes.RunKeepsShape | internal/k8s/owner_fetcher.go:139-181 | every interleaving keeps it: loops hold the settled trees of the owners they have gone past, in order, but for ancestors |
| RunShapes.AnswersAreShaped | internal/k8s/owner_fetcher.go:139-181 | any owner graph, any metadata, any interleaving: whoever settles an object has its creation time and the settled trees of its owners in order, but for the ancestors on its stack; every answer is settled and of that shape |
| DeletionOrder.DependentsReverseDependencies | internal/cli/down.go:145-151 | the dependents lists are the dependency lists turned around, unknown names left out |
| DeletionOrder.PostOrderIsPermutation | internal/cli/down.go:167-181 | the visit ends on every graph, cyclic ones included, and lists every node exactly once |
| DeletionOrder.VisitDependentsFirst | internal/cli/down.go:167-181 | on any graph, a visit lists every dependent before what it depends on, unless that depends on it in turn, whatever was begun or listed before |
| DeletionOrder.DirectDependentDeletedFirst | internal/cli/down.go:124-165 | whatever cycles lie elsewhere: an enabled manifest is deleted before an enabled one it depends on, unless that one depends on it in turn |
| DeletionOrder.DependentBefore | internal/cli/down.go:153-165 | acyclic: whatever depends on a manifest, directly or through others, enabled or not, comes before it |
| DeletionOrder.EachEnabledOnce | internal/cli/down.go:153-165 | for any dependency lists the result has each enabled manifest exactly once and nothing else |
| DeletionOrder.RespectsDependenciesExactlyWhenAcyclic | internal/cli/down.go:130-181 | the full order puts every dependent before what it depends on if and only if the dependencies have no cycle |
| DeletionOrder.DependentDeletedFirst | internal/cli/down.go:124-165 | acyclic dependencies: if enabled A depends on enabled B, even through disabled manifests, A is deleted before B; a repeated name stands for the manifest it resolves to |
| DeletionTies.LaterListedFirst | internal/cli/down.go:133-181 | any graph: of two manifests the one listed later comes first, if it depends directly on all that the other depends on directly and the other does not depend on it |
| DeletionTies.LaterListedDeletedFirst | internal/cli/down.go:124-165 | so it is with the enabled manifests that are deleted |
| DeletionTies.IndependentComesAfter | internal/cli/down.go:133-138 | a manifest without dependencies is deleted after every one listed later: without any, the order is the reverse of the list |
| DownCommand.ManifestsForNode | internal/cli/down.go:167-181 | on a heap of nodes: the flags it sets and the manifests it returns are those of the depth-first visit |
| DownCommand.MakeNodes | internal/cli/down.go:133-143 | one fresh node for each manifest, in reverse order; of two manifests of one name the map has the later node |
| DownCommand.LinkDependents | internal/cli/down.go:145-151 | afterwards every node's dependents are those of the specification |
| DownCommand.SortManifestsForDeletion | internal/cli/down.go:124-165 | the result is the specified deletion order of the manifests |
| BuildGate.EveryRunCounts | internal/engine/buildcontroller.go:61-75 | in every run the controller's count is at most one ahead; without a fatal error it is the state's count plus the starts not yet delivered; no two builds share a span ID |
| BuildGate.StepKeepsCounts | internal/README.md:51-61 | every step of controller, queue, reducer and builds keeps the relation of the two counts |
| BuildGate.FatalErrorStays | internal/engine/upper.go:105-118 | no continuation clears a fatal error or counts another start |
| BuildGate.AtMostOneBuildAfterFatal | internal/engine/upper.go:116-118 | after a fatal error the controller starts at most one more build, and none if a start was still undelivered |
| BuildReductions.CompletionIsFatalExactlyWhen | internal/store/buildcontrols/reducers.go:213-219 | a completion that a live reducer takes sets a fatal error if and only if the manifest is known and the build's error is fatal, with that error's message |
| BuildReductions.FatalExactlyWhen | internal/engine/upper.go:105-225 | in every run there is a fatal error if and only if some action taken was a fatal completion of a manifest known then, a failure, an unrecognized action or an exit with a cause; the user has exited if and only if one was an exit without |
| BuildReductions.FatalErrorIsTheWord | internal/engine/upper.go:105-125 | the error is that of the last exit with a cause, or without any that of the first fatal action |
| BuildReductions.SomeoneHasTheWord | internal/engine/upper.go:105-125 | as soon as one action is fatal some action has the last word |
| BuildReductions.DecidesExactlyWhen | internal/engine/buildcontroller.go:61-75 | a build is decided on if and only if all starts are counted, fewer than the limit, which is at least one, hold slots, and the manifest is known and not being built |
| BuildReductions.StartIsRecorded | internal/store/buildcontrols/reducers.go:21-68 | a start is counted if it is the controller's, gives a known manifest that build and a slot, and touches nothing else |
| BuildReductions.CompletionIsRecorded | internal/store/buildcontrols/reducers.go:172-205 | a completion is counted; the build leaves the record of its manifest and is first in a history of at most two; the slot is freed unless another source is building; no other manifest is touched |
| BuildReductions.ReloadIsRecorded | internal/controllers/core/tiltfile/reducers.go:138-199 | a reload takes what it drops, makes what it creates afresh, sets the limit, and leaves builds, histories, slots and counts of all else alone |
| BuildReductions.CanceledBuildIsNotFatal | internal/engine/buildcontroller.go:139-143 | a build that was cancelled reports that, whatever came of it, and so never ends Tilt; any other reports its own error |
| Decimals.DecimalInjective | internal/engine/buildcontroller.go:203-205 | different numbers print differently |
| BuildSlots.CompletionIsTracked | internal/store/buildcontrols/reducers.go:181-203 | under the invariant that sparing reloads keep, a completion that reaches a live reducer is that of the build recorded for its manifest: the queue's order keeps it behind its start |
| BuildSlots.ReloadKeepsExactlyWhenItSpares | internal/controllers/core/tiltfile/reducers.go:138-190 | a reload keeps the books on builds under way if and only if it takes no manifest from a recorded build and leaves one for a start on its way |
| BuildSlots.BuildsStayWithinLimit | internal/engine/buildcontroller.go:67-70 | with reloads that spare the builds under way, these never exceed the largest limit in force so far, and no manifest has two |
| BuildReloads.ReloadIsSafeExactlyWhen | internal/controllers/core/tiltfile/reducers.go:138-190 | whatever the limit and whatever is under way: however the run goes on with sparing reloads the limit is kept, if and only if the reload spares every build whose completion is not yet queued, or draining the queue ends in a fatal error; behind the reload the queue holds no start of a build whose manifest it drops, no end of a live update of a manifest it touches, and no reload of a manifest with a build under way |
| BuildReloads.LoneReloadIsSafeExactlyWhenItSpares | internal/controllers/core/tiltfile/reducers.go:138-190 | with nothing queued behind it, a reload is safe if and only if it spares every build under way |
| BuildReloads.QueuedCompletionIsNoDanger | internal/controllers/core/tiltfile/reducers.go:145-153 | a reachable state in which a reload makes the manifest of a build under way anew and is safe all the same: the completion is queued behind it |
| BuildSettling.RunSettles | internal/store/buildcontrols/reducers.go:172-178 | while the queue drains, a build that lost its manifest keeps its slot by name until its completion arrives, so the limit holds in every run with sparing reloads |
| BuildReloads.PastTheLimit | internal/store/engine_state.go:194-202 | from every state with a build that no manifest names, live updates and new resources lead past the limit |
| BuildSlots.StartsRespectCurrentLimit | internal/store/engine_state.go:194-202 | with reloads that spare the builds under way, when a build is started the limit then in force holds, even if it was lowered meanwhile |
| BuildSlots.CompletionRecordsItsOwnSpan | internal/store/buildcontrols/reducers.go:194-205 | with such reloads, a completed build goes first into its manifest's bounded history under its own span, and other histories stay |
| BuildSlots.ReloadCanExceedLimit | internal/controllers/core/tiltfile/reducers.go:145-153 | a run with a limit of two and three builds under way |
| BuildSlots.NoCancelFunctionLeaks | internal/engine/buildcontroller.go:183-201 | in every run, once all builds have cleaned up no cancel function is left; a cleanup cancels builds of its own manifest only |
| BuildSlots.LateCleanupCancelsTheNextBuild | internal/engine/buildcontroller.go:129-144 | a run in which the cleanup of a finished build cancels the next build of the manifest |
| BuildCancels.KeptIsStanding | internal/engine/buildcontroller.go:183-201 | in every run, the cancel function kept for a manifest is that of the last build to register, unless it was swept or cleaned up since |
| BuildCancels.CleanupCancelsAnotherExactlyWhen | internal/engine/buildcontroller.go:129-144 | in every run, a build's cleanup cancels another build if and only if that one registered after it for the same manifest and nothing has set or forgotten the manifest's function since |
| BuildCancels.RunningVictimExactlyWhen | internal/engine/buildcontroller.go:129-144 | with sparing reloads, the manifest's one running build is cancelled by an earlier build's cleanup if and only if nobody has swept or cleaned up for the manifest since it registered |
| BuildControllers.EngineState.HandleBuildStarted | internal/store/buildcontrols/reducers.go:21-68 | counts the controller's starts, whether or not the manifest is known, and records the build if it is |
| BuildControllers.EngineState.HandleBuildCompleted | internal/store/buildcontrols/reducers.go:172-223 | the fields change as specified, of which BuildReductions.CompletionIsRecorded and CompletionIsFatalExactlyWhen say what that is: history, slot, and when the error is fatal |
| BuildControllers.EngineState.HandleConfigsReloaded | internal/controllers/core/tiltfile/reducers.go:138-199 | forgets dropped and replaced manifests with their current builds, and sets the limit |
| BuildControllers.EngineState.Reduce | internal/engine/upper.go:105-118 | as specified for every action; after a fatal error only exiting has an effect, and it does not clear the error |
| BuildControllers.BuildController.NeedsBuildNow | internal/engine/buildcontroller.go:55-98 | starts a build exactly when the previous start is recorded, a slot is free and a target is at hand; counts it and names its span |
| BuildControllers.BuildController.CleanupBuildContext | internal/engine/buildcontroller.go:194-201 | cancels and forgets whatever is registered under the name, and nothing else |
| BuildControllers.BuildController.CleanUpCanceledBuilds | internal/engine/buildcontroller.go:163-181 | of the registered functions exactly those of building manifests that are disabled or were stopped are forgotten, exactly their builds are cancelled, and the others keep their functions |
| BuildControllers.SweepsAreSteps | internal/engine/buildcontroller.go:163-181 | such a sweep is a run of the step system |
| BuildControllers.DecisionIsStep | internal/engine/buildcontroller.go:55-98 | a decision is made exactly when its step is enabled; announced, it launches that build under a span ID no build has, and its start is last in the queue |
| BuildControllers.CleanupIsStep | internal/engine/buildcontroller.go:194-201 | a build's cleanup step forgets its manifest's function and no other, and leaves engine and queue alone |
| Batches.ToParallelizableBatches | internal/k8s/entity.go:76-97 | the loop computes the greedy split |
| Batches.BatchesAreSplit | internal/k8s/entity.go:68-75 | the batches concatenate to the input; none is empty; each has one type order and distinct addresses |
| Batches.GreedyStaysAhead | internal/k8s/entity.go:76-97 | after every prefix the greedy split has used no more batches than any other, and if as many its last one is no longer |
| Batches.BatchesAreFewest | internal/k8s/entity.go:76-97 | no contiguous split into such batches has fewer |
| Batches.TogetherExactlyWhen | internal/k8s/entity.go:81-94 | two entities are applied together if and only if their addresses differ and their kinds have one order, where an unlisted kind counts as 0 |
| Upserting.StepKeepsInv | internal/k8s/client.go:364-412 | every step of workers, group and loop keeps the invariant that ties tasks, results and error to the history |
| Upserting.AtMostOnce | internal/k8s/client.go:369-390 | no update begins or ends twice |
| Upserting.AtMostTenInFlight | internal/k8s/client.go:58 | at every moment at most ten updates are in flight |
| Upserting.UpToTenInFlight | internal/k8s/client.go:365-369 | the bound is reached: if the first batch is as large, any number up to ten can be in flight together |
| Upserting.SameObjectInOrder | internal/k8s/entity.go:85-94 | updates of one object never overlap and are made in input order |
| Upserting.TypeOrdersInSequence | internal/k8s/client.go:361-363 | an update of another type order begins only after every earlier one of the first has succeeded |
| Upserting.NothingBeginsAfterFailure | internal/k8s/client.go:401-406 | a failed update keeps every later batch from beginning, and once the group has stopped no update begins at all |
| Upserting.NothingBeginsAfterInterrupt | internal/k8s/client.go:371-374 | once the caller's context has ended no update begins any more |
| Upserting.SuccessIsInInputOrder | internal/k8s/client.go:391-411 | whatever the interleaving, a successful result is what each entity's update made, concatenated in input order, and nothing failed |
| Upserting.ReportsExactlyWhatHappened | internal/k8s/client.go:404-406 | success is reported if and only if every update succeeded; a reported error is that of an update, unless the caller's context ended |
| Upserting.EveryRunReturns | internal/k8s/client.go:398-412 | no run is stuck before Upsert returns, and none is longer than four steps an entity and one a batch |
| Paths.RenderInjective | internal/ospath/ospath.go:31-32 | cleaned absolute paths are determined by their text |
| Paths.AncestorShorter | internal/ospath/ospath.go:70-72 | a proper ancestor's text is shorter, so giving up on length loses nothing |
| Paths.Child | internal/ospath/ospath.go:26-79 | succeeds if and only if dir is an ancestor of file or file itself, and then dir followed by the child is file |
| Paths.IsChildOfOne | internal/ospath/ospath.go:89-96 | true if and only if some directory is such an ancestor |
| DockerIgnore.Matches | vendor/github.com/tilt-dev/dockerignore/pattern_matcher.go:79-101 | the loop computes that the last matching pattern decides |
| DockerIgnore.MatchCoversBelow | vendor/github.com/tilt-dev/dockerignore/pattern_matcher.go:209-212 | a pattern that matches a path matches everything below it |
| DockerIgnore.MatchIsBelowPlainPrefix | vendor/github.com/tilt-dev/dockerignore/pattern_matcher.go:142-207 | what a pattern matches lies below its leading segments without wildcards |
| DockerIgnore.DefinitePatternPrefix | internal/dockerignore/ignore.go:75-89 | the segments before the first star; the empty string when that is the first |
| DockerIgnore.MatchesEntireDir | internal/dockerignore/ignore.go:27-72 | the loop computes the shortcut's answer |
| DockerIgnore.ExclusionNoticed | internal/dockerignore/ignore.go:54-67 | a definite exclusion that matches something in a directory whose own path it does not match makes the shortcut give up |
| DockerIgnore.RootMatchCoversAllExactlyWhen | internal/dockerignore/ignore.go:27-31 | a pattern that matches the root matches every path if and only if it is not the pattern for the root |
| DockerIgnore.MatchesEntireDirIsSound | internal/dockerignore/ignore.go:27-72 | definite exclusions, interleaved with inclusions in any way: if the shortcut accepts a directory, every path at or below it is ignored; the root too, when some pattern but its own matches it |
| IgnoreExclusions.SafeExactlyWhenDefinite | internal/dockerignore/ignore.go:61-67 | any exclusion, double stars included: the shortcut is safe if and only if there is no wildcard, or the first segment with one has a star and is not the first, or it is the last and has no star, or the first name of a path decides |
| DockerIgnore.MatchByName | vendor/github.com/tilt-dev/dockerignore/pattern_matcher.go:142-207 | a pattern without a slash of its own, in which only stars follow a double star, matches a name by itself if it matches it with more below |
| DockerIgnore.RootIsNotCovered | internal/dockerignore/ignore.go:27-31 | with the pattern for the root, the shortcut accepts the root although nothing below it is ignored |
| IgnorePatterns.MatchedExactlyWhen | vendor/github.com/tilt-dev/dockerignore/pattern_matcher.go:79-101 | a file is ignored if and only if there is a last pattern that matches it, and that is no exclusion |
| IgnorePatterns.AcceptsExactlyWhen | internal/dockerignore/ignore.go:27-72 | a directory is accepted if and only if it is ignored itself, no exclusion names it or a path below it, and none has its first star below a plain directory that this one is or lies in |
| IgnorePatterns.PlainMatchesExactlyBelow | vendor/github.com/tilt-dev/dockerignore/pattern_matcher.go:142-212 | a pattern without wildcards matches the path it names and what is below, and nothing else |
| IgnorePatterns.ExtensionInDirectory | vendor/github.com/tilt-dev/dockerignore/pattern_matcher.go:142-212 | dir/*.ext matches exactly what is at or below a name in dir that ends so |
| IgnorePatterns.ExtensionBelowDirectory | vendor/github.com/tilt-dev/dockerignore/pattern_matcher.go:142-212 | with a double star before it, exactly the paths below dir on which some name, at any depth, ends so |
| FilteredWriters.CutIsUnique | internal/filteredwriter/filtered_writer.go:15-45 | there is one way to cut a text into complete lines and a rest |
| FilteredWriters.FilteredWriter.Write | internal/filteredwriter/filtered_writer.go:15-45 | panics exactly when the combined text begins with a newline; else lines up to the first one the sink refuses are done with, the rest is kept, and the length of the combined text is returned |
| FilteredWriters.FilteredWriter.WriteLines | internal/filteredwriter/filtered_writer.go:21-41 | the same for the loop, with all slice bounds in range |
| FilteredWriters.Sink.Write | internal/filteredwriter/filtered_writer.go:31-36 | what an underlying writer receives, failing calls included |
| FilteredWriters.NoLineLostOrRepeated | internal/filteredwriter/filtered_writer.go:31-43 | any chunks, any failures of the sink: the lines of the whole text are offered to it in order, each once, up to some line, and the rest of the text is what is carried over |
| FilteredWriters.ChunksDoNotShow | internal/filteredwriter/filtered_writer.go:15-45 | with a sink that does not fail the output is the unfiltered complete lines of the whole text, and the leftover what follows the last newline |
| FilteredWriters.PanicsExactlyOnEmptyFirstLine | internal/filteredwriter/filtered_writer.go:24 | with a sink that does not fail no write panics if and only if no chunk begins with a newline where a line begins |
| FilteredWriters.NextWritePanicsExactlyWhen | internal/filteredwriter/filtered_writer.go:20-24 | any sink, any chunks: the next write panics if and only if the first line not yet offered, of the whole text with its chunk, is complete and empty |
| FilteredWriters.PanicsForEverIsReached | internal/filteredwriter/filtered_writer.go:31-36 | a refused line with an empty one behind it leads to the state in which every write panics |
| FilteredWriters.PanicsForEver | internal/filteredwriter/filtered_writer.go:33-36 | a leftover that begins with a newline makes every later write panic |
| FilteredWriters.FirstRefusedIs | internal/filteredwriter/filtered_writer.go:30-37 | a write stops at the first line that the filter lets through and the sink's call for which fails |
| FilteredWriters.ReportsExactlyWhen | internal/filteredwriter/filtered_writer.go:31-44 | a write fails if and only if the sink's call for some line does; either way it reports the length of the combined text |
| FilteredWriters.ReportsTooMuchExactlyWhen | internal/filteredwriter/filtered_writer.go:18-44 | with a sink that does not fail, it reports more than its chunk has if and only if the text before does not end in a newline |
| AnsiParsing.Ansi.Flush | internal/rty/ansi.go:53-59 | text in the buffer becomes one directive; an empty buffer none |
| AnsiParsing.Ansi.SetColors | internal/rty/ansi.go:47-51 | flushes, then adds the two colours |
| AnsiParsing.Ansi.SelectGraphicRendition | internal/rty/ansi.go:106-206 | the reset, or the switch over the fields' strings, does what the specification of a rendition says, once; AnsiSequences.ResetsExactlyWhen and OneFieldShows say what that is |
| AnsiRenditions.CaseOf | internal/rty/ansi.go:142-168 | which case a field's string selects, by the number it prints |
| AnsiRenditions.RenditionSets | internal/rty/ansi.go:141-206 | a rendition sets each colour to what the last field that asks for one asks, an unasked one to nothing, and has no effect if and only if no field asks for anything |
| AnsiRenditions.PaletteColorIsSetExactlyWhen | internal/rty/ansi.go:168-198 | 38;5;n and 48;5;n set colour n of the palette, and leave the other colour unset, if and only if n is neither the number of a bright colour nor itself the code of a basic one |
| AnsiRenditions.RgbColorIsSetExactlyWhen | internal/rty/ansi.go:187-198 | 38;2;r;g;b and 48;2;r;g;b set that colour, and leave the other unset, if and only if no argument is read again as a code that asks for a colour |
| AnsiColors.PaletteIsRightExactlyWhen | internal/rty/ansi.go:172-186 | the parser gives colour n of the palette if and only if n is not 8 to 15; these all come out black |
| AnsiColors.NamesTellColorsApart | internal/rty/ansi.go:114-139 | colours of three bytes, the basic ones and none at all are named differently |
| AnsiParsing.Ansi.ReadRune | internal/rty/ansi.go:70-229 | one rune moves the parser as specified |
| AnsiParsing.Ansi.Write | internal/rty/ansi.go:63-234 | a write is its runes one after the other, then a flush |
| AnsiMeaning.ChunksDoNotShow | internal/rty/ansi.go:63-234 | wherever the text is cut, the parser ends in the same state, and the directives, adjacent texts merged, are those of one write |
| AnsiMeaning.TextIsClean | internal/rty/ansi.go:220-228 | no text directive holds the escape rune or is empty |
| AnsiMeaning.SpellingIsUnderstood | internal/rty/ansi.go:70-229 | every spelling of a list of runes and escape sequences shows what they mean, and leaves the parser in text |
| AnsiMeaning.EveryInputIsUnderstood | internal/rty/ansi.go:70-229 | every text is such a spelling with at most one unfinished sequence after it, and shows what the list means |
| AnsiMeaning.ControlActs | internal/rty/ansi.go:96-209 | the action at a final byte shows what the language gives a control sequence: 'm' sets colours, 'E' adds at least one newline, nothing else shows anything |
| AnsiSequences.ByteClasses | internal/rty/ansi.go:86-96 | parameter, intermediate and final bytes are those of section 5.4 of ECMA-48 |
| AnsiSequences.ResetsExactlyWhen | internal/rty/ansi.go:111-116 | a rendition read in text sets both colours to the terminal's own if and only if its parameter is 0 |
| AnsiSequences.NoParameterDoesNothing | internal/rty/ansi.go:111-116 | a rendition without a parameter shows nothing |
| AnsiSequences.BasicCodesSet | internal/rty/ansi.go:117-167 | the codes 30 to 37 and 90 to 97 set a foreground, 40 to 47 and 100 to 107 a background, by the names of two tables of eight, and leave the other colour unset |
| AnsiSequences.OneFieldShows | internal/rty/ansi.go:141-206 | a parameter of one field unsets both colours if and only if it is that of an attribute, and does nothing if and only if it is neither 0, an attribute nor a basic colour |
| AnsiSequences.ExtendedNeedsArguments | internal/rty/ansi.go:168-205 | 38 or 48 with a single field after it does nothing itself: what is shown is what that field shows alone |
| AnsiSequences.NextLineShows | internal/rty/ansi.go:98-103 | next line adds as many newlines as its parameter prints, and one for none or 0 |
| AnsiSequences.OthersShowNothing | internal/rty/ansi.go:96-98 | no control sequence with another final byte shows anything |
| AnsiColors.AtoiReadsDecimal | internal/rty/ansi.go:99-102 | a printed count is read back, up to the largest 64-bit integer |
| AnsiColors.OtherNumbers | internal/rty/ansi.go:99-102 | what is no number counts as 0, and leading zeros do not count |
| AnsiColors.HexIsReadBack | internal/rty/ansi.go:189-192 | numbers beyond a byte are written with all their digits |
| AnsiRenditions.FieldsAreSeparated | internal/rty/ansi.go:111 | the fields of a rendition are what its semicolons separate |
| AnsiColors.RgbIsReadBack | internal/rty/ansi.go:189-192 | the name of a colour of three bytes is seven characters, from which the bytes can be read back |
| AnsiColors.ColorCube | internal/rty/ansi.go:178-182 | the palette's colours 16 to 231 are a cube of six steps of 51 in red, green and blue; when a parameter sets them is another matter |
| AnsiColors.GreyRamp | internal/rty/ansi.go:183-186 | the palette's colours 232 to 255 are ever lighter greys from black to white |
| Selectors.UnescapeAndSplit | internal/sliceutils/sliceutils.go:99-136 | the loop computes the specified parts, or none on an invalid escape |
| Selectors.SplitUndoesJoin | internal/sliceutils/sliceutils.go:99-155 | splitting what was joined gives the same parts, whatever delimiters and escapes they hold |
| Selectors.SplitsExactlyWhen | internal/sliceutils/sliceutils.go:99-127 | a string can be taken apart if and only if every escape stands before a delimiter or an escape, or at the end |
| Selectors.JoinUndoesSplit | internal/sliceutils/sliceutils.go:99-155 | joining the parts gives the string back, less an escape at its end |
| Names.PotentialNames | internal/k8s/names.go:83-103 | one name for each number of components from the least on; which components these are is Names.NameSplitsIntoFields |
| Names.CountNames | internal/k8s/names.go:28-35 | how often each name is asked for |
| Names.UniqueNamesMeta | internal/k8s/names.go:25-62 | each entity gets the specified name |
| Names.NamesAgree | internal/k8s/names.go:97-101 | two names agree if and only if they have the same components up to case |
| Names.NameSplitsIntoFields | internal/k8s/names.go:93-101 | a name of k components is taken apart into the first k of the entity's name, kind, namespace and group, in this order and folded; an empty group is core |
| Names.FallbackSplitsIntoFields | internal/k8s/names.go:55-58 | a fallback is taken apart into all four and the entity's index |
| Names.NamedExactlyWhen | internal/k8s/names.go:37-58 | an entity is called by its first k fields if and only if no other entity shares these up to case, for every fewer some other does, and the name is not empty |
| Names.KindTellsApart | internal/k8s/names.go:25-62 | two entities of one name and different kinds, with no other of that name, are called by name and kind |
| Names.PlainNamesAreJoined | internal/k8s/names.go:97-101 | names and kinds without colons and backslashes give name:kind |
| Names.NamesAreDistinct | internal/k8s/names.go:25-62 | different entities get different names, index fallbacks included |
| Names.ShortestIsShortest | internal/k8s/names.go:37-46 | the name has the fewest components that no other entity has |
| Names.FallsBackExactlyWhen | internal/k8s/names.go:47-58 | an entity falls back to its index if and only if another has all four components up to case, or one component is enough, it has no name and every other entity has |
| Names.FragmentsToEntities | internal/k8s/names.go:65-80 | every fragment is mapped to the entities that ask for it, in order, each once |
| Names.NameFindsItsEntity | internal/k8s/names.go:64-80 | every name but a fallback looks up its own entity and no other |
| Blockers.BuildDependencyGraph | internal/cli/tree_view.go:151-175 | c is listed under p if and only if c depends on p and p is a resource; a resource has a parent if and only if it is listed somewhere |
| Blockers.CollectDescendants | internal/cli/tree_view.go:541-549 | ends on every finite graph; adds only what is reachable, and leaves nothing new without its children |
| Blockers.CollectAll | internal/cli/tree_view.go:304-308 | the set holds exactly what is reachable from the roots |
| Blockers.PrepareBlockersTree | internal/cli/tree_view.go:257-308 | each of the three outcomes exactly when it should be; the roots are the resources that are not OK with no dependency that is not |
| Blockers.BlockingStatuses | internal/cli/tree_view.go:337-345 | of the known statuses, exactly pending, in progress, error and an unknown run-time status block |
| Blockers.MissedIsTrapped | internal/cli/tree_view.go:271-284 | a blocked resource that is not shown depends on another such one |
| Blockers.AcyclicShowsAllBlocked | internal/cli/tree_view.go:271-308 | acyclic: every resource that is not OK is shown below some root blocker |
| Blockers.NoRootBlockersExactlyWhenTrapped | internal/cli/tree_view.go:286-290 | there is no root blocker if and only if every resource that is not OK depends on another, and then there is a cycle |
| Blockers.PrepareFullTree | internal/cli/tree_view.go:227-255 | the Tiltfile's children become the resources without a parent, the others stay |
| Blockers.FullTreeShowsAllExactlyWhen | internal/cli/tree_view.go:227-255 | acyclic: every resource is shown if and only if none depends on the Tiltfile alone |
| Labels.ApplyLabelsToMap | internal/k8s/label.go:28-46 | the loop computes the specified map |
| Labels.AppliedIsWanted | internal/k8s/label.go:28-46 | for every key: the last label for it counts, if new keys are allowed or it was there; else what was there stays, or goes when replacing |
| Labels.InjectionKeepsSelection | internal/k8s/label.go:63-103 | either mode, duplicate keys allowed: a selector that selected a pod still does, and asks for no new key |
| Labels.ServiceStillMatchesExactlyWhen | internal/k8s/label.go:181-203 | a service that matched its pods still does if and only if labels are merged in or some label is for a key it selects on |
| Labels.InjectLabels | internal/k8s/label.go:50-103 | the loops compute the specified object; what becomes of every key is Labels.InjectedIsWanted |
| Labels.InjectedIsWanted | internal/k8s/label.go:50-103 | after injection every key of the object's own and of its pods' labels is as wanted with new keys, and every key of a selector as wanted without, or, where the selector is inferred, as the pods' |
| Labels.LastValueIsLast | internal/k8s/label.go:33-45 | of several labels for a key the last one counts |
| Labels.WorkloadKeepsItsPods | internal/k8s/label.go:78-91 | a workload goes on picking its pods; one whose selector is inferred gets its pods' new labels |
| FlexLayouts.Allocate | internal/rty/layouts.go:70-107 | the allocation of the children's widths over the width, for a horizontal layout, or of their heights over the height, or the error of the first child without a size |
| FlexLayouts.QuotientIsDivision | internal/rty/layouts.go:101-102 | the shares of the specification are those of integer division |
| FlexLayouts.WishesGranted | internal/rty/layouts.go:77-89 | children that fit get what they wished for, and none less than nothing |
| FlexLayouts.FlexibleSharesFair | internal/rty/layouts.go:100-107 | flexible shares never shrink from child to child and differ by at most one |
| FlexLayouts.RangesFill | internal/rty/layouts.go:109-128 | the ranges follow each other within the length, and fill it if and only if some child is flexible or there is nothing to fill |
| FlexLayouts.FitsExactlyWhen | internal/rty/layouts.go:77-89 | a child fits if and only if its wish and what earlier ones take that fit leave some of the length |
| FlexLayouts.TooSmallExactlyWhen | internal/rty/layouts.go:91-99 | there is room unless the length is negative |
| FlexPlaces.HorizontalWindows | internal/rty/layouts.go:70-128 | side by side: the children's windows follow each other from the left within the width and span the height, and one that fits has its width |
| FlexPlaces.VerticalWindows | internal/rty/layouts.go:70-128 | one below the other: the same from the top within the height, spanning the width, and one that fits has its height |
| Canvases.SetContentFrame | internal/rty/canvas.go:159-176 | a write changes no cell but the one it names, and those a growing canvas on the way has not blanked yet |
| Canvases.WriteIsSeen | internal/rty/canvas.go:159-176 | what is written inside all the canvases on the way is there |
| CanvasBlanks.NewWindowIsBlank | internal/rty/canvas.go:115-146 | every cell of a new window that does not grow is a space in its style, unless it differs from the window it is made on in the foreground at most; then nothing changes |
| CanvasBlanks.GrowingBlanksSkippedRows | internal/rty/canvas.go:169-189 | a growing window written below the rows it has reached shows spaces in its style in all other cells down to that row |
| CanvasBlanks.DividesExactlyWhen | internal/rty/canvas.go:115-119 | a window cannot be made if and only if it is to grow on one that does not |
| Canvases.NeighboursDoNotDisturb | internal/rty/canvas.go:115-189 | however deep the canvases and however they grow and blank rows, drawing through canvases apart from one never changes what that one has claimed |
| CanvasRuns.SiblingsUndisturbed | internal/rty/canvas.go:115-189 | any sequence of drawing, dividing and closing below one child, with the canvases it makes on the way, leaves every cell claimed below a sibling as it was |
| CanvasRuns.LayoutKeepsItsChildren | internal/rty/layouts.go:109-128 | a flexible layout renders its children in turn, each with any such sequence: what a child has claimed when it is done is there when the layout is done |
| Canvases.DividingDoesNotDisturb | internal/rty/canvas.go:115-146 | nor does making a new canvas apart from it |
| Canvases.ClosingKeepsClaims | internal/rty/canvas.go:152-157 | closing a canvas gives up nothing that is claimed |
| Canvases.LayoutDividesApart | internal/rty/layouts.go:109-128 | the rectangles of two children of a flexible layout are disjoint |
| Canvases.Display.Set | internal/rty/canvas.go:159-176 | the object's cells and high-water marks change as specified |
| Canvases.Display.SetRootContent | internal/rty/canvas.go:73-87 | the same for the canvas with cells, which grows by blank rows |
| Canvases.Display.FillFrom | internal/rty/canvas.go:178-189 | blanks every row after the last filled one |
| Canvases.Display.NewSubCanvas | internal/rty/canvas.go:115-146 | refuses a growing canvas on one that does not grow; else makes and, where the style asks for it, blanks it |
| Canvases.Display.Close | internal/rty/canvas.go:152-157 | a growing canvas ends as high as the rows it reached |

## Left out

- OwnerFetching.TopLevelCall: without readable metadata only one direction is stated, because whether a failing lookup or a self-owner is met first depends on the order of owner references.
- OwnerLiveness.CanAlwaysFinishExactlyWhenAcyclic: for the same reason it assumes that no lookup fails and no owner reference lacks a UID; that acyclic owners suffice is proved without it.
- OwnerSharing.UnsharedCanFinishExactlyWhen: given callers of which two ask for different objects that lead to one cycle are not characterised, because whether some run of theirs hangs depends on the order of owner references.
- DockerIgnore.MatchesEntireDirIsSound: each exclusion is judged by itself, so one that inclusions after it make harmless is not credited. At the root, patterns that only together cover everything below it are not credited.
- BuildSlots.BuildsStayWithinLimit: assumes reloads that spare builds under way; when it fails after another is BuildReloads.ReloadIsSafeExactlyWhen, whose continuations use live updates and reloads that the model leaves to the environment.
- BuildReloads.ReloadIsSafeExactlyWhen: a queue in which a start of a build waits whose manifest the reload drops, or the end of a live update of a manifest it touches, or another reload of a manifest with a build under way, is not characterised: there the limit can be exceeded while the queue drains, which depends on what else could be started at that moment.
- Owner references are identified by UID alone; names, kinds and namespaces of references, and the wrongly propagated namespace of cluster-scoped owners, are not modelled.
- The metadata cache, batch fetches and watches of the owner fetcher: what is known about objects is fixed during a run, and entities agree with it.
- A promise is a value in the memo, not an object with a channel; waiting on an unsettled one is an outcome for one caller and a disabled step for many.
- Other fields of manifests and entities, and sorting them: `sort.Stable` over positions depends on the library.
- What `NextTargetToBuild` chooses, beyond being a known manifest without a build; target validation, live update's own bookkeeping, and the order of subscribers.
- The store's batching window, back pressure of log actions, and panics of subscribers.
- Retrying and timing out a single update: its outcome is up to the environment. A worker's check of the context and the beginning of its update are one step.
- Ignore patterns with backslashes, brackets or other characters that are special in a regular expression; relative and unclean patterns; file names with newlines; Windows separators.
- Case folding, symbolic links and `os.SameFile` in paths.
- Colour lookup in the terminal library, UTF-8 decoding, and running out of memory on a huge repeat count.
- Letter case mapping is given character by character and assumed to leave digits, colon and backslash alone.
- The order in which root blockers and children are listed, printing, statistics, and `buildTreeNode`, which recurses without end below a cycle.
- Reflection that finds label maps and selectors in an object; selectors with expressions are only seen as such. Maps are values here, so aliasing of label maps is not modelled.
- `ConcatLayout` and the other layouts, `SubCanvas.GetContent`, screens, and the error handler's messages. Canvases are entries of one table that name the canvas they draw on, not objects that point at it.
- Cobra commands, Docker, Compose, Helm, clusters, analytics, snapshots and the web interface.
