# Models of the flow, watch, binding and coordination cores

Dafny models of the parts of this C repository whose correctness is not visible from one function at
a time, with proofs of what each part is for. `dafny verify dfyconfig.toml` checks everything.

| part | files |
|---|---|
| Ahead-of-time pipelines: stage validation, the Graph matcher, normalization, the certificate checker that replays an optimizer trace, and the optimizer passes that write such traces | `Callables`, `AotStages`, `DataGraph`, `AotMatcher`, `Lowering`, `AotCertificate`, `AotOptimizer` |
| Filesystem watch: the bounded ring with its rescan marker, the wake protocol of its Publisher, the inotify watch table | `WatchCore`, `WatchHistory`, `WatchPublisher`, `LinuxWatchTable`, `LinuxWatchEvents`, `LinuxWatchBackend` |
| Filesystem service: the slot state machine shared by submitters, workers, cancellers and a driver | `FsService`, `FsProgress`, `FsOutcomes` |
| Effect analysis of nested subgraphs | `EffectAnalysis` |
| Binding of token streams to C data: numeric admission, preflight of descriptor graphs, the format, the decoder with its scratch stack | `CbindScalar`, `CbindShape`, `CbindPreflight`, `CbindFormat`, `CbindFailures`, `CbindDecoder` |
| Coordination of resumable children in the modes ALL, ALL_DONE, ANY, LATEST and SEQUENCE | `CoordModel`, `CoordLaws`, `CoordRuns`, `CoordOnce`, `CoordTheorems`, `CoordVerdicts`, `Coordinator` |
| Views of an edge list and byte scanners that must agree with a simple form | `BranchingViews`, `BranchingObservations`, `BlockScan` |

## How the models are built

*Pipelines.* A callable is a descriptor; an `Env` interprets its code. `Honest` is the only assumption
on an `Env`, and it concerns only the maps that occur in the stage list at hand: their results have
the declared type, and one that declares itself an idempotent endomap is idempotent on values of its
type. Other maps may be anything; `DeletionNeedsIdempotence` shows an honest pipeline in which a
deletion without that declaration would change the result. The meaning of a subgraph (`Emits`,
`GraphRuns`) is defined by its walks from entry to tail, not by the matcher.

*Watch and service.* Every critical section or atomic operation is one step and a run is any finite
list of steps, so each theorem about runs covers every interleaving. A step that is not enabled
changes nothing. The watch's ring is a class over an array whose methods are proved equal to the step
functions. History variables (logs, sets of request ids, the `History` of what was submitted, performed
and cancelled) are only read by the statements.

*Binding.* Descriptors are indices into a table, so cyclic ones can be written down; `Unfold` is the
finite tree below a descriptor, if there is one. `Encodes` says which token sequences encode which
values without mentioning a decoder, and `Fails` which fault of a stream comes first; `Parse` reads a stream; the class `Decoder` works in place on a
position, a stack of bitmap bytes and a half-filled destination, and any call of the token source or
of a type adapter may fail. Each is proved against the one before.

*Coordination.* A child is an arbitrary finite list of answers, after which it answers that it is
done. The functions of `CoordModel` say what one resume does, the class `Coordinator` does it in
place, and a run is any list of resumes, arms and child wakes up to the first terminal answer.

`Basics` holds what the models share. Every lemma carries `{:induction false}`: each induction is written out in the lemma's body as a call
on something smaller, and none is left to the verifier.

## Findings

* LATEST can answer that it waits while no child is waiting, and arming then stores a waker that
  nobody calls (`cflow/src/coord.c:396-421`). `CoordOnce.LatestWaitsForNothing` says exactly when:
  every child has a value and every unfinished child ends at this resume without a further value.
  `CoordTheorems.LatestCanWaitForNothing` is the smallest instance.
* A terminal waker bound to the watch Publisher can be left bound in a state that is done and empty:
  the queue may be drained after the last notification has looked at it
  (`cflow-fs/src/fs_watch_publisher.c:63-82`). `WatchPublisher.MissedExactlyByLastDelivery` says by
  which step, and `WatchPublisher.TerminalCanBeMissed` is a run that does it. A consumer that polls
  sees the end.
* An unarm called from inside a wake call of the same Publisher returns at once, and wakers taken
  before may be called after it (`cflow-fs/src/fs_watch_publisher.c:58-61`).
  `WatchPublisher.UnarmReturnExact` says exactly when a returning unarm leaves such calls, and
  `WatchPublisher.CalledAfterInsideUnarm` is a run with one.

## Model

| member | source | states |
|---|---|---|
| `Callables.SameMeaning` | cmeta/src/cmeta.c:512-526 | descriptors that compare equal compute the same function in every environment |
| `Callables.SameIsEquivalence` | cmeta/src/cmeta.c:512-526 | comparison is an equivalence among bindable descriptors, and equal ones declare the same signature, effects and properties |
| `AotStages.Validate` | cflow/src/direct.c:68-88 | accepts exactly the stage lists in which every stage's contract holds for the type that flows into it, from the input to the output type |
| `AotStages.ValidMeansTyped` | cflow/src/direct.c:12-88 | said without the tests: accepted are exactly the lists of one to sixteen stages for which there are types between the stages, from the pipeline's input to its output, such that each filter is a predicate on the type in front of it, each map a function from the type in front to the type behind, and every callable is pure, deterministic, total and can be called the way its stage asks |
| `AotStages.ValidChained` | cflow/src/direct.c:12-88 | a validated list is well typed end to end |
| `AotStages.EvalTyped` | cflow/src/direct.c:12-66 | if the maps that occur keep their declared types, a typed list turns a value of its input type into nothing or a value of its output type |
| `AotStages.DeleteAdjacent` | cflow/src/direct.c:324-339 | if the maps that occur keep their word, deleting the second of two adjacent equal maps that declare idempotence keeps typing and meaning |
| `AotStages.DeletionNeedsIdempotence` | cflow/src/direct.c:332-338 | a valid pipeline of two equal maps that do not declare idempotence, and an honest environment in which deleting one changes the result |
| `DataGraph.OutDegree` | cflow/src/graph.c:221-227 | the number of edges that leave a node |
| `DataGraph.SingleSuccessor` | cflow/src/graph.c:229-243 | finds a successor exactly when there is one edge, and it is that edge's target |
| `DataGraph.ThroughWalkUnique` | cflow/src/graph.c:1338-1359 | in a linear subgraph every walk from entry to tail is the one path |
| `DataGraph.LinearPathDistinct` | cflow/src/graph.c:1338-1359 | the nodes of a linear path are pairwise distinct |
| `DataGraph.LinearEmits` | cflow/src/graph.c:1338-1359 | a linear subgraph delivers what evaluating its one path gives, and nothing else |
| `AotMatcher.NodeMatchesStages` | cflow/src/direct.c:99-137 | accepts a node exactly when its filter, map or fused map chain is the next stages, and says how many |
| `AotMatcher.NodeMeansStages` | cflow/src/direct.c:99-137 | a matched node does what the stages it consumed do, fused chains included |
| `AotMatcher.MatchRoot` | cflow/src/direct.c:139-212 | the walking loop accepts exactly the subgraphs with matching boundary whose walk accounts for all stages |
| `AotMatcher.MatchedIsLinear` | cflow/src/direct.c:160-205 | an accepted subgraph is a single walk of distinct nodes from entry to tail |
| `AotMatcher.MatchedEmits` | cflow/src/direct.c:139-212 | an accepted subgraph delivers a value exactly when the stage list computes it |
| `AotMatcher.MatchedRuns` | cflow/src/direct.c:139-212 | on every input stream an accepted subgraph has exactly one output stream, that of the stage list |
| `Lowering.ValidRootIsLinear` | cflow/src/graph.c:1338-1407 | a subgraph that passes validation is one walk from its entry to its tail |
| `Lowering.NormalizeMeaning` | cflow/src/lower.c:157-298 | normalization delivers exactly what the given subgraph delivers |
| `AotCertificate.MatchGraph` | cflow/src/direct.c:139-212 | accepts exactly the Graphs whose normalized form matches the stage list |
| `AotCertificate.GraphMeansStages` | cflow/src/direct.c:139-212 | an accepted Graph, as given, has on every input stream exactly the stage list's output stream |
| `AotCertificate.CollectCoordinates` | cflow/src/direct.c:219-247 | succeeds exactly on a matching walk and fills each stage's node and callable index |
| `AotCertificate.FindCoordinate` | cflow/src/direct.c:249-266 | the first stage with the coordinate, or none if there is none |
| `AotCertificate.NearestKept` | cflow/src/direct.c:324-327 | the nearest stage before that is not deleted, or the first one |
| `AotCertificate.CheckEvent` | cflow/src/direct.c:301-339 | accepts an event exactly when it deletes an equal idempotent map right behind the nearest stage still there |
| `AotCertificate.ReplayTrace` | cflow/src/direct.c:301-340 | the loop over the removal marks computes the replay, or rejects exactly when it does not exist |
| `AotCertificate.CollectKept` | cflow/src/direct.c:342-343 | the stages not marked, in order |
| `AotCertificate.MatchOptimizedGraph` | cflow/src/direct.c:268-363 | accepts exactly what `Certified` says: matched normalized source, bound trace, justified events, matching rest |
| `AotCertificate.ReplayMeaning` | cflow/src/direct.c:301-340 | after every prefix of the trace the remaining stages are chained, mean the same as all of them, and number the stages less the events |
| `AotCertificate.CertifiedMeaning` | cflow/src/direct.c:268-363 | translation validation: if the checker accepts and the maps of the stage list keep their declared contracts, the optimized Graph, the source Graph and the stage list have the same single output stream on every typed input stream |
| `AotCertificate.CertifiedCount` | cflow/src/direct.c:298-345 | the bound on the trace suffices: at least one stage remains and the count is exact |
| `AotCertificate.TraceIsBound` | cflow/src/direct.c:292-293 | a trace certifies no Graphs but the two it was recorded for, in the versions it was recorded for |
| `AotOptimizer.FuseCalls` | cflow/src/opt.c:226-328 | the fusing loop keeps exactly the calls that do not repeat the last kept one, and records one event per dropped call |
| `AotOptimizer.NoRepeatIsLeft` | cflow/src/opt.c:263-301 | the fused chain has no two neighbours left that could be merged, and each dropped call has one event; without the pass nothing is dropped |
| `AotOptimizer.FusingIsIdempotent` | cflow/src/opt.c:263-301 | fusing what was fused changes nothing and records nothing |
| `AotOptimizer.NoRunIsLeft` | cflow/src/opt.c:226-254 | in the optimized subgraph no node that could start a run is followed by a pure map: runs are fused as far as they go |
| `AotOptimizer.OptimizerReplays` | cflow/src/opt.c:226-407 | every event recorded along the walk is justified when its turn comes, and together they delete exactly the dropped stages |
| `AotOptimizer.OptimizedMatches` | cflow/src/opt.c:330-407 | the optimized nodes account for exactly the stages that were kept |
| `AotOptimizer.AssembledValid` | cflow/src/graph.c:1179-1407 | every chain of nodes that accounts for a valid stage list, each node's callable taking its input, passes Graph validation |
| `AotOptimizer.AssembledAccepted` | cflow/src/direct.c:139-212 | every such chain, with any fusing of its maps, is accepted and is its own normal form |
| `AotOptimizer.ValidAccepted` | cflow/src/direct.c:139-212 | conversely to soundness, a valid Graph with any numbering of its nodes whose walk accounts for the stages is accepted exactly when each node's callable takes the node's input |
| `AotOptimizer.ReplayValid` | cflow/src/direct.c:342-350 | the stage list left by a replay is again a valid one |
| `AotOptimizer.OptimizerIsCertified` | cflow/src/opt.c:409-519 | completeness: whatever the passes do to a matched normalized Graph, the checker accepts the result with its trace |
| `WatchCore.Watch.constructor` | cflow-fs/src/fs_watch.c:179-241 | an empty ring of the given capacity |
| `WatchCore.Watch.Append` | cflow-fs/src/fs_watch.c:159-170 | the slot write appends to the queue the ring stands for |
| `WatchCore.Watch.PublishDetail` | cflow-fs/src/fs_watch.c:128-177 | a bad kind or an overlong path counts as a loss; otherwise does what `Publish` says, whatever the ring's position |
| `WatchCore.Watch.PublishLoss` | cflow-fs/src/fs_watch.c:111-126 | does what `Loss` says |
| `WatchCore.Watch.TakeReady` | cflow-fs/src/fs_watch.c:286-326 | takes the oldest detail, or the marker when no detail is queued |
| `WatchCore.Watch.RunReady` | cflow-fs/src/fs_watch.c:274-331 | delivers at most the given number, in order |
| `WatchCore.Watch.AcknowledgeRescan` | cflow-fs/src/fs_watch.c:333-356 | ends the wait, or schedules another marker when events were lost since the last one |
| `WatchCore.Watch.BackendMarkDone` | cflow-fs/src/fs_watch.c:100-109 | records the end of the backend |
| `WatchCore.Watch.IsQuiescent` | cflow-fs/src/fs_watch.c:371-383 | closed, done, drained and no notification in flight |
| `WatchHistory.EveryRun` | cflow-fs/src/fs_watch.c:100-383 | in every interleaving: accepted = delivered + queued in order, no silent loss, markers behind all earlier details, awaiting exactly while a marker is pending or delivered, counters add up |
| `WatchHistory.ConsumerView` | cflow-fs/src/fs_watch.c:274-356 | what a consumer received is a prefix of what was accepted, and once no rescan is awaited every loss lies before a marker it was given |
| `WatchHistory.AcknowledgeEndsWait` | cflow-fs/src/fs_watch.c:333-356 | before a close, acknowledging a delivered marker ends the wait exactly when every loss so far lies before a marker the consumer was given; otherwise another marker is scheduled |
| `WatchHistory.AcceptedExactly` | cflow-fs/src/fs_watch.c:128-177 | in every run a detail is accepted exactly when the watch is not closed, no rescan is awaited and fewer details than the capacity wait for delivery; any other is counted, and unless the watch is closed a rescan is awaited |
| `WatchHistory.MarkerComes` | cflow-fs/src/fs_watch.c:274-331 | from every reachable state with a marker pending the driver alone delivers it, behind every detail accepted so far, in one turn more than details are waiting |
| `WatchPublisher.GateKeepsWakeup` | cflow-fs/src/fs_watch.c:100-177 | no critical section of the watch loses a wakeup, the queue-full path that notifies nobody included |
| `WatchPublisher.NeverLost` | cflow-fs/src/fs_watch_publisher.c:63-110 | in every interleaving, an armed waker with something ready has a notification in flight that has not yet taken it |
| `WatchPublisher.ArmedCanFire` | cflow-fs/src/fs_watch_publisher.c:63-110 | from every such state at most six steps of threads already under way (no new publication, arm, bind, cancel or unarm) invoke that waker |
| `WatchPublisher.EveryWakerAccounted` | cflow-fs/src/fs_watch_publisher.c:39-123 | every waker ever given is in exactly one place: kept, about to be invoked, invoked, or dropped |
| `WatchPublisher.OneShot` | cflow-fs/src/fs_watch_publisher.c:39-110 | no waker is invoked twice |
| `WatchPublisher.QuiescentMeansStopped` | cflow-fs/src/fs_watch.c:371-383 | a quiescent watch has no notification left anywhere in the Publisher |
| `WatchPublisher.UnarmIsFinal` | cflow-fs/src/fs_watch_publisher.c:112-122 | when an unarm that had to wait returns, no waker given before it is still to be invoked |
| `WatchPublisher.UnarmInsideLeavesCalls` | cflow-fs/src/fs_watch_publisher.c:58-61 | an unarm from inside a wake call disarms without waiting, and calls are still to come exactly when more are outstanding than under way |
| `WatchPublisher.UnarmReturnExact` | cflow-fs/src/fs_watch_publisher.c:58-61 | a returning unarm leaves wakers still to be called exactly when it was called from inside a wake call and an outstanding call has not begun |
| `WatchPublisher.CalledAfterInsideUnarm` | cflow-fs/src/fs_watch_publisher.c:58-82 | a run in which the terminal waker is called after the unarm inside the waiter's call has returned |
| `WatchPublisher.CancelIsFinal` | cflow-fs/src/fs_watch_publisher.c:164-186 | when a cancel that had to wait returns, every waker ever handed in was called or dropped: none is armed, bound or on its way |
| `WatchPublisher.MissedExactlyByLastDelivery` | cflow-fs/src/fs_watch_publisher.c:63-82 | a terminal waker becomes missed exactly by the last delivery of a done watch with no notification left that would look again |
| `WatchPublisher.TerminalCanBeMissed` | cflow-fs/src/fs_watch_publisher.c:213-223 | a run that leaves a terminal waker bound, done and empty, with no notification to come |
| `FsService.EveryRun` | cflow-fs/src/fs.c:166-485 | in every interleaving of submitters, workers, cancellers and the driver the slots, counters and ids stay consistent, and each accepted request is in one slot or was called back once; what the callbacks carry is stated by `FsOutcomes.CallbackTellsOutcome` |
| `FsService.AtMostOneCallback` | cflow-fs/src/fs.c:445-485 | no request is called back twice, only accepted ones are, and one not called back yet still sits in a slot |
| `FsProgress.AcceptedCanComplete` | cflow-fs/src/fs.c:445-485 | in every interleaving an accepted request without a callback is brought to it by workers, the driver and the holder of the gate, in a number of steps bounded by the capacity: the gate, the worker, the rest of the driver's running loop and one loop more, slots in order at five steps each |
| `FsProgress.FromReady` | cflow-fs/src/fs.c:456-481 | from a finished request its callback is at most five driver steps per slot before it away, with the rest of a running loop that is past it or may stop before it |
| `FsProgress.AdmittedExactly` | cflow-fs/src/fs.c:215-263 | a submission that finds the gate free is admitted exactly when the service is not closing, an id is left and a slot is free, and takes the first free slot under a new id |
| `FsProgress.SubmissionCompletes` | cflow-fs/src/fs.c:191-289 | in every reachable state a submission that is admitted and taken by the executor can be brought to its callback |
| `FsProgress.CancelGrants` | cflow-fs/src/fs.c:411-443 | a cancellation that no worker overtakes is granted exactly when the request is still queued, and concerns no other request |
| `FsOutcomes.EveryRunTells` | cflow-fs/src/fs.c:166-189 | in every interleaving each slot in use agrees with the history kept from the steps: the operation submitted under its id, no outcome before the operation was performed, and then that outcome, or a cancellation with its cause |
| `FsOutcomes.CallbackTellsOutcome` | cflow-fs/src/fs.c:166-189 | in every interleaving a callback names the operation submitted under its id; if the operation was performed it carries exactly that outcome, and otherwise it reports a cancellation and a canceller had raised the request's flag or the executor had cancelled the task |
| `FsOutcomes.QuiescentStatistics` | cflow-fs/src/fs.c:470-475 | with nothing in use the cancelled counter is the number of callbacks that reported a cancellation, and the completed counter the number of the others |
| `FsService.QuiescentMeansAllCalled` | cflow-fs/src/fs.c:504-516 | with nothing in use every accepted request was called back exactly once, and accepted = completed + cancelled, counting acceptances about to be counted |
| `FsService.GrantedMeansCancelled` | cflow-fs/src/fs.c:411-443 | a request whose cancellation was granted is never executed and its callback reports cancellation, in spite of racing workers |
| `FsService.DriverKeepsDriven` | cflow-fs/src/fs.c:445-485 | at most one slot is in the driver's hands, and one only while its flag is up: the one its loop is at, within the number it may deliver |
| `EffectAnalysis.LocalEffects` | cflow/src/effect.c:44-55 | has an effect exactly when the node's operation or one of its callables has it: its schema, unknown for a missing schema or chain, every callable of a fused chain, unknown for an invalid one |
| `EffectAnalysis.LocalExact` | cflow/src/effect.c:20-32 | an effect is among a node's own exactly when it is not structural and its schema has it, or it has none and the effect is unknown, or some callable of its chain declares it or is invalid and the effect is unknown, and so on: said with an index into the chain, not by recursion |
| `EffectAnalysis.EdgeExact` | cflow/src/effect.c:33-34 | one subgraph refers to another exactly when some node of it names the other |
| `EffectAnalysis.VisitSubgraph` | cflow/src/effect.c:9-40 | the memoised search keeps its invariants over the marks and memo and terminates on every graph |
| `EffectAnalysis.SearchIsExact` | cflow/src/effect.c:9-40 | a finished search has exactly the explained effects: local ones of reachable subgraphs, and unknown for a reachable gap or cycle |
| `EffectAnalysis.SubgraphEffects` | cflow/src/effect.c:70-81 | exactly the union of local effects of reachable subgraphs, plus unknown precisely when a reference out of range or a cycle is reachable |
| `EffectAnalysis.NodeEffects` | cflow/src/effect.c:42-68 | the same for the nested subgraphs of one node, together with its own effects |
| `CbindScalar.SignedExact` | cbind/src/scalar.c:536-570 | a signed target of b bits stores n exactly when the token, of whichever numeric kind, denotes n and n fits b bits |
| `CbindScalar.UnsignedExact` | cbind/src/scalar.c:572-606 | the same for unsigned targets |
| `CbindScalar.BitLength` | cbind/src/scalar.c:447-455 | the shifting loop computes the bit length |
| `CbindScalar.ExactInBinary` | cbind/src/scalar.c:457-469 | the mask test, shifts of 64 and more included |
| `CbindScalar.ExactMeansRepresentable` | cbind/src/scalar.c:457-469 | the test accepts exactly the numbers m * 2^e with m below 2^precision |
| `CbindScalar.SignedFloatExact` | cbind/src/scalar.c:441-445 | the magnitude of a signed number is its absolute value, the most negative number included, and that one is always exact |
| `CbindShape.UnfoldWellFormed` | cbind/src/struct.c:64-109 | an unfolded tree has distinct field names and containers as fields only |
| `CbindShape.CycleNeverUnfolds` | cbind/src/struct.c:19-51 | a descriptor on a cycle of structs and variants unfolds to no tree, at any depth |
| `CbindShape.OverlapMeansSharedByte` | cbind/src/variant.c:70-81 | the overlap test on two members holds exactly when some byte belongs to both |
| `CbindShape.LayoutIsSound` | cbind/src/variant.c:57-140 | in what unfolds, bytes of a case lie in the variant and not in its tag, and bytes of a field lie in the struct |
| `CbindShape.ScratchSuffices` | cbind/src/struct.c:114-156 | the measured scratch is enough for the bitmaps on every path of nested structs and variants |
| `CbindShape.ScratchIsNeeded` | cbind/src/struct.c:114-156 | some path needs all of it, so it is the largest nested sum |
| `CbindPreflight.ValidateStructShape` | cbind/src/struct.c:29-112 | terminates on every descriptor graph and accepts exactly the structs that unfold within the depth limit |
| `CbindPreflight.MeasureStruct` | cbind/src/struct.c:114-156 | raises the maximum to the largest nested sum of bitmap frames, or fails exactly when it overflows |
| `CbindPreflight.ValidateStructGraph` | cbind/src/struct.c:158-173 | both passes together |
| `CbindPreflight.ValidateGraph` | cbind/src/scalar.c:120-185 | the dispatch on the kind of a descriptor that is not a struct |
| `CbindPreflight.ValidateVariantShape` | cbind/src/variant.c:83-154 | accepts exactly the variants that unfold, with all case tags valid and members in place |
| `CbindPreflight.MeasureVariant` | cbind/src/variant.c:156-187 | the same measure for variants, whose cases share the memory |
| `CbindPreflight.ValidateVariantGraph` | cbind/src/variant.c:189-200 | both passes together |
| `CbindPreflight.Preflight` | cbind/src/decode.c:118-133 | succeeds exactly when the descriptor unfolds to a finite tree within the depth limit whose bitmaps fit the scratch memory |
| `CbindPreflight.AdmittedIsAcyclic` | cbind/src/struct.c:29-112 | below an admitted descriptor no struct or variant is its own descendant and no chain exceeds the depth limit |
| `CbindFormat.AdmitExact` | cbind/src/scalar.c:536-712 | a token is stored as a value exactly when it says so: the flag itself, a number that fits a signed or unsigned target, an integer a binary format represents, a named enum item, or text and bytes within the limit and stable if borrowed |
| `CbindFormat.AdmitTagExact` | cbind/src/scalar.c:351-394 | a tag token stands for the value of the first item with its text or symbol, or for a plain integer that is a value of the tag's type |
| `CbindFormat.ItemsExact` | cbind/src/container.c:132-184 | a linear container is read exactly: bounded many admitted elements up to the end token |
| `CbindFormat.EntriesExact` | cbind/src/container.c:186-259 | the same for key and value pairs |
| `CbindFormat.ParseSound` | cbind/src/decode.c:83-99 | what is read off a stream encodes the value returned |
| `CbindFormat.ParseComplete` | cbind/src/decode.c:83-99 | every encoding of a value is read as that value, in whatever order the struct keys come |
| `CbindFormat.ParseExact` | cbind/src/struct.c:293-382 | reading succeeds exactly on the prefixes that encode a value of the shape, each field once, and yields that value and prefix |
| `CbindFormat.PrefixFree` | cbind/src/variant.c:234-305 | no encoding is a proper prefix of another and none encodes two values |
| `CbindFailures.RefusedExact` | cbind/src/scalar.c:351-712 | a token is refused exactly when it stores no value: as a mismatch when its kind cannot, as unsupported when unstable bytes are to be borrowed, over the limit when too long, and out of range otherwise |
| `CbindFailures.FailsExact` | cbind/src/struct.c:293-382 | reading stops with a status exactly when that is the status of the stream's first fault: an early end, a wrong token, a limit, an unknown, repeated or missing field, a refused scalar or tag, at any depth |
| `CbindFailures.ReadOrFault` | cbind/src/decode.c:83-99 | every stream begins with an encoding of a value or has one first fault, never both |
| `CbindDecoder.EmptyIsZero` | cbind/src/struct.c:175-199 | the emptiness test holds exactly of zeroed storage |
| `CbindDecoder.Reset` | cbind/src/struct.c:201-221 | restores zero from any state of the destination, half-decoded ones included |
| `CbindDecoder.Decoder.Prepare` | cbind/src/struct.c:223-259 | binds exactly the containers outside variants, or stops at a failing bind |
| `CbindDecoder.Decoder.Read` | cbind/src/decode.c:64-81 | the next token, the end, or a failure of the source |
| `CbindDecoder.MarkedFrame` | cbind/src/struct.c:284-291 | setting one field's bit changes no other field's |
| `CbindDecoder.Decoder.PushFrame` | cbind/src/struct.c:315-325 | a cleared frame on top of the stack, everything below it unchanged |
| `CbindDecoder.Decoder.MarkSeen` | cbind/src/struct.c:289-291 | adds one field to the seen set and leaves the frames below alone |
| `CbindDecoder.Decoder.AllSeen` | cbind/src/struct.c:337-350 | whether every field was seen |
| `CbindDecoder.Decoder.DecodeField` | cbind/src/struct.c:365-377 | refuses a field seen before, and otherwise decodes and marks it |
| `CbindDecoder.Decoder.DecodeStruct` | cbind/src/struct.c:293-382 | with the scratch memory measured, does what reading the stream says unless a call fails; in every case enclosing frames keep their bits and its own frame is popped |
| `CbindDecoder.Decoder.DecodeVariant` | cbind/src/variant.c:234-305 | the same for variants |
| `CbindDecoder.Decoder.DecodeItems` | cbind/src/container.c:132-184 | the collecting loop does what reading the stream says, unless a call fails |
| `CbindDecoder.Decoder.DecodeEntries` | cbind/src/container.c:186-259 | the same for maps |
| `CbindDecoder.Decoder.DecodeScalar` | cbind/src/scalar.c:671-712 | one token, admitted as `CbindFormat.AdmitExact` says, or an untouched destination |
| `CbindDecoder.Decoder.DecodeValue` | cbind/src/decode.c:83-99 | the run-time scratch check never fires, and unless a call fails the result is that of reading the stream |
| `CbindDecoder.Decode` | cbind/src/decode.c:101-169 | all or nothing, for every stream and every failure of the source or an adapter: nothing changes unless the descriptor is admissible and the destination empty; then it holds the value whose encoding the stream begins with (`CbindFormat.ParseExact`), or is empty again and the status is that of the first fault (`CbindFailures.FailsExact`) or of a failed call |
| `CbindDecoder.DecodedExactly` | cbind/src/decode.c:101-169 | success said without a decoder: some prefix of the stream encodes the value stored |
| `CoordModel.PassShrinks` | cflow/src/coord.c:303-321 | a pass that changes nothing met no runnable child, and any other leaves less to do, so the loops end |
| `CoordLaws.LatestEvent` | cflow/src/coord.c:405-411 | the value that completes or follows the barrier keeps the count of LATEST |
| `CoordLaws.RoundsKeeps` | cflow/src/coord.c:288-421 | an answer that does not end the run keeps the mode's invariant |
| `CoordRuns.SequenceKeeps` | cflow/src/coord.c:373-394 | what one resume of SEQUENCE does to its position, its events and its children |
| `CoordRuns.WaitIsSound` | cflow/src/coord.c:288-394 | in all modes but LATEST an answer to wait leaves an unfinished child waiting |
| `CoordOnce.EachAtMostOnce` | cflow/src/coord.c:288-421 | one resume resumes each child at most once, in all modes but ALL_DONE |
| `CoordOnce.LatestWaitsForNothing` | cflow/src/coord.c:396-421 | LATEST waits with no child waiting exactly when all have values and every unfinished child now ends without another |
| `CoordTheorems.RunKeeps` | cflow/src/coord.c:230-286 | along every run the generation counts the events, and the invariants hold until a terminal answer |
| `CoordTheorems.LatestConserves` | cflow/src/coord.c:396-421 | before every child has a value there are no events and no child gave two; afterwards events = values - (children - 1) |
| `CoordTheorems.EveryWaitIsSound` | cflow/src/coord.c:288-394 | the soundness of waiting for every run up to its first terminal answer |
| `CoordTheorems.SequenceEmitsProducers` | cflow/src/coord.c:373-394 | whatever the order of wakes, SEQUENCE emits in increasing order an initial part of the children whose first answer is a value, and all of them unless a child fails |
| `CoordTheorems.RoundsVerdict` | cflow/src/coord.c:288-322 | one resume of ALL joins only when every child's first answer is a value, and fails only when one is not |
| `CoordTheorems.AllVerdict` | cflow/src/coord.c:288-322 | the verdict of ALL does not depend on the order of wakes: a run that ends joined exactly when every first answer is a value, and then every child is done and holds that value |
| `CoordTheorems.ArmingAfterWait` | cflow/src/coord.c:134-179 | after a wait, and whatever wakes come first, arming calls the waker at once or stores it while an unfinished child is armed |
| `CoordVerdicts.AnyVerdict` | cflow/src/coord.c:352-371 | in every order, an event of ANY names the child whose first answer is the value it now holds, its last word; no other child produced a value and every other child is done. The run finishes exactly when every first answer is done, and fails only when one is an error |
| `CoordVerdicts.AllDoneVerdict` | cflow/src/coord.c:325-350 | the verdict of ALL_DONE does not depend on the order of wakes: a run that ends joined exactly when every child, resumed to its end, gives a value and no error; then every child has ended and holds the last value of its life |
| `CoordVerdicts.LatestVerdict` | cflow/src/coord.c:396-421 | in every run of LATEST that has not failed each child holds the last value it gave and has said a beginning of its life, all of it once it is done; the run fails only if a life ends in an error, and finishes only when all have ended or one has ended without a value |
| `CoordVerdicts.LatestNames` | cflow/src/coord.c:396-421 | an event of LATEST names the child that just gave a value, which it holds; all have a value, the event is the last exactly when all have ended, the next pass begins behind that child, and once all had a value no other gave one |
| `CoordVerdicts.WakeAfterArming` | cflow/src/coord.c:120-179 | after a wait that was armed and not answered at once, the wake of an armed child calls the stored waker once and leaves a child to run |
| `CoordVerdicts.ArmedExactly` | cflow/src/coord.c:134-179 | after a wait, and whatever wakes come first, arming calls the waker at once exactly when a resume would run a child; otherwise a resume would change nothing and wait again |
| `CoordTheorems.LatestNeverCalled` | cflow/src/coord.c:134-179 | when LATEST waits for nothing, arming stores a waker that no child will call |
| `CoordTheorems.LatestCanWaitForNothing` | cflow/src/coord.c:396-421 | one child that gives a value and ends: an event, then a wait for nothing |
| `Coordinator.Coordinator.constructor` | cflow/src/coord.c:469-506 | fresh children with their scripts, in the initial state |
| `Coordinator.Coordinator.ResumeAll` | cflow/src/coord.c:288-322 | the loop in place does what the model of ALL says |
| `Coordinator.Coordinator.ResumeAllDone` | cflow/src/coord.c:325-350 | the same for ALL_DONE |
| `Coordinator.Coordinator.ResumeAny` | cflow/src/coord.c:352-371 | the same for ANY, whose answers `CoordVerdicts.AnyVerdict` explains |
| `Coordinator.Coordinator.ResumeLatest` | cflow/src/coord.c:396-421 | the same for LATEST |
| `Coordinator.Coordinator.ResumeInSequence` | cflow/src/coord.c:373-394 | the same for SEQUENCE |
| `Coordinator.Coordinator.ResumeCoordinator` | cflow/src/coord.c:423-436 | a failed coordinator stays failed and the mode selects the loop |
| `Coordinator.Coordinator.WakeChild` | cflow/src/coord.c:120-132 | the child can run again and the stored waker is taken |
| `Coordinator.Coordinator.ArmCoordinator` | cflow/src/coord.c:134-179 | arms every waiting child, and stores the waker exactly when no child can run |
| `BranchingViews.BuildPrefixOffsets` | cflow/benchmarks/cflow_branching_views.c:322-330 | each offset is the number of edges with a smaller source |
| `BranchingViews.StableGroupTargets` | cflow/benchmarks/cflow_branching_views.c:332-340 | grouping through moving offsets fills each row with its targets in edge order, and the offsets come back |
| `BranchingViews.RestoreOffsets` | cflow/benchmarks/cflow_branching_views.c:312-320 | shifts the offsets by one place |
| `BranchingViews.BuildCsr` | cflow/benchmarks/cflow_branching_views.c:342-384 | rejects exactly the lists with an edge out of range, and each source's slice is its targets in edge order |
| `BranchingViews.BuildPointers` | cflow/benchmarks/cflow_branching_views.c:216-277 | each source's chain runs through its edges in order |
| `BranchingViews.BuildHash` | cflow/benchmarks/cflow_branching_views.c:457-535 | each source with edges has a span that is its targets in edge order, and the others have none |
| `BranchingObservations.ObserveFlatLookup` | cflow/benchmarks/cflow_branching_views.c:89-122 | the scan yields the reference observation exactly for valid lists |
| `BranchingObservations.ObserveFlatOnce` | cflow/benchmarks/cflow_branching_views.c:188-214 | the one-pass form yields the same |
| `BranchingObservations.ObservePointer` | cflow/benchmarks/cflow_branching_views.c:285-310 | following chains yields the same |
| `BranchingObservations.ObserveCsr` | cflow/benchmarks/cflow_branching_views.c:394-423 | compressed rows yield the same, and malformed ones stay within bounds |
| `BranchingObservations.ObserveHash` | cflow/benchmarks/cflow_branching_views.c:546-579 | spans yield the same, and malformed ones stay within bounds |
| `BranchingObservations.BuildDense` | cflow/src/dense_successor_index.c:13-52 | each node's first successor, and the least node with two edges if there is one |
| `LinuxWatchTable.RewriteMoves` | cflow-fs/src/fs_watch_linux.c:174-182 | a path moved with its directory lies under the new name, and moving the directory back restores it |
| `LinuxWatchTable.SweepExact` | cflow-fs/src/fs_watch_linux.c:146-156 | removal by prefix is exact in spite of the swaps: each entry is kept as often as it was there, or dropped as often, according to its path |
| `LinuxWatchTable.MoveAllExact` | cflow-fs/src/fs_watch_linux.c:172-181 | entry by entry: descriptors stay, what lies at the old name followed by a rest goes to the new name followed by that rest, and everything else stays |
| `LinuxWatchTable.StillUnder` | cflow-fs/src/fs_watch_linux.c:138-181 | exactly when a moved path still lies under the old name |
| `LinuxWatchTable.NothingLeftBehind` | cflow-fs/src/fs_watch_linux.c:158-183 | after a move to a name neither under nor above the old one no entry lies under the old name |
| `LinuxWatchTable.FitMeansShort` | cflow-fs/src/fs_watch_linux.c:164-171 | the test before a move passes exactly when every moved path is short enough |
| `LinuxWatchEvents.HandleOrdered` | cflow-fs/src/fs_watch_linux.c:278-403 | descriptors stay unique and the table within its capacity |
| `LinuxWatchEvents.RenamesPairEvents` | cflow-fs/src/fs_watch_linux.c:340-409 | no half of a rename waits for a later batch, and each rename published pairs two events of the batch with one non-zero cookie, under the paths these events name in the table as it is when each is handled |
| `LinuxWatchEvents.HalvesArePublished` | cflow-fs/src/fs_watch_linux.c:340-370 | conversely, two events that are the halves of a rename, with nothing between them that disturbs the first, are published as it exactly when the table can follow |
| `LinuxWatchEvents.PublishedStays` | cflow-fs/src/fs_watch_linux.c:278-409 | what was published before an event is still published at the end of the batch, in the same place |
| `LinuxWatchEvents.RenameMovesTable` | cflow-fs/src/fs_watch_linux.c:358-370 | after an accepted rename of a directory each entry at or under the old name is at the same place under the new one, descriptors and other entries are unchanged, and unless one name lies under the other nothing is left under the old one |
| `LinuxWatchEvents.UnusableIsLoss` | cflow-fs/src/fs_watch_linux.c:292-335 | an overflow, an event without a name or with a path that does not fit adds exactly a loss and gives up a pending rename |
| `LinuxWatchEvents.EventPublishes` | cflow-fs/src/fs_watch_linux.c:371-402 | an event about an entry adds exactly its kind with the entry's path; a new directory that cannot be watched whole is a loss |
| `LinuxWatchEvents.SelfEvents` | cflow-fs/src/fs_watch_linux.c:297-327 | the end or move of the root is published, and the end of another directory takes its entry out of the table |
| `LinuxWatchEvents.ForgetsOne` | cflow-fs/src/fs_watch_linux.c:117-136 | forgetting takes one entry out, leaves all others, and leaves its descriptor unknown |
| `LinuxWatchEvents.TreeIsWatched` | cflow-fs/src/fs_watch_linux.c:230-276 | a scan that succeeds leaves every directory it found watched and no entry lost |
| `LinuxWatchEvents.DropLeavesOthers` | cflow-fs/src/fs_watch_linux.c:146-156 | dropping a directory leaves nothing at or under its name and every other entry as often as before |
| `LinuxWatchEvents.LossForgetsRename` | cflow-fs/src/fs_watch_linux.c:62-69 | a loss drops what was watched under the old name of a pending directory rename, and nothing else |
| `LinuxWatchBackend.Backend.Find` | cflow-fs/src/fs_watch_linux.c:107-115 | the first entry with the descriptor, or the end |
| `LinuxWatchBackend.Backend.RemoveIndex` | cflow-fs/src/fs_watch_linux.c:117-136 | takes one entry out by putting the last in its place |
| `LinuxWatchBackend.Backend.RemovePrefix` | cflow-fs/src/fs_watch_linux.c:146-156 | the removal loop keeps and stops watching exactly what `Sweep` says |
| `LinuxWatchBackend.Backend.UpdatePrefix` | cflow-fs/src/fs_watch_linux.c:158-183 | moves every entry at or under the old name as `LinuxWatchTable.MoveAllExact` says, or changes nothing exactly when one would not fit |
| `LinuxWatchBackend.Backend.PublishLoss` | cflow-fs/src/fs_watch_linux.c:62-69 | gives up a pending rename, drops exactly what was watched under the old name of a directory, and reports a loss |
| `LinuxWatchBackend.Backend.Add` | cflow-fs/src/fs_watch_linux.c:185-209 | succeeds exactly when the path fits and the descriptor is known or there is room, adds a new entry at the end, and keeps descriptors unique |
| `LinuxWatchBackend.Backend.HandleMovedTo` | cflow-fs/src/fs_watch_linux.c:348-370 | publishes the rename and moves the entries when the first half is pending with the same non-zero cookie and the table can follow; otherwise a loss, with the table it leaves |
| `LinuxWatchBackend.Backend.HandleEvent` | cflow-fs/src/fs_watch_linux.c:278-403 | one event changes table, pending half and publications as `Handle` says |
| `LinuxWatchBackend.Backend.ProcessBatch` | cflow-fs/src/fs_watch_linux.c:278-409 | the loop over the events of one read is the fold of the handling of one event, with a loss at its end for a cut record or half a rename |
| `BlockScan.ShiftUntil` | parser/simd_scan.h:30-34 | shifting the mask finds its lowest wanted bit |
| `BlockScan.ScalarSkip` | parser/simd_scan.h:8-13 | the first position that is not blank |
| `BlockScan.BlockSkip` | parser/simd_scan.h:15-38 | the same position, found block by block |
| `BlockScan.ScalarFind` | parser/simd_scan.h:40-46 | the first position of any of the bytes |
| `BlockScan.BlockFind` | parser/simd_scan.h:48-79 | the same position, found block by block, for any list of bytes |

## Left out

- Lazily resolved callables, null pointers, error strings and the operator signature table: descriptors are complete values, and a missing part is an absent option.
- The identity of the Graphs a trace is bound to is equality of the Graph values with their versions.
- Graphs with more than one subgraph in normalization and optimization: the matcher accepts single-subgraph Graphs only, so nothing it accepts is lost.
- IEEE rounding: the conversion of double to float is a parameter, and a double is a real or a non-finite value.
- Wrap-around of statistics counters; they are naturals.
- The watch's rejected-event counters, its copies of paths into fixed slots and the threads, handles and system calls of the backends (inotify, Windows, macOS).
- The directory scan behind AddTree is part of the event that triggers it, since it is decided by the file system.
- Wakes that arrive while a resume is running, cancellation of a coordinator, and arming failures of a child's waitable.
- Coordinators whose children produce for ever in ALL_DONE mode, where one resume need not end.
- The service's path storage, directory reads and the executor, which is assumed to run or cancel each accepted task once.
- The process, actor, RPC, HTTP, S3 and TLS modules: adapters over parts that are not modelled here.
- NormalizeMeaning: covers Graphs of one subgraph without nested ones, which are the only ones the matcher accepts.
- RunReady: is one call of the driver with nothing in between; turns interleaved with other threads are the steps of `WatchHistory`, and the answer to a second driver is not modelled.
- The checks that concern one descriptor alone (kind, width, adapters present, layout and storage of one size) are one status of the descriptor. Fields of a struct may overlap, as the code does not forbid it; decoded structs are records.
- Allocation failure and allocator statistics; the hash table of the keyed view is a map.
- The error record of a decode (shape, field, depth). Adapters are trusted to restore zero when reset.
