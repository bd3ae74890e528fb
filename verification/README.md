# A verified model of the workflow control plane

This project models, in Dafny, the parts of the repository where correctness
depends on many steps agreeing with each other, and proves what those parts are
for. Six subjects are covered.

**The pipeline machine** (`Ir`, `Graph`, `Machine`, `MachineRun`,
`MachineFinite`, `MachineFacts`, `MachineVerdicts`, `MachineSafety`,
`MachineCausality`, `MachineProgress`, `MachineOutcomes`, `MachineExample`, `Compile`,
`CompileMachine`, `CompiledMeaning`, `GateAnswer`). A pipeline compiles to a parallel state machine with one region
per stage. `Machine` states the transitions of a region, each the first enabled
one judged on the context before the event; the assignments of one microstep, in
region order; and the root handler, which fires only if no region took the
event. `MachineRun` adds the eventless transitions that follow until none is
enabled, and runs over any sequence of events. Events come from an
environment. Results that need nothing from it (no lost write, one verdict per
stage, finite runs) hold for every sequence of events at all; the others
assume `Legal`: a stage's ports are written only after it has started, and only
a gate that is executing is answered, with targets from its own routing table. The compiler's worklist loops are methods, proved against reachability
in the stage graph, and the machine they build is shown to satisfy what the
theorems about machines assume.

**Hot update** (`Tables`, `Diff`, `SafeRange`, `DiffMeaning`, `Kahn`, `Divergence`). The
structural diff, the safe verdict, the tie-broken topological sort, the earliest
divergence and the wire readers.

**Resumable ingestion** (`Tail`, `Sessions`, `SessionsMeaning`, `Ingestion`). The chunked reader,
the session store as a class, and any number of loads of a growing log.

**Repair of generated pipelines** (`Repair`, `RepairTheory`, `RepairSources`,
`RepairFixpoint`, `RepairPorts`, `RepairMeaning`, `RepairExample`). Five passes with their failures, what a
repaired pipeline satisfies and exactly which pipelines are left alone.

**Two smaller analyses** (`CycleCheck`, `TypeParser`, `TypeRoundTrip`, `TypeMeaning`). The
depth-first cycle check of the shared validator and the parser of object-type
literals.

**Episode clusters** (`Similarity`, `Clusters`, `ClustersMeaning`, `ClusterTheory`,
`ClusterMeans`, `ClusterRipeness`, `ClusterExample`). Cosine similarity over exact reals,
nearest-cluster assignment, and the cluster tables as a class; when the stored
means are exact, and when clusters ripen.

`Sets` and `Text` hold what several of these share.

Loops and objects that change state are methods and classes, each proved to
compute a function or a relation on values; what the repository promises is then
proved about that function or relation. Names ending in `Of` are usually such
functions; modules and lemmas named for a meaning tell what they compute directly
of the inputs.

Where comment and code disagree the code is followed: the header of
`validate-and-repair-ir.ts` lists four repairs, while the code runs five passes; and a comment at
`apps/server/src/kernel-next/validator/structural.ts:278-280` has it that no guard
reads the skipped targets, whereas a waiting stage listed there ends at once
(`ir-to-machine.ts:1215-1219`), so that of two gates which route forward to one
stage the first answer decides (`MachineCausality.FirstAnswerDecides`).

Two properties one might expect do not hold, and are stated with an input and
with the exact condition under which they do. Clustering an episode a second time
moves a centroid without adding a member, and replaces the signature that other
clusters were averaged from: `ClusterExample` gives two runs in which a centroid
is no mean any more, `ClusterMeans.StepBalancedIff` and `ClusterMeans.MeansHoldIff`
say exactly when all of them stay exact. Repair is not idempotent:
`RepairExample` gives a pipeline it changes twice, `RepairFixpoint.LeftAloneIff`
says exactly which pipelines it leaves alone.

## Model

| member | source | states |
|---|---|---|
| `MachineRun.NobodyTakesAWrite` | apps/server/src/kernel-next/compiler/ir-to-machine.ts:1002-1023 | When no eventless transition is enabled, no region, waiting or executing, can consume a port write, so the root handler always sees it. |
| `MachineRun.NoWriteIsLost` | apps/server/src/kernel-next/compiler/ir-to-machine.ts:597-608 | For any sequence of events at all, until the machine completes, the port values are the initial ones overlaid with every write sent, in order; nothing else changes them. |
| `MachineFinite.RunsAreFinite` | apps/server/src/kernel-next/compiler/ir-to-machine.ts:771-837 | Whatever events arrive and however often stages fail, a run makes at most 2n + 2 * (sum of maxRetries) region transitions. |
| `MachineOutcomes.FailureIsRetried` | apps/server/src/kernel-next/compiler/ir-to-machine.ts:771-833 | A failure of an executing stage whose count is below its limit raises the count by exactly one and records no verdict; the stage goes on as a waiting one would, and executes again if its wires still allow it. |
| `MachineOutcomes.FailureIsFinal` | apps/server/src/kernel-next/compiler/ir-to-machine.ts:741-769 | Any other failure of a stage not yet final, at the limit, without specification or while waiting, ends it with exactly one verdict, whose reason is the executor's message. |
| `MachineOutcomes.RetriesAreFailures` | apps/server/src/kernel-next/compiler/ir-to-machine.ts:101-106 | Over any run a stage's retry count is the number of failures it has reported while executing, up to its limit. |
| `MachineOutcomes.CancellationIsFinal` | apps/server/src/kernel-next/compiler/ir-to-machine.ts:848-866 | A cancelled stage, waiting or executing, ends with exactly one verdict, whose reason is the cancellation. |
| `MachineOutcomes.TroubleElsewhere` | apps/server/src/kernel-next/compiler/ir-to-machine.ts:1050-1069 | The failure or cancellation of one stage changes no other. |
| `MachineOutcomes.WriteMovesOn` | apps/server/src/kernel-next/compiler/ir-to-machine.ts:1002-1023 | After a port write each region rests where its own wires and ports put it: done if all outputs are written; running if all sources are written and all guards hold; failed for a dropped wire if all are written and some guard does not hold; waiting otherwise. |
| `MachineOutcomes.AnswerEndsItsGate` | apps/server/src/kernel-next/compiler/ir-to-machine.ts:892-898 | An answer ends the executing gate it is given to with one verdict. |
| `MachineOutcomes.AnswerRecords` | apps/server/src/kernel-next/compiler/ir-to-machine.ts:409-440 | It authorizes every target picked, and if all are known it skips exactly the gate's other targets. |
| `MachineOutcomes.PassedOverEnds` | apps/server/src/kernel-next/compiler/ir-to-machine.ts:1090-1123 | A waiting target that a known answer passes over is done at once, without running. |
| `MachineOutcomes.PickedStarts` | apps/server/src/kernel-next/compiler/ir-to-machine.ts:1124-1146 | A waiting target that is picked runs at once if all its wires deliver. |
| `MachineOutcomes.PickedFails` | apps/server/src/kernel-next/compiler/ir-to-machine.ts:1147-1180 | It fails for a dropped wire if all its sources are written and some guard does not hold. |
| `MachineOutcomes.AnswerElsewhere` | apps/server/src/kernel-next/compiler/ir-to-machine.ts:1070-1181 | Every other stage, and a picked one whose wires are not all written, is left as it is. |
| `MachineOutcomes.NobodyIsLate` | apps/server/src/kernel-next/compiler/ir-to-machine.ts:1193-1240 | In a configuration of a run no waiting stage could run or fail for its wires, and no executing one has written all its outputs. |
| `MachineVerdicts.OneVerdictPerStage` | apps/server/src/kernel-next/compiler/ir-to-machine.ts:741-769 | In every reachable configuration a region is final iff the finalized list holds exactly one entry for it, of the matching outcome, and otherwise none; the machine is complete iff every stage has one; names that are no stage gain none. |
| `MachineVerdicts.RecompileResumes` | apps/server/src/kernel-next/compiler/ir-to-machine.ts:1194-1219 | Starting again from the context of any run puts each finalized stage in the same final state without a second entry, and wakes no waiting stage. |
| `MachineVerdicts.FinalIsForever` | apps/server/src/kernel-next/compiler/ir-to-machine.ts:1243-1268 | No event moves a final region or changes its entry. |
| `MachineSafety.StartsOnlyWhenDelivered` | apps/server/src/kernel-next/compiler/ir-to-machine.ts:691-696 | If a stage starts during a macrostep, then every inbound wire is settled with its guard true and, if it is gate-routed, it is authorized. |
| `MachineOutcomes.StartsOnlyIfItCanRun` | apps/server/src/kernel-next/compiler/ir-to-machine.ts:644-696 | The same read off the port values: every source is written and every guard, if there is one, true of the value. |
| `MachineSafety.AnswersDecide` | apps/server/src/kernel-next/compiler/ir-to-machine.ts:409-440 | Over any legal run the authorized set is exactly the union of picked targets, and the skipped set exactly the routing targets that answered gates passed over. |
| `MachineSafety.GateRoutedRunsOnlyIfPicked` | apps/server/src/kernel-next/compiler/ir-to-machine.ts:1090-1181 | A stage that has run had all its sources written, and a gate-routed one was picked by some answer of the run. |
| `MachineCausality.AnsweredOnce` | apps/server/src/kernel-next/compiler/ir-to-machine.ts:889-899 | In a legal run no gate is answered twice. |
| `MachineCausality.AnswerSplitsTargets` | apps/server/src/kernel-next/compiler/ir-to-machine.ts:409-440 | When gates share no targets, after an answer each routing target of that gate is, for the rest of the run, authorized and not skipped if picked, skipped and not authorized if not. |
| `MachineCausality.FirstAnswerDecides` | apps/server/src/kernel-next/compiler/ir-to-machine.ts:1090-1181 | Whatever targets gates share, a gate-routed stage that has run was picked by an answer before which no other had passed it over: of several gates that route to a stage, the first answer decides. |
| `MachineCausality.PassedOverNeverRuns` | apps/server/src/kernel-next/compiler/ir-to-machine.ts:1090-1123 | A gate-routed stage that an answer passed over, and to which no other gate routes, never executes, before or after. |
| `MachineCausality.AncestorsHaveLeftWaiting` | apps/server/src/kernel-next/compiler/ir-to-machine.ts:691-696 | Once a stage has started or any of its ports is filled, every transitive forward ancestor has left waiting. |
| `MachineCausality.AnswerSparesRollbackTargets` | apps/server/src/kernel-next/compiler/ir-to-machine.ts:200-232 | Whatever a gate's permitted answer, it moves no stage that lies upstream of the gate: a rollback target is never ended as an unpicked sibling. |
| `MachineProgress.WaitingTracesBack` | apps/server/src/kernel-next/compiler/ir-to-machine.ts:658-717 | When nothing executes that is not a gate, each waiting region yields a path of waiting stages, along wires and routing, from a stage that failed, was skipped before it had finished, or is a gate not yet answered. |
| `MachineProgress.NoDeadlock` | apps/server/src/kernel-next/compiler/ir-to-machine.ts:622-631 | Whatever the gates were answered, a run at rest has completed iff no gate awaits its answer and no waiting stage comes right after, by a wire or by routing, a stage that failed or was skipped before it had finished. Branches left out and rollback targets passed over after they finished do not stand in the way. |
| `MachineProgress.AllDone` | apps/server/src/kernel-next/compiler/ir-to-machine.ts:1193-1219 | If nothing failed, was skipped unfinished or is unanswered, every stage is done. |
| `MachineExample.AssumptionsHoldTogether` | apps/server/src/kernel-next/compiler/ir-to-machine.ts:1089-1181 | One run on which all assumptions of the results above hold at once: a gate approves, leaves one branch out and passes over a rollback target that has finished; the run completes. |
| `Compile.ComputeGateAncestors` | apps/server/src/kernel-next/compiler/ir-to-machine.ts:200-232 | The reverse search maps exactly the gates, each to exactly the stages with a path of declared wires to it. |
| `Compile.BfsDownstream` | apps/server/src/kernel-next/compiler/ir-to-machine.ts:506-520 | The forward search returns, without repeats and beginning with the start, exactly the reachable stages. |
| `CompileMachine.IndexStages` | apps/server/src/kernel-next/compiler/ir-to-machine.ts:234-304 | With unique names every stage is indexed by its own region: inbound wires, outbound keys, and gate-routed iff some gate names it as a target that is not upstream of that gate. |
| `CompileMachine.GateRoutingMap` | apps/server/src/kernel-next/compiler/ir-to-machine.ts:461-474 | The loop builds the map from each gate to its flattened routing targets. |
| `CompileMachine.CompileIR` | apps/server/src/kernel-next/compiler/ir-to-machine.ts:446-579 | The compiled machine is the net described by the pipeline, one uniquely named region per stage. |
| `CompiledMeaning.RoutingMeaning` | apps/server/src/kernel-next/compiler/ir-to-machine.ts:461-474 | The compiled routing table of a gate lists the targets of all its answers, answer by answer, place by place, as often as they are named; other stages have none. |
| `CompiledMeaning.GateRoutedMeaning` | apps/server/src/kernel-next/compiler/ir-to-machine.ts:255-272 | A stage waits for a gate iff some answer of some gate names it and no path of wires leads from it to that gate. |
| `CompiledMeaning.RegionsMeaning` | apps/server/src/kernel-next/compiler/ir-to-machine.ts:274-301 | Each region has its stage's name, kind, outputs and retry specification, and its inbound wires in order, each with the key of its source and its guard. |
| `CompiledMeaning.WiringMeaning` | apps/server/src/kernel-next/compiler/ir-to-machine.ts:200-218 | The edges of both searches are the wires from stage to stage other than from feedback ports. |
| `CompileMachine.SearchesAreConverse` | apps/server/src/kernel-next/compiler/ir-to-machine.ts:495-520 | For t other than the gate, t is in the gate's ancestor set iff the gate is reachable downstream of t. |
| `CompileMachine.RejectRollbackMap` | apps/server/src/kernel-next/compiler/ir-to-machine.ts:546-566 | A gate has a rollback entry iff one of its answers goes back; the entry names the first such answer, its targets, and exactly the stages downstream of them. |
| `CompiledMeaning.RollbackMeaning` | apps/server/src/kernel-next/compiler/ir-to-machine.ts:546-566 | The recorded answer is the first that names a stage and from all of whose targets the gate is reached; the targets are its own, in order, and the affected stages those they reach. |
| `CompileMachine.RollbackTargetsStayForward` | apps/server/src/kernel-next/compiler/ir-to-machine.ts:255-272 | No target of a recorded rollback answer, other than the gate itself, is made gate-routed by that gate. |
| `CompileMachine.AffectedIsLeastClosed` | apps/server/src/kernel-next/compiler/ir-to-machine.ts:546-566 | The affected stages are the least set closed under forward wires that contains the targets, and the gate is one of them. |
| `CompileMachine.BuildInitialPortValues` | apps/server/src/kernel-next/compiler/ir-to-machine.ts:349-380 | Which slots are seeded, and with what, for seeded, optional and undeclared inputs. |
| `CompiledMeaning.InitialMeaning` | apps/server/src/kernel-next/compiler/ir-to-machine.ts:363-379 | A declared input takes its seed, or null if it is optional and has none; gates' feedback ports hold the empty text; nothing else is filled. |
| `CompileMachine.CompiledIsWellWired` | apps/server/src/kernel-next/compiler/ir-to-machine.ts:234-304 | The machine of a validated pipeline has resolvable sources and an acyclic graph of forward wires and forward routing. |
| `CompileMachine.CompiledIsSeeded` | apps/server/src/kernel-next/compiler/ir-to-machine.ts:349-380 | If all declared external inputs receive a value, the initial context is fresh and every external source is filled. |
| `CompileMachine.CompiledRunsComplete` | apps/server/src/kernel-next/compiler/ir-to-machine.ts:622-631 | The progress result for compiled pipelines: all externals seeded and the run at rest, it has completed iff no gate is unanswered and no waiting stage comes right after a failed one or one skipped unfinished. |
| `GateAnswer.ApplyGateAnswered` | apps/server/src/kernel-next/compiler/ir-to-machine.ts:409-440 | The list-building loops give exactly the authorized and skipped sets of the machine and keep earlier entries in place; they add no repeat to the authorized list, nor to the skipped one if the gate's routing table has none. |
| `Diff.DiffPorts` | apps/server/src/kernel-next/hot-update/diff.ts:134-157 | The two loops over ports report exactly the additions, removals and type changes, or nothing. |
| `Diff.ComputePipelineDiff` | apps/server/src/kernel-next/hot-update/diff.ts:11-132 | The diff the loops accumulate is the specified one, categories in order of first appearance. |
| `DiffMeaning.PresenceMeaning` | apps/server/src/kernel-next/hot-update/diff.ts:25-36 | Added are exactly the proposed stages of names base lacks, removed the base stages of names proposed lacks. |
| `DiffMeaning.WiresMeaning` | apps/server/src/kernel-next/hot-update/diff.ts:159-173 | Added are exactly the proposed wires to which base has none with the same source, target and guard, removed the reverse. |
| `DiffMeaning.PortsMeaning` | apps/server/src/kernel-next/hot-update/diff.ts:134-157 | Added and removed ports are those only proposed, or only base, has; a type change tells the base type before and the proposed one after; there is no entry iff there is no difference. |
| `DiffMeaning.EntriesMeaning` | apps/server/src/kernel-next/hot-update/diff.ts:40-115 | A modified entry is of a stage of both pipelines and tells each differing field with the base value before and the proposed value after; it is prompt-only iff nothing but the prompt reference differs. |
| `DiffMeaning.RoutingChangesMeaning` | apps/server/src/kernel-next/hot-update/diff.ts:95-105 | Routing changes are exactly those of gates on both sides whose tables differ, base before and proposed after. |
| `SafeRange.ClassifySafeRange` | apps/server/src/kernel-next/hot-update/safe-range.ts:6-72 | The verdict and its reasons are the specified ones. |
| `DiffMeaning.ReasonsMeaning` | apps/server/src/kernel-next/hot-update/safe-range.ts:14-57 | The reasons are exactly those that hold: of the diff, with its counts, if it is structural, and of drift and tasks if it is not empty; the verdict is safe iff there is none. |
| `DiffMeaning.CategoryMeaning` | apps/server/src/kernel-next/hot-update/safe-range.ts:59-69 | The verdict's category is none, structural, or the diff's first. |
| `SafeRange.ModifiedMeaning` | apps/server/src/kernel-next/hot-update/diff.ts:28-90 | A stage is reported modified iff both pipelines have it and some compared part of it differs. |
| `SafeRange.StructuralMeaning` | apps/server/src/kernel-next/hot-update/diff.ts:175-184 | The diff is structural iff the pipelines differ in stage names, types, port maps, wire sets, gate questions or routing, or code. |
| `SafeRange.EmptyDiffMeans` | apps/server/src/kernel-next/hot-update/diff.ts:11-132 | The diff has no category iff the pipelines agree in shape and prompts. |
| `SafeRange.SafeMeansOnlyPromptsMoved` | apps/server/src/kernel-next/hot-update/safe-range.ts:6-72 | The verdict is safe iff the shape is the same and either the prompts are too, or there is no drift and all active tasks are resumable. |
| `SafeRange.DiffSwaps` | apps/server/src/kernel-next/hot-update/diff.ts:159-173 | Diffing the other way round swaps added and removed stages and wires and reports the same stages as modified. |
| `Kahn.TopoOrder` | apps/server/src/kernel-next/hot-update/divergence.ts:32-74 | The loop over in-degrees and the sorted ready queue always takes the tie-break-smallest stage whose predecessors are all placed, each stage once, until none is ready; parallel arcs count with multiplicity. |
| `Kahn.TopologicalMeaning` | apps/server/src/kernel-next/hot-update/divergence.ts:57-74 | A sequence each element of which is ready where it stands, as that order is, is one of known stages without repeats in which every arc's source stands before its target, and conversely. |
| `Kahn.PlacedIffNotBehindCycle` | apps/server/src/kernel-next/hot-update/divergence.ts:57-74 | It contains exactly the stages that no cycle reaches. |
| `Kahn.GreedyIsLeast` | apps/server/src/kernel-next/hot-update/divergence.ts:48-55 | Against any other topological order it is smaller, by tie-break rank, at the first difference. |
| `Divergence.FindEarliestDivergence` | apps/server/src/kernel-next/hot-update/divergence.ts:11-81 | The answer is empty iff no stage is added, removed or modified; otherwise it is the first changed stage of that order, with the fallback the code has when the order holds none. |
| `Divergence.ArcsMeaning` | apps/server/src/kernel-next/hot-update/divergence.ts:32-46 | The arcs sorted are the wires of both pipelines between known stages, from the stage read to the stage reading, as often as there are such wires. |
| `Divergence.TieBreakMeaning` | apps/server/src/kernel-next/hot-update/divergence.ts:48-54 | The tie-break order holds every known stage once, by first appearance in the proposed pipeline and then in the base one. |
| `Divergence.DivergenceIsFirst` | apps/server/src/kernel-next/hot-update/divergence.ts:76-80 | No changed stage stands before the divergence stage in the sorted order. |
| `Divergence.NoDivergenceMeans` | apps/server/src/kernel-next/hot-update/divergence.ts:15-30 | There is no divergence iff both pipelines have the same stages, equal in every compared part; wires alone do not count. |
| `Divergence.ChangedMeaning` | apps/server/src/kernel-next/hot-update/divergence.ts:15-23 | The changed stages are exactly those only one pipeline has and those reported modified. |
| `Divergence.EarliestHasNoChangedAncestor` | apps/server/src/kernel-next/hot-update/divergence.ts:57-80 | Over the wires of both pipelines: if some changed stage is not downstream of a cycle, neither is the divergence stage, and no strict ancestor of it has changed; otherwise it is the first changed stage reported. |
| `Divergence.ComputeWireTransitiveReaders` | apps/server/src/kernel-next/hot-update/wire-reachable.ts:9-36 | The search returns, without repeats, exactly the stages reachable from a known start, and nothing for an unknown one. |
| `Divergence.ReadersMeaning` | apps/server/src/kernel-next/hot-update/wire-reachable.ts:20-30 | One stage reads another iff some wire leads from the one to the other. |
| `Tail.TailFile` | apps/server/src/forge/ingestion/jsonl-tail.ts:26-90 | For any chunk size and any short reads, the loop returns the complete lines between the offset and the furthest byte read, and the offset just after the last newline there; an offset past the end reports truncation. |
| `Tail.EagerReachesEnd` | apps/server/src/forge/ingestion/jsonl-tail.ts:40-85 | Reads that always make progress reach the end of the file. |
| `Tail.LinesCover` | apps/server/src/forge/ingestion/jsonl-tail.ts:47-80 | The lines with their newlines are the consumed bytes, and what is carried over is the rest. |
| `Tail.LinesUnique` | apps/server/src/forge/ingestion/jsonl-tail.ts:47-80 | They are the only ones: newline-free lines and a newline-free rest make up a text iff they are its complete lines and what follows its last newline. |
| `Tail.LinesCompose` | apps/server/src/forge/ingestion/jsonl-tail.ts:47-80 | Lines of a text that ends at a line boundary, followed by those of what is appended, are the lines of the whole. |
| `Tail.ResumeComposes` | apps/server/src/forge/ingestion/jsonl-tail.ts:26-90 | Tailing a file and resuming at the returned offset after it has grown gives the lines and offset of one tail of the whole. |
| `Sessions.Store.UpsertSession` | apps/server/src/forge/db/sessions.ts:4-20 | A new row starts empty at offset 0; an existing one only has its last-event time moved forward. |
| `SessionsMeaning.UpsertMeaning` | apps/server/src/forge/db/sessions.ts:14-19 | Field by field: a new session's row, and what a known one keeps. |
| `Sessions.Store.AdvanceByteOffset` | apps/server/src/forge/db/sessions.ts:44-48 | The stored offset becomes the larger of the two; an unknown session is ignored. |
| `SessionsMeaning.AdvanceMeaning` | apps/server/src/forge/db/sessions.ts:44-48 | Only the offset can change, and only upwards, to the one given. |
| `Sessions.Store.InsertEvents` | apps/server/src/forge/db/sessions.ts:92-111 | Rows already present are ignored, the event count grows by the rows really inserted, and a row of an unknown session stops the insertion. |
| `SessionsMeaning.InsertMeaning` | apps/server/src/forge/db/sessions.ts:92-111 | For events of known sessions: every key that had no row gets that of the first event for it, rows there stay, and the count grows by the number of new rows; no other session's row changes. |
| `SessionsMeaning.InsertFails` | apps/server/src/forge/db/sessions.ts:92-111 | An event of an unknown session fails the insertion: what came before it is stored, no count changes. |
| `Sessions.Store.GetMaxSeq` | apps/server/src/forge/db/sessions.ts:120-125 | The largest stored number of the session, 0 if there is none. |
| `Sessions.Store.IngestLines` | apps/server/src/forge/ingestion/session-loader.ts:93-119 | Events are numbered on from the largest stored number across lines, stored, and only then is the offset advanced; the result tells the session's row as it is then, the number of events the lines yielded and the truncation flag. |
| `SessionsMeaning.NumberingMeaning` | apps/server/src/forge/ingestion/session-loader.ts:100-107 | Event by event: numbers without gaps in line order, the body the line yields, and the session the line names or else the one loaded. |
| `Sessions.Store.LoadSession` | apps/server/src/forge/ingestion/session-loader.ts:37-91 | One load is the specified transition of the store; its result tells the session, its row, the number of events read and that the file had become shorter iff it was read from the start for that reason. |
| `SessionsMeaning.LoadMeaning` | apps/server/src/forge/ingestion/session-loader.ts:63-91 | A load ingests the complete lines read from the stored offset, or from the start if the file is shorter than that, and advances the offset past the last of them unless the insertion fails. |
| `Ingestion.LoadKeepsStep` | apps/server/src/forge/ingestion/session-loader.ts:72-119 | A store in step with a prefix of an append-only file is, after a load, in step with the part of the file that the load's reads reached: same events numbered 1..n, count n, offset after the last complete line; other sessions are untouched. |
| `Ingestion.ManyLoadsEqualOne` | apps/server/src/forge/ingestion/session-loader.ts:37-119 | Any sequence of loads of a growing log whose lines carry the session's id, of which only the last needs to read to the end, leaves the events, count and offset of one load of the final file. |
| `Repair.DedupeWires` | apps/server/src/kernel-next/builtin-scripts/validate-and-repair-ir.ts:107-117 | The loop over a set of seen wires keeps the first of each wire. |
| `RepairMeaning.DedupeKeepsOrder` | apps/server/src/kernel-next/builtin-scripts/validate-and-repair-ir.ts:107-117 | Wires kept stay in the order of their first appearance. |
| `Repair.RepairFanoutShape` | apps/server/src/kernel-next/builtin-scripts/validate-and-repair-ir.ts:342-594 | The pass over wires, the grouping into a map and the bundling loop compute the specified rewiring, or fail exactly when it does. |
| `Repair.ValidateAndRepairIR` | apps/server/src/kernel-next/builtin-scripts/validate-and-repair-ir.ts:46-99 | The composition of the five passes, failures included, is the function the lemmas below speak of. |
| `RepairMeaning.GivesUpIff` | apps/server/src/kernel-next/builtin-scripts/validate-and-repair-ir.ts:46-99 | Repair fails exactly if some port name is ambiguous, if the shape pass cannot choose between outputs, or if wires of a fanout stage converge where no array of objects is taken. |
| `RepairPorts.AddedInputs` | apps/server/src/kernel-next/builtin-scripts/validate-and-repair-ir.ts:258-313 | The inputs a repaired stage has beyond its own are, once each, those that wires lead to and it lacked; each has the type of the declared output that the first such wire reads, and the type string exactly if that wire reads none. |
| `RepairPorts.AddedExternalInputs` | apps/server/src/kernel-next/builtin-scripts/validate-and-repair-ir.ts:656-691 | Added external inputs are, once each, those that wires read undeclared, with the type of the input the first such wire leads to, and string exactly if there is none. |
| `RepairPorts.AddedOutputs` | apps/server/src/kernel-next/builtin-scripts/validate-and-repair-ir.ts:490-593 | An added output bundles the outputs that two or more wires of a fanout stage to one input read, an object with their names and types as fields in the order first read, under that input's name, and is wired to it. |
| `RepairTheory.RepairedIsWired` | apps/server/src/kernel-next/builtin-scripts/validate-and-repair-ir.ts:258-313 | After repair every wire into an existing stage lands on a declared input and every external wire names a declared external input; stages are the same but for appended ports, and wires are not more. |
| `RepairTheory.WiredGainsNoInputs` | apps/server/src/kernel-next/builtin-scripts/validate-and-repair-ir.ts:258-313 | Repair of a pipeline that is wired in that sense adds no input port and no external input. |
| `RepairTheory.SecondRepairAddsNoInputs` | apps/server/src/kernel-next/builtin-scripts/validate-and-repair-ir.ts:46-99 | Repairing a repaired pipeline again adds no input port and no external input. |
| `RepairTheory.GoodIsLeftAlone` | apps/server/src/kernel-next/builtin-scripts/validate-and-repair-ir.ts:46-99 | With no duplicate wires, all endpoints declared and no fanout convergence, repair returns the same pipeline and reports nothing. |
| `RepairFixpoint.LeftAloneIff` | apps/server/src/kernel-next/builtin-scripts/validate-and-repair-ir.ts:46-99 | Repair returns a pipeline unchanged with an empty report iff it is settled: no duplicate wires; every wire lands; every source is declared or there is nothing to put in its place; wires that converge from a fanout stage go to an array of objects and cannot be bundled. |
| `RepairFixpoint.ReportsIffChanges` | apps/server/src/kernel-next/builtin-scripts/validate-and-repair-ir.ts:46-99 | A successful repair has an empty report iff it returns the pipeline it was given; no pass silently takes back what another did. |
| `RepairExample.SecondRepairMayRewire` | apps/server/src/kernel-next/builtin-scripts/validate-and-repair-ir.ts:409-433 | A pipeline whose first repair bundles two outputs and whose second rewires a dangling wire to the bundle: repair is not idempotent. |
| `RepairTheory.BundleAllSound` | apps/server/src/kernel-next/builtin-scripts/validate-and-repair-ir.ts:490-593 | Each bundled wire stands for a wire removed, of the same source stage and target, and no two for the same. |
| `RepairTheory.WiresDoNotGrow` | apps/server/src/kernel-next/builtin-scripts/validate-and-repair-ir.ts:587-591 | Hence wires removed and wires added leave a list that is no longer than before. |
| `RepairSources.TargetRenameMeaning` | apps/server/src/kernel-next/builtin-scripts/validate-and-repair-ir.ts:128-180 | An undeclared target port makes repair fail iff two inputs resemble it, and is renamed iff exactly one does, to that one. |
| `RepairMeaning.SourceRenameMeaning` | apps/server/src/kernel-next/builtin-scripts/validate-and-repair-ir.ts:180-228 | The same for the source port of a stage without fanout. |
| `RepairMeaning.SimilarMeaning` | apps/server/src/kernel-next/builtin-scripts/validate-and-repair-ir.ts:143-150 | Two names resemble each other iff one occurs in the other but for the case of letters. |
| `RepairMeaning.ObjectSourceMeaning` | apps/server/src/kernel-next/builtin-scripts/validate-and-repair-ir.ts:412-455 | An undeclared source of a fanout stage into an array of objects: the only output of object type is taken; two make repair fail; without one the wire is left. |
| `RepairMeaning.ScalarSourceMeaning` | apps/server/src/kernel-next/builtin-scripts/validate-and-repair-ir.ts:457-479 | Into an array of scalars: the first output whose name occurs in the input's is taken, else the first in whose name the input's occurs, else the wire is left. |
| `RepairMeaning.PlainSourceMeaning` | apps/server/src/kernel-next/builtin-scripts/validate-and-repair-ir.ts:374-405 | Of a stage without fanout: the only similar output is taken, else the wire is left. |
| `RepairMeaning.TypesMeaning` | apps/server/src/kernel-next/builtin-scripts/validate-and-repair-ir.ts:598-615 | The types recognized as object, array of objects and array of scalars, by their text without white space. |
| `RepairSources.RepairInventsNoSource` | apps/server/src/kernel-next/builtin-scripts/validate-and-repair-ir.ts:342-594 | Every wire of a repaired pipeline reads a source that was read before or a declared output. |
| `CycleCheck.CycleIssues` | packages/shared/src/pipeline-validator.ts:128-169 | Some cycle issue is reported iff the dependency graph is cyclic. |
| `CycleCheck.DependenciesMeaning` | packages/shared/src/pipeline-validator.ts:128-143 | The graph checked: one stage depends on another iff the last entry of its name that declares dependencies lists the other. |
| `CycleCheck.Finder.HasCycle` | packages/shared/src/pipeline-validator.ts:149-161 | A hit means a cycle; no hit from a clean state finishes the node and leaves the stack as it was, although a hit leaves it unclean. |
| `TypeParser.SplitTopLevelFields` | apps/web/src/lib/parse-ts-object-type.ts:74-96 | The character loop with its depth counter cuts at top-level separators, or rejects unbalanced text. |
| `TypeMeaning.SplitRejectsIff` | apps/web/src/lib/parse-ts-object-type.ts:74-91 | A field list is rejected iff some closing brace has no opening one before it or some brace stays open. |
| `TypeMeaning.SplitCut` | apps/web/src/lib/parse-ts-object-type.ts:84-89 | At a semicolon or comma outside braces the text is cut, the piece before it trimmed and dropped if empty. |
| `TypeMeaning.SplitUncut` | apps/web/src/lib/parse-ts-object-type.ts:91-96 | A balanced text with no such separator is one piece. |
| `TypeParser.ParseObjectType` | apps/web/src/lib/parse-ts-object-type.ts:40-68 | The mutually recursive parser terminates on every text and computes the specified result. |
| `TypeMeaning.ResultMeaning` | apps/web/src/lib/parse-ts-object-type.ts:40-68 | A plain type, an object, or unparsed if it is neither or a field in it is rejected. |
| `TypeMeaning.BracedMeaning` | apps/web/src/lib/parse-ts-object-type.ts:110-127 | A text in braces is the object of the fields between them, rejected iff they are unbalanced or one of them is no field. |
| `TypeMeaning.FieldMeaning` | apps/web/src/lib/parse-ts-object-type.ts:98-108 | A name, an optional question mark, white space, a colon, white space and a type text make a field of that name, mark and type. |
| `TypeMeaning.UnrecognizedIff` | apps/web/src/lib/parse-ts-object-type.ts:128-130 | A type is unrecognized iff it is none of the five plain ones and not in braces. |
| `TypeRoundTrip.SplitRendered` | apps/web/src/lib/parse-ts-object-type.ts:74-96 | Splitting a rendered field list gives back the rendered fields, whatever is nested in them. |
| `TypeRoundTrip.ShapeRoundTrip` | apps/web/src/lib/parse-ts-object-type.ts:110-131 | Parsing the rendering of a well-formed type, at any depth, returns it. |
| `TypeRoundTrip.ParseRoundTrip` | apps/web/src/lib/parse-ts-object-type.ts:40-131 | The same for the entry point, with any white space before and after. |
| `TypeRoundTrip.ParsedIsRenderable` | apps/web/src/lib/parse-ts-object-type.ts:40-131 | Conversely, whatever text a field list was read from, if nothing in it is unrecognized then it is well formed and its rendering is read as the same. |
| `TypeRoundTrip.WellFormedIffParsed` | apps/web/src/lib/parse-ts-object-type.ts:40-131 | The well-formed field lists are exactly those some text is read as and that have nothing unrecognized in them. |
| `Similarity.Cosine` | apps/server/src/forge/similarity/cluster.ts:5-15 | The accumulating loop computes the cosine, 0 for a zero vector, an error for unequal dimensions. |
| `Similarity.CosineMeaning` | apps/server/src/forge/similarity/cluster.ts:13-14 | Cosine times the root of the product of the squared norms is the dot product; it is 0 if a norm is. |
| `Similarity.DotMeaning` | apps/server/src/forge/similarity/cluster.ts:8-12 | The dot product depends on every component, in proportion to the other vector's. |
| `Similarity.CauchySchwarz` | apps/server/src/forge/similarity/cluster.ts:5-15 | The square of the dot product is at most the product of the squared norms. |
| `Similarity.CosineRange` | apps/server/src/forge/similarity/cluster.ts:13-14 | Cosine is symmetric and within -1 and 1. |
| `Similarity.SelfCosine` | apps/server/src/forge/similarity/cluster-episode.ts:80-82 | A nonzero embedding has cosine 1 with the centroid of the cluster it founds, as the row records. |
| `Similarity.AssignToCluster` | apps/server/src/forge/similarity/cluster.ts:26-39 | An existing cluster is chosen iff some candidate of the same dimension reaches the threshold; the choice is the first of maximal cosine. |
| `Similarity.UpdateCentroidIncremental` | apps/server/src/forge/similarity/cluster.ts:45-57 | Filling the array in place gives the mean of the lemma below in every component, an error for unequal dimensions. |
| `Similarity.MeanAdds` | apps/server/src/forge/similarity/cluster.ts:52-55 | That mean, weighted by the new count, is the old one weighted by the old count plus the new vector. |
| `Clusters.EvaluateThreshold` | apps/server/src/forge/similarity/threshold.ts:18-23 | Ripe iff at least 3 sessions, at least 2 days and not suppressed at this time. |
| `Clusters.CandidatesFromTable` | apps/server/src/forge/similarity/cluster-episode.ts:58-62 | Every candidate is an open cluster of the same model with its stored centroid, so looking the chosen one up again succeeds. |
| `ClustersMeaning.CandidatesMeaning` | apps/server/src/forge/similarity/cluster-episode.ts:58-62 | The candidates are, in order, all clusters of the model that are forming, ripe or synthesized among the 500 seen most recently. |
| `Clusters.ClusterStore.ClusterEpisode` | apps/server/src/forge/similarity/cluster-episode.ts:39-137 | One call signs the episode and joins the nearest eligible cluster or founds one, with the whole new state of the three tables; an unknown episode changes nothing. |
| `ClustersMeaning.FoundingMeaning` | apps/server/src/forge/similarity/cluster-episode.ts:66-84 | Founding: the signature, the new row field by field and the member row. |
| `ClustersMeaning.JoiningMeaning` | apps/server/src/forge/similarity/cluster-episode.ts:86-137 | Joining: the signature, the member row unless there is one, and the joined row field by field, its counts those of the sessions and days of its members; no other row changes. |
| `Clusters.ClusterStore.RecomputeStats` | apps/server/src/forge/similarity/cluster-episode.ts:145-162 | The loop counts the members and the distinct sessions and days of those whose episodes are known. |
| `ClusterTheory.ListingIsNewest` | apps/server/src/forge/db/clusters.ts:84-89 | The listing is sorted newest first and leaves out only clusters no newer than any it shows. |
| `ClusterTheory.StepKeepsKeys` | apps/server/src/forge/db/schema.ts:55-76 | Every call keeps identifiers and member pairs unique and every member row referring to a cluster and to a signed episode. |
| `ClusterMeans.StepBalancedIff` | apps/server/src/forge/similarity/cluster-episode.ts:39-137 | A call that finds every centroid exact leaves every centroid exact iff each cluster that holds the episode already fits: the one it joins, if the embedding on record is the mean computed; any other, if embedding and model on record are the new ones. |
| `ClusterMeans.StepKeepsBalance` | apps/server/src/forge/similarity/cluster-episode.ts:94-113 | So a call with an episode never signed before keeps every cluster's count equal to its members and its centroid times the count equal to the sum of their embeddings, all of one model and dimension. |
| `ClusterMeans.MeansHoldIff` | apps/server/src/forge/similarity/cluster-episode.ts:39-137 | Over any run, repeated episodes included, all centroids are exact at every point iff every call fitted when it was made. |
| `ClusterMeans.CentroidsAreMeans` | apps/server/src/forge/similarity/cluster-episode.ts:39-137 | They are exact after every call of every run in which each episode is clustered once. |
| `ClusterExample.RejoiningBreaksTheMean` | apps/server/src/forge/db/clusters.ts:141-146 | A run of two calls for one episode: the second joins the cluster that holds it, the insert is ignored, the centroid moves and is no mean any more. |
| `ClusterExample.RefoundingBreaksTheMean` | apps/server/src/forge/db/clusters.ts:15-28 | A run of two calls for one episode: the second founds another cluster, replaces the signature and so falsifies the centroid of the first. |
| `ClusterRipeness.StepRipens` | apps/server/src/forge/similarity/cluster-episode.ts:115-129 | A call changes at most one existing cluster and its status only from forming to ripe; recorded counts are the distinct sessions and days of the members, which suffice for a ripe cluster and do not for a forming one never suppressed. |
| `ClusterRipeness.RipenessInRuns` | apps/server/src/forge/similarity/cluster-episode.ts:115-129 | That correspondence with the members holds after every call of every run, repeated episodes included. |

## Left out

- The runner, executors, agent sessions, streaming, HTTP routes, the web interface and the command line: they appear only as the events the machine receives.
- INTERRUPT forwarding and `invoke`: they change no region's state.
- Raising RETRY_TO_STAGE is modelled together with the counter bump its handler makes; the handler's clearing of port values and its rebuild of the machine are not part of this model beyond `MachineVerdicts.RecompileResumes`.
- Cyclic pipelines: the throw of the stage-graph builder is left to validation, and the progress results assume acyclic forward wires and routing; the other results do not.
- Gates that route to themselves, and progress of stages that read from a stage skipped unfinished: the latter are named as stuck.
- Wires without a source tag, the old form of a stage source: sources are a datatype.
- Text keys such as `stage.port` are pairs, so names containing the separator cannot collide.
- The authorized and skipped lists of the machine are sets; `GateAnswer.ApplyGateAnswered` relates them to the lists.
- The guard evaluator is any function of expression and value.
- The content of log lines, repair messages and diagnostics; repairs are recorded as structured entries.
- In the diff, the several parts of a script stage's configuration count as one `code` part; retry and fanout settings are not compared, as in the code.
- Seeds named like members of the JavaScript object prototype.
- Lower-casing outside ASCII in repair's name matching.
- Uniqueness of output names when two converging groups share a target port name.
- Ingestion after a file has shrunk: the stored offset only grows, so later loads are not claimed to agree.
- A missing file and peeking into the log for the session's id: the latter's result is an input of `LoadSession`.
- SQL itself: tables are maps and sequences, statements are what they do to them, with foreign-key failure where it can occur. Clusters seen at the same time are listed in insertion order, which SQL leaves open.
- Rounding of 32-bit floats: embeddings are exact reals, and the square root is any function that returns square roots of positive numbers.
- The branch that starts over when a chosen cluster has vanished: within one synchronous call it cannot be taken.
- Times outside the range of dates, hashes, random identifiers and the clock: identifiers and times are inputs.
- The other checks of the shared validator, each settled by reading one branch.
