# A verified model of the PaInleSS solver engines

PaInleSS 2 runs several SAT solvers side by side, on one machine and across machines, and lets
them exchange what they learn. This project models the parts of it whose correctness is hardest
to see, in Dafny, and proves what they are for. Every loop of the modelled code is a loop here,
every object that the code updates in place is a class with the same fields, and each such method
is proved against a statement about the old and the new state. The facts behind those proofs are
lemmas over plain values.

## What is modelled

**The CDCL engine of Glucose** (`Cnf`, `VarHeap`, `TrailState`, `ClauseDb`, `Cuts`, `Invariants`,
`Propagation`, `Visits`, `Attach`, `Purgatory`, `PropagationQueue`, `Analysis`, `ImplicationPoints`,
`Minimise`, `Redundancy`, `SearchSteps`, `ProblemClauses`, `FinalConflict`, `Growth`, `Collection`, `Engine`). The class
`Engine.Solver` has the trail, the three families of watcher lists, the clause arena, the order
heap and the marks of the original, and its methods are the original's: propagation over binary,
two-watched and one-watched clauses, first-UIP analysis with its three kinds of minimisation, each
of which drops exactly what it should, backjumping, database reduction, the copying garbage collector, assumptions with the final
conflict, imports from other threads, adding variables and clauses. One invariant spans all of
them. The results are those of `Solve`: what its answers mean over every run, with every choice
of restarts, activities, deletions and received clauses left open; and that each call of the
search ends, because every iteration increases a bounded measure of the trail. A model is a set
of variables, so "entails" and "unsatisfiable" are meant semantically.

**Preprocessing** (`Subsumption`, `Resolution`, `Lifting`, `Occurrences`, `Elimination`,
`UnitClosure`, `SimpSteps`, `SimpRuns`, `SimpScan`, `SimpSolver`). The class `SimpSolver` eliminates
variables with a stack from which models are reconstructed, strengthens by backward subsumption, and
branches asymmetrically. Over any sequence of these steps the rest is equisatisfiable with the
original clauses and the stored pass extends its models, unless the implication check is switched
on; backward subsumption ends with nothing left to subsume or to strengthen.

**Exchange structures.** `RingLayout` and `ClausesBuffer` are the ring buffer of records with one
cursor per thread, `LockFreeQueue` the queue without locks as a machine whose steps are single
shared accesses, `ClausePool` and `UnitPool` the pool and the units of Plingeling. Each refines a
queue for every consumer.

**The distributed layer.** `ClauseManager` counts references, `ClauseFilter` recognises clauses,
`ClauseDatabase` selects them, `WireFormat` and `MpiComm` write and read messages, and
`DistributionSharing` puts them together: every step of a process keeps each count equal to the
number of holders and keeps solvers free from echoes.

**Search-space management.** `Cubes`, `Treengeling` and `Workers` keep the tree of cubes a
partition of the search space, `TraceEvents` and `DeltaDebugging` are the delta debugger.

`EngineExamples` and `SimpExamples` hold runs on inputs for which the code does less than one
expects; `Wrappers` is shared.

## What the proofs found

- `use_rcheck` can make variable elimination unsound: resolvents are added while their parents are
  still there, so the implication check drops every one of them, and then the parents are deleted.
  Models of the rest lift back if and only if the clauses without the variable imply that each of
  its pairs clashes or has a true resolvent (`SimpRuns.LiftsExactly`), which a caller sees at once
  when no pair has a consistent resolvent (`SimpRuns.ClashesLoseNothing`). The clauses (v or a),
  (not v or b), (not a or c), (not b or c), (not c or d), (not d or e), (not e or not c) are
  contradictory and subsumption finds nothing in them, but the elimination of v leaves a satisfiable
  rest (`SimpExamples.EliminatesTooMuch`). The option is off by default, and then nothing is lost.
- The comment on `propagate` promises an empty queue even after a conflict. For a conflict in a
  clause that is not imported that is so if and only if the clause has more than two literals
  (contract of `Engine.Solver.Propagate`); `EngineExamples.QueueNotEmpty` runs into the other case.
- Imported clauses are attached whatever their literals are worth. One that is attached with
  everything propagated is settled if and only if one of its first two literals is true or both are
  unassigned (`Attach.ImportSettled`); `EngineExamples.ImportMissed` shows a unit clause that is
  overlooked. Completeness of propagation is claimed for all other clauses.
- `removeClause` forgets the reason of the first literal only. A removed clause stays a reason if
  and only if it is binary and had propagated its second literal (`SearchSteps.ReasonLeft`,
  `EngineExamples.RemovedReason`). Locked clauses are only removed at level 0, where reasons are not
  read.
- `asymm` takes out the last literal that is of the variable or false at level 0. That is the
  variable's own literal if and only if none behind it is false (`SimpRuns.DropsOwnLiteral`,
  `SimpExamples.BranchingKeepsVariable`).
- `ClauseBuffer::getClauses` tests its count after taking a clause and loses one when more have
  arrived (`LockFreeQueue.DisturbedDrain`); the exact condition is in `Drain.GetClauses`.
- For `shr-lit` below 1000 a selection of unit clauses alone needs one word more than the buffer
  has (`MpiComms.BufferTooShort`); it fits if and only if there are fewer unit clauses than
  `shr-lit`, and always from 1000 on.
- The clause filter does not look at the first literal, so clauses that differ only there are
  taken for the same (`ClauseFilters.SameToTheFilter`). Its four hashes are four different ones only
  because a literal is multiplied with a prime that depends on its variable modulo 12, 6, 4 and 3;
  for clauses whose later variables are all multiples of 12 they are one (`ClauseFilters.OneHash`).
- The collector of Plingeling's pool takes all live entries or none, as counts do not increase along
  the pool (`ClausePool.Pool.AllOrNone`).
- `deleaf` in Treengeling counts down the wrong counter. The counter for ids is therefore the length
  of the list, and a new leaf gets an id of its own if and only if no leaf in the list has the id
  one above their number (`CubeTree.NewIdDistinct`, `CubeTree.IdsCollide`).
- `lglddtrace` renames variables in what it prints but runs the library with the old names, so the
  run after a renaming repeats the one before and the printed trace itself is never run
  (`DeltaDebugging.Reducer.Renumber`).

## Model

| member | source | states |
|---|---|---|
| Cnf.PackingRoundTrip | painless-v2/glucose/core/SolverTypes.h:78-108 | Packing a literal into an integer and unpacking are inverse; negation flips the lowest bit |
| VarHeap.Heap.PercolateUp | painless-v2/glucose/mtl/Heap.h:45-58 | From a heap that is in order except that one entry may be too low, it restores heap order, with `indices` the exact inverse and the same members; an entry that is in its place is not moved |
| VarHeap.Heap.Update | painless-v2/glucose/mtl/Heap.h:91-98 | After the activity of one variable has changed in any way, the heap is in order again and the variable is in it |
| VarHeap.Heap.PercolateDown | painless-v2/glucose/mtl/Heap.h:61-74 | From order below an entry it establishes order from there on, with the same members and `indices` inverse |
| VarHeap.Heap.Insert | painless-v2/glucose/mtl/Heap.h:101-109 | The heap gains exactly the new variable and stays in order |
| VarHeap.Heap.RemoveMin | painless-v2/glucose/mtl/Heap.h:112-121 | Removes exactly one member, and no member is more active than it |
| VarHeap.Heap.Build | painless-v2/glucose/mtl/Heap.h:125-137 | The members are afterwards exactly the given variables, in heap order |
| VarHeap.Heap.Bump | painless-v2/glucose/core/Solver.h:443-452 | Raising an activity and calling decrease keeps the heap in order with the same members |
| VarHeap.Heap.Rescale | painless-v2/glucose/core/Solver.h:443-449 | Scaling all activities by one positive factor keeps the heap in order |
| VarHeap.RootIsBest | painless-v2/glucose/mtl/Heap.h:36-38 | In an ordered heap no entry has a higher activity than the root |
| Engine.Solver.Propagate | painless-v2/glucose/core/Solver.cc:988-1116 | Without a conflict the queue is empty and every clause that is not imported has a true literal or two unassigned ones, and no one-watched clause whose watch was not already false when it was attached is entirely false; with a conflict the clause returned is false and touches the current level. After a conflict in a clause that is not imported the queue is empty if and only if the clause has more than two literals. All watch, blocker, reason and soundness invariants are kept |
| Visits.MetAtFirst | painless-v2/glucose/core/Solver.cc:1010-1016 | A conflicting binary clause is met behind the trail literal whose list names it, and, unless it is imported, the other literal was falsified later |
| EngineExamples.QueueNotEmpty | painless-v2/glucose/core/Solver.cc:1013-1015 | A run of propagate on three clauses that ends with a conflict and literals left in the queue |
| Engine.Solver.PropagateUnaryWatches | painless-v2/glucose/core/Solver.cc:1128-1201 | A conflict is returned if and only if some clause of the list is entirely false, and the clause returned is two-watched afterwards exactly if promotion is switched on; without a conflict every clause of the list has a literal that is not false, and is watched at one that is not false or is blocked by a true one. One-watched clauses never force a literal |
| Engine.Solver.FindOther | painless-v2/glucose/core/Solver.cc:1154-1163 | The first position from 1 on whose literal is not false, or the length if there is none |
| PropagationQueue.OneWatchedSeen | painless-v2/glucose/core/Solver.cc:1128-1201 | With an empty queue no one-watched clause whose watch was seen is entirely false |
| Engine.Solver.PropagateBinary | painless-v2/glucose/core/Solver.cc:1006-1020 | Binary watchers of a literal first: each blocker becomes true with its clause as reason, or its clause is the conflict |
| Engine.Solver.PropagateLong | painless-v2/glucose/core/Solver.cc:1022-1097 | The in-place compaction over the long watchers of one literal settles all of them or stops at a falsified clause, and loses no watcher |
| Engine.Solver.VisitLong | painless-v2/glucose/core/Solver.cc:1024-1095 | One watcher: kept, its clause turned, moved to a literal that is not false, or its clause unit or false |
| Engine.Solver.FindNewWatch | painless-v2/glucose/core/Solver.cc:1072-1078 | The first position from 2 on whose literal is not false, or the length if there is none |
| PropagationQueue.PropagationComplete | painless-v2/glucose/core/Solver.cc:988-1116 | From the watch invariant with an empty queue: no clause other than an imported one is falsified or unit with an unassigned literal |
| Propagation.MoveWatcher | painless-v2/glucose/core/Solver.cc:1072-1078 | Moving the second watch from the false literal to another keeps every clause watched where it must be |
| Invariants.CancelOk | painless-v2/glucose/core/Solver.cc:615-631 | The watch invariant, with true blockers at no higher level than the false watch, the reasons and level 0 soundness survive backtracking to any level |
| Invariants.PushForced | painless-v2/glucose/core/Solver.cc:970-975 | Enqueueing the literal of a unit clause keeps the trail invariants |
| Attach.AttachPropagated | painless-v2/glucose/core/Solver.cc:403-424 | Attaching a clause keeps the propagated part of the queue settled when its own watchers are settled where they go |
| Attach.AllocOk | painless-v2/glucose/core/SolverTypes.h:286-307 | A clause stored at a fresh reference disturbs nothing |
| Attach.ImportSettled | painless-v2/glucose/parallel/ParallelSolver.cc:324-341 | An imported clause that is attached at level 0 with everything propagated is settled like the other clauses if and only if one of its first two literals is true or both are unassigned |
| EngineExamples.ImportMissed | painless-v2/glucose/parallel/ParallelSolver.cc:324-341 | A run in which an imported clause is unit with an empty queue and the next propagation does not notice |
| PropagationQueue.CleanList | painless-v2/glucose/core/SolverTypes.h:397-406 | Cleaning a list keeps exactly the watchers of live clauses, in order |
| Engine.Solver.Analyze | painless-v2/glucose/core/Solver.cc:716-890 | The learnt clause follows from the problem, is false on the trail, has exactly its first literal on the current level, and its second literal is of the highest remaining level, which is the level returned. It is the first UIP clause, minimised as the mode says, without what binary clauses drop if it is short and of few levels, and with at most its second literal moved; `seen` is clear again and the heap has the same members |
| Engine.Solver.FirstUip | painless-v2/glucose/core/Solver.cc:716-793 | Resolving backwards along the trail: the variables of the result are those of the conflict clause with variables replaced by their antecedents, the last one on the trail first, until one of the current level is left. The clause is asserting, its variables are a cut, and exactly its lower literals are marked |
| ImplicationPoints.UipStep | painless-v2/glucose/core/Solver.cc:783-791 | The variable found by the scan is replaced by the antecedents of its stored reason |
| ImplicationPoints.ExactlyAdded | painless-v2/glucose/core/Solver.cc:759-780 | Reading a clause marks exactly its variables above level 0, without the one it propagated |
| Engine.Solver.LitRedundant | painless-v2/glucose/core/Solver.cc:892-926 | True exactly if no chain of reasons from the literal through unmarked variables ends at a decision or at a level whose bit is missing; then it is justified by the marked ones, well founded along the trail. On failure every mark made on the way is taken back |
| Redundancy.NotNeeded | painless-v2/glucose/core/Solver.cc:892-926 | A literal all of whose antecedents are marked, by marks that all have this property, is not reached by any such chain |
| Engine.Solver.LevelsOf | painless-v2/glucose/core/Solver.cc:804-806 | The mask has exactly the bits of the levels of the literals after the first |
| Engine.Solver.MinimiseDeep | painless-v2/glucose/core/Solver.cc:803-811 | Recursive minimisation keeps, in order, exactly the first literal, decisions, and literals from which such a chain starts; what is left is an asserting sub-clause that is still a cut |
| Engine.Solver.MinimiseBasic | painless-v2/glucose/core/Solver.cc:812-827 | Local minimisation keeps, in order, exactly the first literal, decisions, and literals with an unmarked antecedent above level 0; what is left is an asserting sub-clause that is still a cut |
| Redundancy.BasicNeeds | painless-v2/glucose/core/Solver.cc:812-827 | If no level counts, a chain exists exactly if the literal itself has an unmarked antecedent |
| Engine.Solver.MinimisationWithBinaryResolution | painless-v2/glucose/core/Solver.cc:571-610 | A clause of few levels keeps its first literal and exactly those others that no stored binary clause joins, negated, with the first one; a clause of more levels is left alone. What is left is asserting and still a cut |
| Redundancy.WatchersSay | painless-v2/glucose/core/Solver.cc:584-592 | The binary watchers of the negated asserting literal name a true literal exactly if a live stored clause consists of the two |
| Engine.Solver.ComputeLbd | painless-v2/glucose/core/Solver.cc:502-533 | The number of different levels in the clause, or what its size makes of it |
| Engine.Solver.PartitionOut | painless-v2/glucose/core/Solver.cc:593-608 | The in-place partition cuts off exactly the literals whose stamps were taken away |
| Engine.Solver.BacktrackLevel | painless-v2/glucose/core/Solver.cc:845-860 | A literal of the highest remaining level is put second and its level returned |
| Cuts.ResolveCut | painless-v2/glucose/core/Solver.cc:725-792 | Replacing a variable of a cut by the antecedents of its reason gives a cut |
| Cuts.ClosedForces | painless-v2/glucose/core/Solver.cc:892-926 | A model that agrees with the trail on the kept variables agrees on every justified one, by induction along the trail |
| Cuts.ClosedCut | painless-v2/glucose/core/Solver.cc:802-832 | Dropping justified variables from a cut leaves a cut |
| Cuts.BinaryCut | painless-v2/glucose/core/Solver.cc:571-610 | A binary clause of the asserting literal and a true literal removes the negation of that literal from the cut |
| Cuts.CutEntails | painless-v2/glucose/core/Solver.cc:716-890 | A falsified clause over the variables of a cut follows from the problem |
| Engine.Solver.AnalyzeFinal | painless-v2/glucose/core/Solver.cc:938-968 | The final conflict is a clause that follows from the problem and consists of the failed literal and negated assumptions; the assumptions in it are exactly the decisions from which the literal was propagated, however indirectly; `seen` is clear again |
| FinalConflict.BlamedExactly | painless-v2/glucose/core/Solver.cc:938-968 | When the scan reaches level 0, the blamed decisions are exactly those that lead to the literal |
| FinalConflict.BlameEntails | painless-v2/glucose/core/Solver.cc:938-968 | When the level 0 part of the trail is reached, the blamed decisions together force the literal |
| FinalConflict.BlamedAssumptions | painless-v2/glucose/core/Solver.cc:938-968 | Every blamed literal is the negation of an assumption |
| Engine.Solver.CancelUntil | painless-v2/glucose/core/Solver.cc:615-631 | The trail is cut back to the level, the queue head with it, phases are saved as the phase-saving mode says, and all unassigned decision variables are in the heap again |
| Engine.Solver.PickBranchLit | painless-v2/glucose/core/Solver.cc:637-657 | Returns an unassigned decision variable with the preferred sign, the most active one unless it was picked at random; none only if every decision variable is assigned |
| Engine.Solver.RebuildOrderHeap | painless-v2/glucose/core/Solver.cc:1266-1272 | Afterwards the heap holds exactly the unassigned decision variables |
| Engine.Solver.SetDecisionVar | painless-v2/glucose/core/Solver.h:496-503 | Keeps the whole engine invariant, in particular that unassigned decision variables are in the heap |
| Engine.Solver.NewVar | painless-v2/glucose/core/Solver.cc:324-347 | A new variable widens all tables and keeps the whole engine invariant |
| Growth.WiderInv | painless-v2/glucose/core/Solver.cc:324-347 | The invariant of trail, watch lists and reasons survives the widening |
| Engine.Solver.AddClause | painless-v2/glucose/core/Solver.cc:349-401 | The clause is added to the problem; false is returned exactly when the solver has become, or was, refuted, and then the problem is unsatisfiable |
| Growth.NormalisedAdds | painless-v2/glucose/core/Solver.cc:370-375 | The sorted clause without false and repeated literals says as much as the clause given |
| Growth.SatisfiedAdds | painless-v2/glucose/core/Solver.cc:370-372 | A clause with a literal true at level 0 may be left out |
| Engine.Solver.RemoveClause | painless-v2/glucose/core/Solver.cc:466-485 | Exactly this clause is marked deleted and lazily detached; the invariant is kept; the clause is a reason afterwards if and only if it is binary and had propagated its second literal |
| SearchSteps.ReasonLeft | painless-v2/glucose/core/Solver.cc:481-482 | At any level, a removed clause stays a reason if and only if it is binary and had propagated its second literal |
| EngineExamples.RemovedReason | painless-v2/glucose/core/Solver.cc:481-482 | A run of removeClause after which the deleted clause is still a reason |
| Engine.Solver.RemoveSatisfied | painless-v2/glucose/core/Solver.cc:1248-1264 | The in-place compaction keeps exactly the clauses without a true literal, in order, and the rest still says what the problem says |
| ProblemClauses.CompleteDrop | painless-v2/glucose/core/Solver.cc:1248-1264 | A problem clause satisfied at level 0 may be forgotten |
| Engine.Solver.Simplify | painless-v2/glucose/core/Solver.cc:1283-1310 | False means that the problem is unsatisfiable; otherwise the invariant holds with an empty queue, and unless the step is skipped no learnt or imported clause has a true literal, nor any problem clause if those are swept |
| Engine.Solver.SimplifyLists | painless-v2/glucose/core/Solver.cc:1297-1306 | The three lists name, in order, exactly the clauses without a true literal, also after a garbage collection; the heap holds exactly the unassigned decision variables |
| Engine.Solver.ReduceDB | painless-v2/glucose/core/Solver.cc:1213-1246 | Whatever clauses are chosen, as long as binary and locked ones stay, the invariant, the assignment and the problem are kept |
| SearchSteps.DeleteStep | painless-v2/glucose/core/Solver.cc:466-485 | Deleting a clause keeps the invariant if the trail is at level 0 or the clause is not locked |
| Collection.Collector.Reloc | painless-v2/glucose/core/SolverTypes.h:312-337 | The first visit copies a clause with its literals and flags to a fresh reference and leaves a forwarding reference; every later visit returns the same one |
| Collection.Collector.RelocWatchers | painless-v2/glucose/core/Solver.cc:1689-1705 | Every watcher of a list is forwarded to the copy of its clause, blockers unchanged |
| Collection.CollectedInv | painless-v2/glucose/core/Solver.cc:1685-1728 | The engine invariant holds of the collected state |
| Collection.LiveSurvives | painless-v2/glucose/core/Solver.cc:1685-1742 | No live clause is lost: it is forwarded to a clause with the same contents |
| Collection.CollectedList | painless-v2/glucose/core/Solver.cc:1716-1727 | A clause list names the same clauses after the collection |
| Engine.Solver.GarbageCollect | painless-v2/glucose/core/Solver.cc:1732-1742 | All watches, clause lists and reasons are forwarded by one injective map that keeps contents; every live clause is in its domain; assignment and problem are unchanged and the invariant is kept |
| SearchSteps.LearntUnit | painless-v2/glucose/core/Solver.cc:1383-1414 | After backjumping the learnt clause is unit on its first literal |
| SearchSteps.LearnStep | painless-v2/glucose/core/Solver.cc:1403-1414 | Backjumping, storing and attaching a learnt clause of two literals or more and enqueueing its first literal keeps the invariant |
| SearchSteps.LearnUnit | painless-v2/glucose/core/Solver.cc:1398-1401 | A learnt unit is enqueued at level 0 with the invariant kept |
| SearchSteps.RootConflict | painless-v2/glucose/core/Solver.cc:1363-1366 | A conflict at level 0 refutes the problem |
| SearchSteps.BackjumpIncreases | painless-v2/glucose/core/Solver.cc:1326-1484 | Replacing all literals above a level by one literal of that level increases the measure, however many were undone |
| SearchSteps.MeasureBound | painless-v2/glucose/core/Solver.cc:1326-1484 | The measure is bounded by the number of variables and levels |
| SearchSteps.LearnMeasure | painless-v2/glucose/core/Solver.cc:1383-1416 | A conflict increases the measure of the trail |
| SearchSteps.DecideMeasure | painless-v2/glucose/core/Solver.cc:1479-1481 | A decision increases the measure of the trail |
| Engine.Solver.HandleConflict | painless-v2/glucose/core/Solver.cc:1344-1418 | One conflict above level 0: the invariant is kept, the problem unchanged and the measure has gone up |
| Engine.Solver.ParallelImportUnaryClauses | painless-v2/glucose/parallel/ParallelSolver.cc:293-303 | The trail grows by exactly those received units that are unassigned when their turn comes, in order; given that they follow from the problem the invariant is kept |
| Engine.Solver.ImportClause | painless-v2/glucose/parallel/ParallelSolver.cc:324-341 | The clause gets a fresh reference, which is added to the list of imported clauses; it is stored with its literals as learnt and imported, one-watched if and only if it has more than two literals and the solver is not run under Plingeling |
| Engine.Solver.ParallelImportClauses | painless-v2/glucose/parallel/ParallelSolver.cc:311-349 | Every clause before the first empty one is stored in this way, in order; the answer is "refuted" if and only if one is empty |
| Engine.Solver.Import | painless-v2/glucose/core/Solver.cc:1334-1343 | One batch leaves the front of what is to come; its units are on the trail and its clauses are stored, up to an empty one |
| Engine.Solver.OpenAssumptions | painless-v2/glucose/core/Solver.cc:1451-1465 | True assumptions get an empty level, an open one is next, a false one ends the search with an entailed clause of negated assumptions, which names exactly those that led to the failure |
| Engine.Solver.NoConflict | painless-v2/glucose/core/Solver.cc:1421-1482 | Without a conflict the iteration ends the search or increases the measure |
| Engine.Solver.Round | painless-v2/glucose/core/Solver.cc:1334-1483 | Every iteration of the search loop returns or strictly increases the bounded measure, whatever clauses were learnt or deleted |
| Engine.Solver.Search | painless-v2/glucose/core/Solver.cc:1326-1484 | Terminates; false means unsatisfiable, or an entailed final conflict of negated assumptions; true means that all decision variables are assigned without conflict; no answer means level 0 with everything propagated. At least one import point is passed |
| Engine.Solver.SearchWithin | painless-v2/glucose/core/Solver.cc:1557-1563 | Without an answer there has been exactly one search more than restarts are allowed, each passing an import point |
| ProblemClauses.FoundModel | painless-v2/glucose/core/Solver.cc:1467-1476 | When everything is assigned and nothing is left to propagate, the trail satisfies every clause ever given |
| Engine.Solver.Solve | painless-v2/glucose/core/Solver.cc:1521-1606 | Over whole runs: false without a conflict means that the problem is unsatisfiable; false with one means that the conflict follows from the problem and negates assumptions; true means that the assumptions hold and, if every variable may be decided, that the model satisfies all clauses given |
| Engine.ModelOk | painless-v2/glucose/core/Solver.cc:1467-1476 | A finished search leaves a model of the assumptions, and of the problem when every variable may be decided |
| Subsumption.Compare | painless-v2/glucose/core/SolverTypes.h:464-493 | On clauses without repeated variables: "subsumes" exactly if all literals occur, a literal exactly if all but it occur and it occurs negated, error otherwise |
| Subsumption.CorrectIsExact | painless-v2/glucose/core/SolverTypes.h:464-493 | The three outcomes exclude each other, so the contract of Compare determines its result |
| Subsumption.FilterIsSafe | painless-v2/glucose/core/SolverTypes.h:464-493 | The 32-bit abstraction never rejects a pair to which either outcome applies |
| Subsumption.FilterIsExact | painless-v2/glucose/core/SolverTypes.h:464-493 | It passes a pair exactly if each variable of the one clause has the remainder modulo 32 of a variable of the other |
| Subsumption.NeedsLength | painless-v2/glucose/core/SolverTypes.h:464-493 | Neither does the length test |
| Subsumption.SubsumedFollows | painless-v2/glucose/simp/SimpSolver.cc:464-467 | A subsumed clause follows from the one that subsumes it |
| Subsumption.StrengthenedEquivalent | painless-v2/glucose/simp/SimpSolver.cc:468-477 | In the presence of the strengthening clause, the clause is equivalent to itself without the negated literal |
| Resolution.Merge | painless-v2/glucose/simp/SimpSolver.cc:309-337 | False exactly if the clauses clash on another variable; otherwise the result has exactly the literals of the resolvent, none twice |
| Resolution.MergeSize | painless-v2/glucose/simp/SimpSolver.cc:340-366 | Agrees with the building form: false exactly on a clash, otherwise the size of the resolvent |
| Resolution.ResolventFollows | painless-v2/glucose/simp/SimpSolver.cc:309-337 | The resolvent holds in every model of both parents |
| Resolution.OneHoldsWithout | painless-v2/glucose/simp/SimpSolver.cc:309-337 | If the resolvent holds or the clauses clash, one parent holds without the variable |
| Lifting.MkElimUnit | painless-v2/glucose/simp/SimpSolver.cc:529-533 | The stack grows by the record of one literal and its length |
| Lifting.MkElimClause | painless-v2/glucose/simp/SimpSolver.cc:536-559 | The stack grows by the literals of the clause with the one of the variable in front, and their number |
| Lifting.ExtendModel | painless-v2/glucose/simp/SimpSolver.cc:658-674 | Reading the packed stack backwards computes the pass over the records: a variable is set to its first literal unless another literal of the record holds |
| Lifting.LiftAgrees | painless-v2/glucose/simp/SimpSolver.cc:658-674 | On records over remaining variables the stored pass computes the pass on models and defines every eliminated variable |
| Elimination.LiftElimination | painless-v2/glucose/simp/SimpSolver.cc:592-600 | The pass over the records of one elimination gives the variable the recorded sign exactly when some recorded clause needs it |
| Elimination.EliminationLifts | painless-v2/glucose/simp/SimpSolver.cc:562-621 | Every model of what is left, in which each pair of clauses clashes or has a true resolvent, lifts to a model of what was there before |
| Elimination.PairsFollow | painless-v2/glucose/simp/SimpSolver.cc:603-608 | Every model before the elimination satisfies the resolvent of each pair that does not clash |
| SimpRuns.StackPush | painless-v2/glucose/simp/SimpSolver.cc:592-600 | The stack stays readable over any sequence of eliminations |
| SimpRuns.EliminationFaithful | painless-v2/glucose/simp/SimpSolver.cc:562-621 | Over any sequence of eliminations: models of the original satisfy what is left, and models of what is left lift to models of the original, unless an elimination under the implication check had a pair of clauses whose resolvent the rest does not imply |
| SimpRuns.EliminationKept | painless-v2/glucose/simp/SimpSolver.cc:562-621 | Every model of what one elimination leaves lifts to a model of what was there before if and only if the implication check is off or the clauses without the variable imply that each pair of clauses of the variable clashes or has a true resolvent; with the check on exactly the clauses without the variable are left |
| SimpRuns.LiftsExactly | painless-v2/glucose/simp/SimpSolver.cc:216-217 | The same where the clauses of the variable are dropped without their resolvents, both directions |
| SimpRuns.ClashesLoseNothing | painless-v2/glucose/simp/SimpSolver.cc:216-217 | A variable none of whose pairs has a consistent resolvent is always eliminated without loss |
| SimpExamples.ChainClean | painless-v2/glucose/simp/SimpSolver.cc:418-482 | Seven clauses in which nothing subsumes or almost subsumes anything |
| SimpExamples.EliminatesTooMuch | painless-v2/glucose/simp/SimpSolver.cc:562-621 | A run of the elimination, with the implication check on, that turns these contradictory clauses into satisfiable ones |
| Simplification.SimpSolver.AddResolvents | painless-v2/glucose/simp/SimpSolver.cc:603-608 | All consistent resolvents are accounted for whichever parents are dropped; with the implication check on the formula does not change at all |
| Simplification.SimpSolver.EliminateVar | painless-v2/glucose/simp/SimpSolver.cc:562-621 | Eliminates the variable exactly if number and size of the resolvents of its live clauses stay within the limits, else leaves every clause; every model of what is left lifts if and only if the implication check is off or the clauses without the variable imply the pairs; the account of the original clauses, the stack and all occurrence lists stay valid; a failure means that the original clauses are unsatisfiable |
| Simplification.SimpSolver.EliminateVars | painless-v2/glucose/simp/SimpSolver.cc:712-736 | Over any sequence of variables: afterwards each variable of the order is eliminated, has a value, is frozen, or was beyond the limits in the state in which its turn came; no other variable is eliminated, none while elimination is switched off, and `frozen` is as before. The formula is kept as by a single elimination; with the implication check off nothing is lost |
| Simplification.SimpSolver.TryVar | painless-v2/glucose/simp/SimpSolver.cc:722-735 | One turn: asymmetric branching on every clause of the variable if that is switched on, then elimination if the variable is neither frozen nor assigned; the state in which it was tried is returned |
| SimpRuns.TurnStays | painless-v2/glucose/simp/SimpSolver.cc:712-736 | What a turn has settled is not undone by later ones |
| Simplification.SimpSolver.Equisatisfiable | painless-v2/glucose/simp/SimpSolver.cc:677-771 | In every valid state in which no elimination lost anything, so always with the implication check off, what is left is satisfiable exactly when the original clauses are |
| Simplification.SimpSolver.Extend | painless-v2/glucose/simp/SimpSolver.cc:658-674 | A model of what is left that decides all remaining variables is extended to a model of the original clauses that decides all variables |
| Simplification.SimpSolver.AddClause | painless-v2/glucose/simp/SimpSolver.cc:208-251 | The clause joins the original ones, what is stored for it is queued for subsumption, and the account stays valid |
| Simplification.SimpSolver.RemoveClause | painless-v2/glucose/simp/SimpSolver.cc:254-267 | Exactly this clause is marked deleted, and its occurrence lists are dirty |
| Simplification.SimpSolver.StrengthenClause | painless-v2/glucose/simp/SimpSolver.cc:269-305 | The models become those with the clause replaced by the clause without the literal; a clause of two literals becomes a propagated unit; a failure means that there are none |
| Simplification.SimpSolver.CheckOne | painless-v2/glucose/simp/SimpSolver.cc:456-478 | One candidate, if it is alive, another clause and within the length limit: exactly what the comparison must say of it is done to it; what changed is queued again; the formula keeps its models |
| SimpScan.ScanStep | painless-v2/glucose/simp/SimpSolver.cc:460-476 | Going on at the same index exactly when the candidate left the list that is scanned misses no candidate |
| SimpScan.StrengthenedUntouched | painless-v2/glucose/simp/SimpSolver.cc:469-471 | A strengthened clause is neither subsumed nor strengthened by the same clause again |
| Simplification.SimpSolver.CheckCandidates | painless-v2/glucose/simp/SimpSolver.cc:456-478 | After the scan of one list no live clause within the length limit, in any list, is subsumed or almost subsumed by the clause |
| SimpScan.CleanAfter | painless-v2/glucose/simp/SimpSolver.cc:424-478 | Only queued clauses and unprocessed level 0 literals can still simplify a clause: kept from one queue entry to the next |
| SimpScan.CleanIsReduced | painless-v2/glucose/simp/SimpSolver.cc:418-482 | In the end no live clause subsumes or almost subsumes another, and none mentions a variable that level 0 decides |
| Simplification.SimpSolver.BackwardSubsumptionCheck | painless-v2/glucose/simp/SimpSolver.cc:418-482 | Terminates on live literals, unprocessed units and queue length; the formula keeps its models, or a failure means that it has none; uninterrupted, it leaves nothing that a clause or a level 0 literal can simplify if at first only queued ones could |
| UnitClosure.UnitPropagate | painless-v2/glucose/simp/SimpSolver.cc:485-509 | Everything found holds in every model and on every trail that leaves no clause unit or false; without a conflict the result is such a trail, so the least one, and with a conflict there is none: any complete unit propagation ends alike |
| UnitClosure.Implied | painless-v2/glucose/simp/SimpSolver.cc:397-415 | True only if the clause follows; and always true of a clause that contains the resolvent of two live clauses |
| Simplification.SimpSolver.Asymm | painless-v2/glucose/simp/SimpSolver.cc:485-509 | A literal goes if and only if the clause is alive, not satisfied, and assuming the negation of the rest has no conflict-free propagation; it is the last one of the clause that is of the variable or false at level 0; the formula keeps its models |
| SimpRuns.DropsOwnLiteral | painless-v2/glucose/simp/SimpSolver.cc:493-497 | It is the literal of the variable if and only if no literal behind that one is false at level 0 |
| SimpExamples.BranchingKeepsVariable | painless-v2/glucose/simp/SimpSolver.cc:485-509 | A run of asymm on a variable that takes another literal out |
| Simplification.SimpSolver.AsymmVar | painless-v2/glucose/simp/SimpSolver.cc:512-526 | Every clause of the variable is branched on in turn, each in the state that the one before left, followed by backward subsumption; the formula keeps its models |
| ClausesBuffers.ClausesBuffer.PushClause | painless-v2/glucose/parallel/ClausesBuffer.cc:166-182 | Refused exactly if the record does not fit and old clauses are not given up; accepted, the ring is as it was after giving up as many records as necessary, with this record behind; every other thread has exactly this record more to come, or, if old records were forced out, an end of what it had to come |
| RingLayout.FreedLeast | painless-v2/glucose/parallel/ClausesBuffer.cc:169-173 | A record is given up only if it and those behind it leave no room, or if nobody waits for it |
| ClausesBuffers.ClausesBuffer.GetClause | painless-v2/glucose/parallel/ClausesBuffer.cc:184-231 | Returns a clause exactly if one of another thread is pending, and then the oldest; nobody else gains or loses one; what was delivered plus what is pending stays all foreign records in push order |
| ClausesBuffers.ClausesBuffer.RemoveLastClause | painless-v2/glucose/parallel/ClausesBuffer.cc:124-147 | The front record leaves together with all behind it that nobody waits for, and readers at the front move along |
| ClausesBuffers.ClausesBuffer.RemoveOne | painless-v2/glucose/parallel/ClausesBuffer.cc:126-144 | One record leaves the front; cursors on it move to the next |
| ClausesBuffers.ClausesBuffer.constructor | painless-v2/glucose/parallel/ClausesBuffer.cc:84-92 | An empty ring in which every thread has nothing to come |
| RingLayout.NeverBehind | painless-v2/glucose/parallel/ClausesBuffer.cc:192-197 | The repair branch for a reader behind the front is never taken |
| RingLayout.ReceivedOne | painless-v2/glucose/parallel/ClausesBuffer.cc:199-231 | Taking a record keeps each counter equal to the number of other threads whose cursor is not past the record, and delivers the head of the pending ones |
| RingLayout.DroppedKeepsPending | painless-v2/glucose/parallel/ClausesBuffer.cc:124-147 | Records whose counters are zero leave without any thread missing one |
| RingLayout.CountDown | painless-v2/glucose/parallel/ClausesBuffer.cc:217-217 | Writing one counter changes no other word of any record in the ring |
| RingLayout.AppendRecord | painless-v2/glucose/parallel/ClausesBuffer.cc:151-179 | A record written behind the others overlaps none of them |
| RingLayout.ForcedOut | painless-v2/glucose/parallel/ClausesBuffer.cc:169-173 | Making room loses for a thread only an initial part of what it had to come |
| RingLayout.IndexSteps | painless-v2/glucose/parallel/ClausesBuffer.cc:110-122 | The wrapping index functions compute the remainder of the running offset |
| LockFreeQueue.StepKeepsInv | painless-v2/painless-src/clauses/ClauseBuffer.cpp:44-109 | Every access of any thread keeps: head at or before tail, tail the last element or the one before, local variables that name what they named, and size off by exactly the operations in flight |
| LockFreeQueue.StepRefines | painless-v2/painless-src/clauses/ClauseBuffer.cpp:44-109 | Every access is a step of an atomic queue with the same calls, returns and results; "empty" is only reported by a removal during which the queue was empty |
| LockFreeQueue.RunRefines | painless-v2/painless-src/clauses/ClauseBuffer.cpp:44-109 | So every interleaving of whole runs is linearizable; the tail lags by at most one |
| LockFreeQueue.InterleavingsConserve | painless-v2/painless-src/clauses/ClauseBuffer.cpp:44-109 | In every interleaving each clause handed in is handed out, in the list, or held by a pending operation, as often as it was handed in |
| LockFreeQueue.ProducerOrder | painless-v2/painless-src/clauses/ClauseBuffer.cpp:44-109 | Between one producer and one consumer clauses arrive in the order in which they were sent |
| LockFreeQueue.Drain.GetClauses | painless-v2/painless-src/clauses/ClauseBuffer.cpp:111-123 | Nothing is lost except perhaps one clause, and none exactly if some call within the count that was read finds the queue empty |
| LockFreeQueue.UndisturbedDrain | painless-v2/painless-src/clauses/ClauseBuffer.cpp:111-123 | Without concurrent additions the drain gets everything exactly if the count read is not too small |
| LockFreeQueue.DisturbedDrain | painless-v2/painless-src/clauses/ClauseBuffer.cpp:111-123 | One addition during the drain makes it lose a clause |
| ClausePool.Pool.ProduceCls | painless-v2/lingeling/plingeling.c:495-531 | The clause is appended with count zero |
| ClausePool.Pool.ConsumeCls | painless-v2/lingeling/plingeling.c:582-627 | Returns a clause of another worker, later in production order than all it got before; everything skipped was its own or has left the pool; if an entry waits for all workers and none was collected, only its own were skipped |
| ClausePool.Pool.Gcls | painless-v2/lingeling/plingeling.c:551-580 | Collects the removed entries only if more than gclim workers have passed the first live one, and everything otherwise; keeps every cursor on its next uncollected clause |
| ClausePool.Pool.PassOne | painless-v2/lingeling/plingeling.c:596-608 | Passing an entry completes it exactly if enough workers have passed it then, and the pool is collected exactly if that happens while it is long and its removed part is, too |
| ClausePool.Pool.AllOrNone | painless-v2/lingeling/plingeling.c:561-566 | Counts do not increase along the pool, so if the first live entry may go, all may |
| ClausePool.PassKeeps | painless-v2/lingeling/plingeling.c:596-608 | An entry that becomes complete is always the first one, so removed entries stay a prefix; every count stays the number of cursors past its entry |
| ClausePool.CollectKeeps | painless-v2/lingeling/plingeling.c:551-580 | Counts, prefix and contents survive the shift |
| ClausePool.StaysForAll | painless-v2/lingeling/plingeling.c:596-608 | An entry that waits for all workers is still there for the last one |
| UnitPool.Units.ProduceUnit | painless-v2/lingeling/plingeling.c:458-465 | Units are kept back and handed in when there are 512 of them |
| UnitPool.Units.Flush | painless-v2/lingeling/plingeling.c:417-456 | Hands in the units of one worker; each variable is fixed at most once and rightly; contradicting units end with result 20, which is only reported if the formula is unsatisfiable |
| UnitPool.Units.ConsumeUnits | painless-v2/lingeling/plingeling.c:467-479 | All units from the place of the worker, which is the start and is not moved: whatever was given before is given again, after the own units are handed in |
| ClauseManagers.ClauseManager.AllocClause | painless-v2/painless-src/clauses/ClauseManager.h:39-48 | A new clause with one reference |
| ClauseManagers.ClauseManager.IncreaseClause | painless-v2/painless-src/clauses/ClauseManager.h:51-54 | The count grows with the number of holders |
| ClauseManagers.ClauseManager.ReleaseClause | painless-v2/painless-src/clauses/ClauseManager.h:57-64 | The count drops with the holder; the clause is freed exactly when the last one lets go |
| ClauseFilters.CommutativeHashFunction | painless-v2/painless-src/clauses/ClauseFilter.cpp:23-31 | The loop computes the hash over all elements but the first: the exclusive or of the products with primes, in unsigned 32-bit arithmetic |
| ClauseFilters.PrimeShared | painless-v2/painless-src/clauses/ClauseFilter.cpp:23-31 | Two literals are multiplied with the same prime in the first hash exactly if their variables agree modulo 12, in the second modulo 6, in the third modulo 4, in the fourth modulo 3 |
| ClauseFilters.TermInjective | painless-v2/painless-src/clauses/ClauseFilter.cpp:23-31 | With the same prime two literals contribute the same exactly if they are equal modulo 2^32, as the primes are odd |
| ClauseFilters.MixChanged | painless-v2/painless-src/clauses/ClauseFilter.cpp:23-31 | Exchanging one literal changes the sum of a clause exactly if the two literals contribute differently |
| ClauseFilters.SumsChange | painless-v2/painless-src/clauses/ClauseFilter.cpp:23-31 | Replacing a literal by another whose variable has the same remainder modulo 12 changes all four sums |
| ClauseFilters.HashShared | painless-v2/painless-src/clauses/ClauseFilter.cpp:23-31 | Two clauses share a slot exactly if their sums differ by a multiple of the number of slots |
| ClauseFilters.OneHash | painless-v2/painless-src/clauses/ClauseFilter.cpp:23-31 | If all variables after the first literal are multiples of 12, the four sums are the same |
| ClauseFilters.MixPermuted | painless-v2/painless-src/clauses/ClauseFilter.cpp:23-31 | The order of the elements does not matter |
| ClauseFilters.SameToTheFilter | painless-v2/painless-src/clauses/ClauseFilter.cpp:23-65 | Two clauses of at least two literals whose elements after the first are the same, in any order, are indistinguishable: once one is registered the other is refused |
| ClauseFilters.SmallDiffer | painless-v2/painless-src/clauses/ClauseFilter.cpp:23-65 | After one clause of two literals, another is known exactly if the second literals are equal, for all variables up to 6 there |
| ClauseFilters.ClauseFilter.RegisterClause | painless-v2/painless-src/clauses/ClauseFilter.cpp:41-65 | True exactly if the clause was not known; it is known afterwards and nothing is forgotten |
| ClauseFilters.RegisteredKnown | painless-v2/painless-src/clauses/ClauseFilter.cpp:41-65 | Registering the same literal sequence again changes nothing |
| ClauseDatabases.ClauseDatabase.AddClause | painless-v2/painless-src/clauses/ClauseDatabase.cpp:40-54 | The reference is taken over exactly if one more clause of that size stays below 1000 literals, else it is released |
| ClauseDatabases.ClauseDatabase.GiveSelection | painless-v2/painless-src/clauses/ClauseDatabase.cpp:57-96 | The selection is greedy by size within the budget, its literal count is what is returned, and selection and rest together are what was there |
| ClauseDatabases.GreedyIsLargest | painless-v2/painless-src/clauses/ClauseDatabase.cpp:57-96 | No choice of clauses within the budget has more clauses than a greedy one |
| ClauseDatabases.ExchangeCost | painless-v2/painless-src/clauses/ClauseDatabase.cpp:57-96 | Exchanging clauses of up to a size for others costs at least that size each |
| WireFormat.RoundTrip | painless-v2/painless-src/comm/MpiComm.cpp:97-117 | Reading an encoded sequence of clauses gives the same clauses in order |
| WireFormat.FitsUnlessAllUnits | painless-v2/painless-src/comm/MpiComm.cpp:97-117 | The words of a selection are fewer than twice the budget if and only if there are fewer unit clauses than the budget |
| WireFormat.FitsFromThousand | painless-v2/painless-src/comm/MpiComm.cpp:43-48 | For a budget of at least 1000 they always are |
| WireFormat.FullOfUnits | painless-v2/painless-src/comm/MpiComm.cpp:97-117 | With a smaller budget and enough unit clauses they are exactly twice the budget |
| MpiComms.BufferTooShort | painless-v2/painless-src/comm/MpiComm.cpp:75-117 | A run for every smaller budget: that many different unit clauses pass the filter, and the message for the selection is as long as the whole buffer, which also holds its length |
| MpiComms.MessageFits | painless-v2/painless-src/comm/MpiComm.cpp:97-117 | The encoded selection is shorter than the buffer |
| MpiComms.MpiComm.WriteClauses | painless-v2/painless-src/comm/MpiComm.cpp:105-116 | The buffer holds the length and then exactly the encoded clauses |
| MpiComms.MpiComm.ExportLearnedClauses | painless-v2/painless-src/comm/MpiComm.cpp:97-129 | What is sent is the encoding of a selection from the database, whose references are given up |
| MpiComms.MpiComm.HandleReceivedClauses | painless-v2/painless-src/comm/MpiComm.cpp:266-293 | Exactly the clauses of the message that the filter does not know when their turn comes are allocated, as external ones, in order |
| MpiComms.MpiComm.AddClausesToExternal | painless-v2/painless-src/comm/MpiComm.cpp:75-90 | Exactly the clauses new to the filter are offered to the database, each with one reference more |
| MpiComms.MpiComm.GetClausesFromExternal | painless-v2/painless-src/comm/MpiComm.cpp:92-95 | Hands over all imported clauses with their references |
| MpiComms.MpiComm.Init | painless-v2/painless-src/comm/MpiComm.cpp:56-73 | The interval of ranks to send to is the group |
| MpiComms.GroupsPartition | painless-v2/painless-src/comm/MpiComm.cpp:56-73 | Two ranks exchange clauses exactly if their ranks have the same quotient by the group size, in both directions |
| DistributionSharings.DistributionSharing.CollectFrom | painless-v2/painless-src/sharing/DistributionSharing.cpp:57-76 | The export buffer of a solver is emptied; the clauses that are new to both filters when their turn comes are offered to the database, in order; both filters learn exactly what they were told |
| DistributionSharings.DistributionSharing.CollectOne | painless-v2/painless-src/sharing/DistributionSharing.cpp:64-74 | Kept exactly if new to both filters, the second being asked only if the first says new |
| DistributionSharings.DistributionSharing.DeliverTo | painless-v2/painless-src/sharing/DistributionSharing.cpp:91-107 | A solver gets exactly the clauses of others that its filter does not know when their turn comes, each with one reference more |
| DistributionSharings.DistributionSharing.DoSharing | painless-v2/painless-src/sharing/DistributionSharing.cpp:41-112 | What is shared is a greedy selection from the database as it is after all solvers are drained, followed by all imports; after a round every clause counts its holders, freed ones have none; each solver has got, now or before, every shared clause of others and only such; and no solver was ever given what it had exported or got |
| DistributionSharings.LogMore | painless-v2/painless-src/sharing/DistributionSharing.cpp:61-107 | A delivery that passes the filter is no echo |
| DistributionSharings.KnowsAll | painless-v2/painless-src/sharing/DistributionSharing.cpp:91-107 | After a round the filter of a solver knows every shared clause of others |
| DistributionSharings.DistributionSharing.SolverLearns | painless-v2/painless-src/solvers/GlucoseSyrup.cpp:58-75 | A learnt clause is allocated and put into the export buffer |
| DistributionSharings.DistributionSharing.SolverTakes | painless-v2/painless-src/solvers/GlucoseSyrup.cpp:95-111 | A solver takes in the oldest clause it was given and releases it |
| DistributionSharings.DistributionSharing.SendOut | painless-v2/painless-src/comm/MpiComm.cpp:97-129 | The message is the encoding of the selected clauses; references stay conserved and solvers free from echoes |
| DistributionSharings.DistributionSharing.MessageArrives | painless-v2/painless-src/comm/MpiComm.cpp:266-293 | The clauses of the message that the filter has not seen are queued in order, with one reference each; references stay conserved and solvers free from echoes |
| Cubes.SplitPartition | painless-v2/lingeling/treengeling.c:1531-1554 | Replacing a cube by itself with a literal and with its negation keeps every assignment in exactly one cube |
| Cubes.ClosePartition | painless-v2/lingeling/treengeling.c:871-902 | Moving a cube to the closed ones keeps every assignment in exactly one cube |
| Cubes.AllClosed | painless-v2/lingeling/treengeling.c:1779-1805 | When all cubes are closed and refuted the formula is unsatisfiable |
| Cubes.ModelIsOpen | painless-v2/lingeling/treengeling.c:1779-1805 | Every model of the formula lies in exactly one open cube |
| Cubes.LeafFollows | painless-v2/lingeling/treengeling.c:921-932 | The clause of a refuted cube follows from the formula |
| CubeTree.Treengeling.NewNode | painless-v2/lingeling/treengeling.c:815-853 | The child is appended with the extended cube and knows its place |
| CubeTree.Treengeling.SplitNode | painless-v2/lingeling/treengeling.c:1531-1554 | The node goes on with the literal, the new one with its negation; all invariants are kept |
| CubeTree.Treengeling.DelNode | painless-v2/lingeling/treengeling.c:871-902 | The last node takes the place of the deleted one and every node knows its place |
| CubeTree.Treengeling.EnqLeaf | painless-v2/lingeling/treengeling.c:942-954 | The doubly linked list grows by the leaf at its end |
| CubeTree.Treengeling.DeqLeaf | painless-v2/lingeling/treengeling.c:956-968 | The oldest leaf is taken and the links stay right |
| CubeTree.Treengeling.ConsumeCls | painless-v2/lingeling/treengeling.c:976-988 | The clause handed to the parallel solver is the oldest leaf and follows from the formula; the count of ids goes down |
| CubeTree.NewIdDistinct | painless-v2/lingeling/treengeling.c:921-940 | A new leaf keeps the ids of the list distinct if and only if no leaf in it has the id one above their number |
| CubeTree.ConsecutiveIds | painless-v2/lingeling/treengeling.c:921-940 | With consecutive ids it collides if and only if the first id is between 2 and the number of leafs plus one |
| CubeTree.Treengeling.EnqNewLeafFromNode | painless-v2/lingeling/treengeling.c:970-970 | The list grows by the clause of the node, with the id one above its length; the counter stays the length of the list |
| CubeTree.IdsCollide | painless-v2/lingeling/treengeling.c:921-940 | A run after which two leafs in the list have the same id |
| CubeTree.Treengeling.Flush | painless-v2/lingeling/treengeling.c:1779-1805 | Closes exactly the nodes that are refuted; 20 is returned exactly if no node is left, and then the formula is unsatisfiable |
| CubeTree.Treengeling.Finish | painless-v2/lingeling/treengeling.c:1895-1935 | 20 only for an unsatisfiable formula, 10 only for a satisfiable one; 20 if no node is left, else 10 if a node is satisfied, else what the parallel solver says |
| CubeTree.Treengeling.Reorder | painless-v2/lingeling/treengeling.c:1309-1329 | Sorting and random swaps permute the nodes and leave each at its place |
| CubeTree.FirstLkhd | painless-v2/lingeling/treengeling.c:1438-1462 | The nodes to look at are an interval of the active ones, as few as make at least the given percentage and as many as there is room for |
| Workers.NeverTooManyNeverStuck | painless-v2/lingeling/treengeling.c:1139-1163 | In every interleaving at most the given number of jobs run; while the starter waits there is a job that will signal it |
| DeltaDebugging.Reducer.Run | painless-v2/lingeling/lglddtrace.c:175-260 | The result depends on the events that are not removed, in order, and nothing else |
| DeltaDebugging.Reducer.TryBatch | painless-v2/lingeling/lglddtrace.c:568-601 | The batch is removed exactly if the trace still ends the same; otherwise undoing by time stamp restores all events and ranges exactly |
| DeltaDebugging.Reducer.UndoBatch | painless-v2/lingeling/lglddtrace.c:590-600 | Taking back the stamps of the last run restores the previous state, stamps of earlier removals included |
| DeltaDebugging.Reducer.FindRanges | painless-v2/lingeling/lglddtrace.c:501-556 | The ranges are disjoint, ascending, start at live events and contain every live event; at the finest granularity they are exactly the live events |
| DeltaDebugging.Reducer.RangeEnd | painless-v2/lingeling/lglddtrace.c:508-532 | A range is as long as it can be: with the clause, or with the calls of one kind, that starts there |
| DeltaDebugging.Reducer.Pass | painless-v2/lingeling/lglddtrace.c:561-603 | If nothing changed at width one, every single range is needed; any change means that an event has gone |
| DeltaDebugging.Reducer.Granularity | painless-v2/lingeling/lglddtrace.c:500-607 | Without a change at the finest granularity and with at least two live events each of them is needed |
| DeltaDebugging.Reducer.Renumber | painless-v2/lingeling/lglddtrace.c:421-499 | The names become 1, 2, 3, ... in the old order if and only if some variable is not used and some name changes; the run in between always succeeds, as it uses the old names |
| DeltaDebugging.Reducer.Dd | painless-v2/lingeling/lglddtrace.c:411-721 | Terminates; the trace still ends as the original one, its calls are some of the original ones in order, and with at least two left none can be left out |
| TraceEvents.RankAtMost | painless-v2/lingeling/lglddtrace.c:475-483 | No variable has a smaller name than the compact renaming gives it |
| TraceEvents.PrintFaithful | painless-v2/lingeling/lglddtrace.c:263-345 | Two calls that are left print the same literal, or one the negation of the other, exactly if that was so before the renaming |
| TraceEvents.CutOneLess | painless-v2/lingeling/lglddtrace.c:590-600 | What a batch looks like before and after one of its ranges is undone |

## Left out

- Incremental mode with selector variables, DRUP output, statistics, verbosity and timing.
- LBD of stored clauses, clause activities, restart and blocking triggers, `usePR` and flip statistics: the choices that depend on them are arbitrary here, so the results hold for every outcome.
- `useUnaryWatched` is on, as in `ParallelSolver`; without it there are no one-watched clauses and their lists are empty.
- Masks of 32 bits in clause minimisation are sets of bit numbers; the levels counted for the LBD of a learnt clause are collected in a set, where the original stamps them in `permDiff`.
- Activities are real numbers; rescaling and decay may happen at any bump, rounding does not occur.
- `parallelJobIsFinished` and interruption, which stop a search early without an answer.
- 32-bit overflow of clause references, of `MYFLAG` and of run counters, and the growth policy of `RegionAllocator`: memory is unbounded.
- Sorting of learnt clauses before a reduction: which clauses are chosen is arbitrary, and their order in the list is kept.
- Received clauses and units are assumed to follow from the problem, without repeated variables; that is what their senders prove.
- Learnt clauses, activities and `elim_heap` order during preprocessing; `SimpSolver::newVar`, `gatherTouchedClauses` and the outer loop of `eliminate`: subsumption, asymmetric branching and elimination may come in any order.
- `SimpSolver::substitute`, which stores no reconstruction clause.
- Simplification.SimpSolver.EnqueueUnit: its propagation is plain unit propagation to a fixpoint over the live clauses, not the watched scheme of the engine, which is proved complete separately.
- Simplification.SimpSolver.EliminateVar: with the implication check on models need not lift, as the original does not see to it; the exact condition is in its contract.
- UnitClosure.UnitPropagate: visits clauses in plain passes, where the original has watcher lists; what it returns is fixed up to the order of the literals.
- ClausesBuffers.ClausesBuffer.PushClause: with `whenFullRemoveOlder` a record must be shorter than the ring, as otherwise the original reads garbage; `setNbThreads` and rings for a single thread are not modelled.
- `LockFreeQueue`: list elements are never used twice, so reclaiming them safely is not covered; each step is sequentially consistent.
- ClausePool.Pool.ConsumeCls: the memory of removed entries (`dead`) is not modelled; nothing is said about which clauses a slow worker misses once the collector has run, except that they left the pool.
- Equivalences and the local-search worker of Plingeling.
- `ClauseExchange.lbd`, and races between the sharer and the communication thread: a database operation is atomic, and so is a drain of a buffer.
- WireFormat.Parse: an unfinished clause at the end of a message is dropped, as in the original; messages are taken to arrive unchanged.
- MPI calls, the end-of-solving protocol between ranks, working strategies and portfolio set-up; the files that implement `Portfolio` and the workers are not part of this model.
- CubeTree.Treengeling.SplitNode: one split is one step; jobs on different nodes do not interfere, so a partition holds whenever no job is between its two cubes.
- CubeTree.Treengeling.JobDone: solver instances answer soundly; Lingeling itself is not modelled.
- Which nodes are simplified, searched or skipped for memory in a round of Treengeling.
- DeltaDebugging.Reducer.Dd: for a deterministic library and without `-O`; a trace of which a single call is left may be reducible to nothing, which the original does not try.
- Parsers, options, signals, core and memory detection, printing.
