# golintmu in Dafny

golintmu is a static analyser for mutex discipline in Go.  This project models its analysis core and
proves what its results mean:

* **The lock-state walk** (`Walk`, `WalkSpec`, `WalkInvariant`, `WalkTheorems`, `RecordTheorems`, `MergeReports`,
  `WalkLimits`, over `Cfgs`, `PathText`, `LockKeys` and `LockStates`).  A recursive must-hold analysis of a control-flow graph with loops.  A block can be walked
  again while an outer call is still going through its successors with an older state; the proofs show that
  the final table is nevertheless the meet over all paths, that the recursion ends, and what each record
  (double lock, mismatched unlock, unlock of unlocked, inconsistent merge, call site, lock-order edge, leak
  candidate) says about paths.  Paths are read as text (`PathText`): a lock is held where its last acquisition
  is not followed by a release, and an unlock is pending where a deferred unlock has been passed.
* **The walk as coded** (`LiteralWalk`, `LiteralLimits`, `LiteralAgreement`, `Traces`, `CodedPass`,
  `EverydayMerge`).  A re-walk shares its state with the table of entries; where that is harmless, the results
  about records, leaks and lock order carry over to it.
* **Lock order** (`LockOrder`, `Digraph`, `CycleDedup`, `CycleDetection`, `MissedCycles`).  White/gray/black
  search, cycle extraction and deduplication; every cycle shares an edge with a found one, a silent result is a
  ranking of the locks, and all cycles are sure to be reported exactly when no two share a pair of locks.
* **Propagation across calls** (`FixedPoint`, `Interprocedural`, `Reach`, `CallChains`).  Two chaotic
  iterations with a cap of 1000 sweeps.
* **Reporting** (`AccessSpec`, `Reporting`, `AccessAnalysis`, `LeakFiling`, `ReturnsHolding`, `AcquireHelpers`).
  Suppression and its overall effect: reports at the root of the call chain, from observations to reports in one
  method, against a specification that knows only the input facts and call chains (`AccessSpec`);
  lock leaks and acquire helpers, in terms of paths, after all functions have been walked.
* **Smaller algorithms** (`Resolver`, `PhiRoutes`, `PhiBases`, `Concurrency`, `Inference`): phi unwrapping and
  canonical bases, breadth-first concurrency reachability, guard inference.
* **The whole lock-order pipeline** (`DeadlockFreedom`): from walking every function to the impossibility of
  circular waits, if no cycle is reported, and to the acquisitions under held locks that each edge of a reported
  cycle stands for.

SSA values, functions, named types and positions are numbers.  A block is a list of instructions (acquire,
release, deferred release, deferred acquire, return, call, other) and a list of successors; predecessor
counts and dominance come with the function.  A call instruction is one that leaves a call site: a static call
with at least one argument; calls without arguments, of interface methods or function values, and deferred ones
leave none and are "other" (`pkg/analyzer/ssawalk.go:113-168`), so what is said about call chains is said about
recorded calls only.  The concrete meaning of a function is the lock state along one
path from block 0 (`Cfgs.StateAt`); calls leave it unchanged, as the analyser assumes.  Iteration over Go
maps, and ties in sorts by name, are arbitrary choices, so every result holds for every order.

## Where code and intent differ

* On a re-walk the code stores the merged state and lets the instructions change that same object
  (`pkg/analyzer/ssawalk.go:57-58`), while the first visit stores a copy and the field is documented as the
  state at block entry.  `Walk` stores snapshots.  `LiteralWalk` is the code as written: it can recurse for
  ever (`CodedWalkDiverges`) and can end with a wrong must-hold state on a function without loops
  (`CodedWalkIsUnsound`), and whether it does can depend on the order of successors alone
  (`SuccessorOrderDecidesCodedWalk`).  It never gets past its first comparison exactly on the functions whose
  states agree on all paths (`CodedWalkIsSafeIff`).  It does what the snapshot walk does, records included, on
  every function in which each block reached in disagreeing states leaves locks, modes and pending unlocks as
  it finds them, such as a critical section after a merge (`CodedWalkAgreesIfHarmless`, `CodedPass`).
* Comparison of states ignores lock modes but merging drops locks whose modes differ.  Soundness needs no
  condition; exactness is proved for each lock that no block is entered with in two modes, in particular for
  each lock taken in one mode only (`SingleModeIsConsistent`), and fails without it (`MixedModesLoseALock`),
  depending on the order of successors (`VisitingOrderDecidesMixedModes`).
* Leak candidates are kept in one table for the whole pass, keyed by position alone, and implicit returns carry
  no position.  The table is right about every return at a position if and only if no leak there is followed by
  a function walked later that returns at the same position, or shares it with a return of its own function
  that does not leak the lock (`PositionIsExactIffNotOverwritten`); in particular if the position belongs to
  one return of the program only.  Otherwise genuine candidates are lost, to another return of the function
  (`SharedPositionLosesALeak`) or to another function (`LaterFunctionLosesALeak`).  For the same reason a
  function whose returns share a position is never an acquire helper (`CountDecidesReturnsHolding`).
* `detectCycles` is described as finding all cycles.  It finds a cycle for every back edge, at most one per
  edge, so it misses some on any graph with more cycles than edges, whatever the names and the order
  (`MissesACycle`, with a graph of 25 cycles over 20 edges in `HubsHaveMoreCyclesThanEdges`); what it always
  guarantees is that every cycle contains the closing edge of a found one (`FindCycles`).  It reports all cycles
  under all unambiguous names if and only if no two different cycles of the graph have a pair of consecutive
  locks in common: the condition suffices (`DetectCycles`), and where two cycles do have a pair in common, names
  exist under which the search, which follows the order of names, misses one of them (`MissesOneOfTwo`).
* Cycles are deduplicated by printed names; different cycles with equal names are merged
  (`EqualNamesMergeDifferentCycles`).  For names without separators the keys identify all cycles if and only if
  different locks have different names (`KeysIdentifyIffNamesDiffer`).
* `unwrapSSAValue` is described as stripping phis whose edges agree.  It does so if and only if, besides, every
  phi below has edges and is reached along one route only (`UnwrappedIff`); a phi merged twice, and the phi of a
  loop that does not change its variable, stay (`SharedPhiIsNotUnwrapped`, `LoopPhiIsNotUnwrapped`).
* `canonicalizeBase` is meant to give uses of one variable one base.  A value and the value it unwraps to have one
  base if and only if unwrapping the latter again changes nothing (`BasesAgreeIff`); it can, since the visited set
  of the first pass also hides phis from later edges (`BasesCanDiffer`), but never if the latter is no phi.
* Suppressing a violation because the function has callers loses it when those callers are not concurrent or
  are the function itself; `AccessIsAccountedForIffRootAbove` says exactly when an access is reported.
* The normalized lock state of a call site covers bases with one pointer layer, lock-order edges inside a
  function cover one to four; both are modelled as they are (`NormalizedKeyOf`, `KeyOf`).

## Model

| member | source | states |
|---|---|---|
| `LockStates.LockState.constructor` | pkg/analyzer/lockstate.go:42-47 | a new state holds nothing and has no pending unlock |
| `LockStates.LockState.Lock` | pkg/analyzer/lockstate.go:50-52 | the lock becomes held in the given mode at the given position; everything else is unchanged |
| `LockStates.LockState.Unlock` | pkg/analyzer/lockstate.go:55-57 | exactly that lock is no longer held |
| `LockStates.LockState.DeferUnlock` | pkg/analyzer/lockstate.go:140-142 | exactly that unlock becomes pending; held locks are unchanged |
| `LockStates.LockState.Fork` | pkg/analyzer/lockstate.go:60-72 | a fresh object with the same locks and pending unlocks |
| `LockStates.LockState.EqualHeld` | pkg/analyzer/lockstate.go:76-94 | true exactly when both states hold the same locks and have the same pending unlocks, although only sizes and one inclusion are compared; modes play no role |
| `LockStates.LockState.Intersect` | pkg/analyzer/lockstate.go:122-137 | a fresh object holding exactly the locks held on both sides in the same mode, with the entries of its own side, and exactly the common pending unlocks |
| `LockStates.LockState.Diff` | pkg/analyzer/lockstate.go:98-116 | exactly the locks held on one side only, per side |
| `Cfgs.ExecIsGenKill` | pkg/analyzer/ssawalk.go:63-65 | a block makes, drops or passes on each lock regardless of all other locks, with the mode of its last acquisition |
| `Cfgs.ExecDeferred` | pkg/analyzer/ssawalk.go:316-323 | after a list of instructions an unlock is pending exactly if it was before or one of them defers it |
| `PathText.HeldReadsText` | pkg/analyzer/ssawalk.go:82-109 | after a text of instructions a lock is held exactly if the text takes it and does not release it later, in the mode and since the position of its last acquisition |
| `PathText.StateReadsText` | pkg/analyzer/ssawalk.go:63-71 | the state at the end of a path is read off the instructions passed: held locks, modes, acquisition positions and pending unlocks |
| `PathText.PointReadsText` | pkg/analyzer/ssawalk.go:63-65 | the same just before an instruction |
| `LockKeys.ResolveStructFromBase` | pkg/analyzer/reporter.go:704-731 | finds exactly a named struct that is one to four pointers away |
| `LockKeys.KeyIff` | pkg/analyzer/interprocedural.go:76-98 | a lock has a key exactly if its base is one to four pointers away from a named struct; the key listed at calls exists exactly at one pointer |
| `Cfgs.SingleModeIsConsistent` | pkg/analyzer/lockstate.go:118-130 | a lock that the function takes in one mode only is never dropped for a mode mismatch: no block is entered with it in two modes |
| `Records.LastReturnDecides` | pkg/analyzer/ssawalk.go:333-353 | executing a block leaves the candidates of a position alone, or its last return there decides them and nothing recorded earlier survives |
| `WalkInvariant.WalkedAlongEdge` | pkg/analyzer/ssawalk.go:63-71 | executing a block turns a state that is covered by one path and contains all always-held locks into such a state for every successor |
| `WalkInvariant.WalkedMeet` | pkg/analyzer/ssawalk.go:48-58 | merging two such states gives such a state, also when modes clash |
| `WalkInvariant.PotentialDrops` | pkg/analyzer/ssawalk.go:43-61 | a first visit, and every re-walk, strictly uses up a finite potential: the termination measure of the recursion |
| `WalkInvariant.ClosedTableIsSound` | pkg/analyzer/ssawalk.go:42-72 | a table whose successors never claim more than their predecessors deliver is below every path |
| `WalkSpec.WalkCloses` | pkg/analyzer/ssawalk.go:42-72 | any call of the walk leaves every block that is not pending in an outer call with up-to-date edges, and every entry it changed too, so an outer call still looping over successors with an older state does no harm |
| `WalkSpec.SuccsClose` | pkg/analyzer/ssawalk.go:69-71 | after the successor loop the block itself is up to date, even if it was walked again, with a smaller entry, during the loop |
| `WalkSpec.WalkKeepsLocal` | pkg/analyzer/ssawalk.go:42-72 | summaries, records, truth of the log and the work bound survive every call, by recursion over the real schedule |
| `WalkTheorems.EntryIsSound` | pkg/analyzer/ssawalk.go:42-72 | for every path to a block, each lock in its entry state is held and each pending unlock registered at the end of that path; no condition on modes |
| `WalkTheorems.EntryIsMeetOverAllPaths` | pkg/analyzer/ssawalk.go:48-71 | exactly the reachable blocks get an entry; it has exactly the unlocks pending on all paths and, for every lock without mode clash, exactly the locks held on all paths |
| `WalkTheorems.EntryReadsText` | pkg/analyzer/ssawalk.go:42-72 | the same on the text of paths: an unlock is pending at the entry of a block exactly if every path passes a deferred unlock; a lock is held only if, and without mode clash exactly if, every path takes it and does not release it later; its mode and position are those of the last acquisition on one path |
| `WalkTheorems.ExitsAreCurrent` | pkg/analyzer/ssawalk.go:63-67 | after all re-walks the exit state stored for a reachable block is what the block makes of its final entry state |
| `WalkTheorems.WorkIsBounded` | pkg/analyzer/ssawalk.go:43-61 | exactly the reachable blocks are executed, each at most 1 + 2 * (number of locks) times |
| `WalkTheorems.SuccessorOrderIsIrrelevant` | pkg/analyzer/ssawalk.go:69-71 | permuting successor lists changes no visited block, no pending unlock and no mode-consistent lock |
| `WalkTheorems.FinalStateIsMeet` | pkg/analyzer/ssawalk.go:63-65 | the same exactness at every instruction inside a block |
| `WalkTheorems.DoubleLockHasAPath` | pkg/analyzer/ssawalk.go:174-190 | every double-lock, recursive-RLock or upgrade report has a path arriving at that acquisition, in the mode reported, with the lock held in the mode reported, and a key |
| `WalkTheorems.CertainDoubleLockIsReported` | pkg/analyzer/ssawalk.go:174-190 | acquiring a lock that all paths already hold is always reported |
| `WalkTheorems.UnlockOfUnlockedIsExact` | pkg/analyzer/ssawalk.go:222-237 | an unlock-of-unlocked candidate exists exactly when some path reaches such an unlock without the lock |
| `RecordTheorems.MismatchHasAPath` | pkg/analyzer/ssawalk.go:222-230 | every mismatched-unlock report has a path arriving at an unlock, or deferred unlock, of the lock at that position with the lock last taken in the other mode |
| `RecordTheorems.CertainMismatchIsReported` | pkg/analyzer/ssawalk.go:285-303 | an unlock or deferred unlock that every path reaches with the lock, without mode clash and with a key, held in the other mode is reported |
| `RecordTheorems.FactsAreExact` | pkg/analyzer/ssawalk.go:306-330 | a deferred-lock typo, an acquisition fact or a release fact is recorded exactly if some reachable instruction of the function is such a deferred lock, acquisition, or unlock or deferred unlock of a lock with that key |
| `RecordTheorems.SiteIsACall` | pkg/analyzer/ssawalk.go:356-365 | every recorded site is a reachable call of the function, with its callee and position; it lists only keys of locks held on one path to the call, and all keys of locks held on every path that have one pointer layer and no mode clash |
| `WalkTheorems.CallSiteIsCovered` | pkg/analyzer/ssawalk.go:356-365 | every reachable call is recorded at least once with only keys of locks held on all paths, and with all of them that have one pointer layer and no mode clash |
| `WalkTheorems.CertainOrderIsRecorded` | pkg/analyzer/ssawalk.go:192-211 | acquiring a lock while another is held on all paths leaves a lock-order edge |
| `WalkTheorems.OrderEdgeHasAPath` | pkg/analyzer/ssawalk.go:192-211 | every lock-order edge has a path that holds the first lock, a different instance, while acquiring the second at the position and in the function of the edge |
| `WalkTheorems.InconsistencyIsGenuine` | pkg/analyzer/ssawalk.go:49-53 | an inconsistent-lock report has one path to the block with the lock and one without |
| `MergeReports.WalkIsQuiet` | pkg/analyzer/ssawalk.go:43-58 | throughout the walk every merge point without back edges that has not been reported is entered with exactly the locks that each of its finished predecessors delivers |
| `MergeReports.WalkIsNoted` | pkg/analyzer/ssawalk.go:49-53 | for every reported merge point two disagreeing merged states have been compared and each lock with a key held in only one of them, on either side, has been named |
| `MergeReports.DisagreementIsReported` | pkg/analyzer/ssawalk.go:43-58 | a merge point without back edges is reported if all paths through one predecessor hold a lock without mode clash that some path through another does not hold; some lock is named if paths agree on pending unlocks and locks have keys |
| `LeakFiling.WalkDecides` | pkg/analyzer/ssawalk.go:333-353 | throughout a walk the candidates at a position are those of one visited return there from its current entry state, or are untouched if there is none |
| `LeakFiling.LastFunctionDecides` | pkg/analyzer/ssawalk.go:19-23 | after all functions the candidates at a position describe, on paths, one return there in the last function that has one |
| `LeakFiling.LeakTableIsPathExact` | pkg/analyzer/ssawalk.go:333-353 | after all re-walks and all functions a lock is a candidate of a return that shares its position with no other exactly when every path to it takes the lock without releasing it later and some path passes no deferred unlock of it |
| `LeakFiling.PositionIsExactIffNotOverwritten` | pkg/analyzer/golintmu.go:107-109 | the final table is right about every return at a position if and only if no leak there is overwritten by a later function or by another return of its own function |
| `Walk.Walker.ProcessInstruction` | pkg/analyzer/ssawalk.go:82-109 | lock state, records and leak candidates change as specified for the instruction; what that means on paths is in `PathText`, `WalkTheorems`, `RecordTheorems` and `LeakFiling` |
| `Walk.Walker.CheckAndRecordAcquire` | pkg/analyzer/ssawalk.go:174-218 | one of four reports if already held, an edge from each other held lock, the acquisition fact, then the lock is held |
| `Walk.Walker.RecordOrderEdges` | pkg/analyzer/ssawalk.go:192-211 | exactly one edge from each other held lock with a key |
| `Walk.Walker.CheckUnlockMode` | pkg/analyzer/ssawalk.go:222-230 | a mismatch is reported exactly when the lock has a key and is held in the other mode (`MismatchHasAPath`) |
| `Walk.Walker.CheckReturnWithHeldLocks` | pkg/analyzer/ssawalk.go:333-353 | the candidates of the return become exactly the held locks without pending unlock |
| `Walk.Walker.RecordCallSite` | pkg/analyzer/ssawalk.go:356-365 | one call site with the keys of the held locks that have one pointer layer |
| `Walk.Walker.Arrive` | pkg/analyzer/ssawalk.go:43-61 | stops exactly when the arriving state brings nothing new; otherwise stores a snapshot of the merged state and goes on from it |
| `Walk.Walker.RunBlock` | pkg/analyzer/ssawalk.go:63-67 | the state becomes the block's exit state, which is stored, and all records of the block are made |
| `Walk.Walker.WalkBlock` | pkg/analyzer/ssawalk.go:42-72 | terminates, and the tables become those of the specified recursion |
| `Walk.Walker.WalkSuccs` | pkg/analyzer/ssawalk.go:69-71 | visits all successors, each with its own copy of the exit state |
| `Walk.Walker.WalkFunction` | pkg/analyzer/ssawalk.go:26-38 | a function without body is left alone; otherwise the tables are those of the walk from block 0 with nothing held, hence exact on all paths |
| `WalkLimits.MixedModesLoseALock` | pkg/analyzer/lockstate.go:118-130 | exactness needs mode consistency: a function where a lock held on all paths, in two modes, is missing from the entry |
| `WalkLimits.VisitingOrderDecidesMixedModes` | pkg/analyzer/lockstate.go:76-94 | for such a lock the same three arrivals keep it in one order of successors and lose it in another |
| `WalkLimits.SharedPositionLosesALeak` | pkg/analyzer/golintmu.go:107-109 | two returns of one function sharing a position, where the second erases the genuine candidate of the first |
| `WalkLimits.LaterFunctionLosesALeak` | pkg/analyzer/golintmu.go:107-109 | two functions with one return each at one position: the walk of the second erases the genuine candidate of the first |
| `LiteralWalk.Context.Rewalk` | pkg/analyzer/ssawalk.go:57-65 | heap level: after a re-walk the stored entry object is in the block's exit state, because the instructions ran on it |
| `LiteralWalk.FuelMonotone` | pkg/analyzer/ssawalk.go:42-72 | a finished coded walk does not depend on the depth allowed |
| `LiteralLimits.CodedWalkDiverges` | pkg/analyzer/ssawalk.go:57-58 | on a two-block loop that swaps two locks the coded walk recurses beyond every depth |
| `LiteralLimits.CodedWalkIsUnsound` | pkg/analyzer/ssawalk.go:57-58 | on a function without loop the coded walk ends with a block last executed as holding a lock that one path does not hold |
| `LiteralLimits.SuccessorOrderDecidesCodedWalk` | pkg/analyzer/ssawalk.go:57-71 | the same function with two successors exchanged is handled correctly |
| `LiteralWalk.CodedWalkIsSafeIff` | pkg/analyzer/ssawalk.go:43-61 | the coded walk passes its first comparison at every arrival if and only if all paths to each block agree on held locks and pending unlocks; it then ends within a depth of one more than the number of blocks and is exact |
| `LiteralAgreement.BalancedOnSummaries` | pkg/analyzer/ssawalk.go:54-65 | a block that leaves locks, modes and pending unlocks as they are on every path does so from every merged state too |
| `LiteralAgreement.RewalkIsNeutral` | pkg/analyzer/ssawalk.go:54-65 | if every block where paths disagree is of that kind and no lock is entered in two modes, a re-walk leaves the shared object as it was merged, but for positions |
| `Traces.SameRun` | pkg/analyzer/ssawalk.go:63-67 | executing a block from states with the same locks and modes makes the same records and the same leak candidates, wherever the locks were acquired |
| `Traces.SameNote` | pkg/analyzer/ssawalk.go:49-53 | an arrival is reported alike when compared with entries of the same locks |
| `LiteralAgreement.Simulate` | pkg/analyzer/ssawalk.go:42-72 | from corresponding tables the coded walk ends, stores and executes from the same locks as the snapshot walk, and keeps every relation between its events and the tables that single events keep |
| `LiteralAgreement.CodedWalkAgreesIfHarmless` | pkg/analyzer/ssawalk.go:42-72 | on such functions, loops included, the coded walk ends with the entries, records, exit states and leak candidates of the snapshot walk |
| `LiteralAgreement.CodedWalkIsExactIfHarmless` | pkg/analyzer/ssawalk.go:42-72 | so what it stored and last executed each block from is the meet over all paths |
| `EverydayMerge.CriticalSectionAfterMergeIsHarmless` | pkg/analyzer/ssawalk.go:54-65 | a critical section after a merge of paths that disagree is such a function |
| `CodedPass.CodedRecordsAgree` | pkg/analyzer/ssawalk.go:42-72 | every report, call site, lock-order edge and lock fact of the coded walk is one of the snapshot walk and conversely |
| `CodedPass.CodedLeakTableAgrees` | pkg/analyzer/ssawalk.go:19-23 | after the whole coded pass the leak table has the candidates of the snapshot pass |
| `CodedPass.CodedLeakTableIsPathExact` | pkg/analyzer/ssawalk.go:333-353 | in the coded pass leak candidates are exact on paths under the same condition on positions |
| `CodedPass.CodedCertificate` | pkg/analyzer/lockorder.go:43-110 | a ranking of the graph built from the coded walks is climbed by every possible wait |
| `LockOrder.LockOrderGraph.AddEdge` | pkg/analyzer/lockorder.go:34-41 | afterwards an edge with that source, target and function exists, at most this edge was added, and no two edges share the three |
| `LockOrder.Reverse` | pkg/analyzer/lockorder.go:135-138 | the in-place swap loop reverses |
| `LockOrder.ExtractCycle` | pkg/analyzer/lockorder.go:114-141 | for a back edge of the search neither early exit is taken and the result is a simple cycle of real edges, over parent edges, ending in the back edge; for any parent map the loop ends |
| `LockOrder.CycleSearch.Visit` | pkg/analyzer/lockorder.go:57-81 | gray nodes stay exactly the search path; finished nodes lead only to nodes finished earlier, except over edges that close a found cycle; new cycles are closed below the node, no edge twice; all found cycles are genuine and run over parent edges, which nodes seen keep |
| `LockOrder.CycleSearch.SortedEdges` | pkg/analyzer/lockorder.go:60-66 | the edges out of the node, all and only, none twice, by the names of their targets |
| `LockOrder.CycleSearch.Follow` | pkg/analyzer/lockorder.go:68-78 | afterwards the edge closes a found cycle or its target is finished; the only new closing edges are this one and edges out of nodes that were white |
| `LockOrder.CycleSearch.VisitAll` | pkg/analyzer/lockorder.go:83-107 | every source and target of an edge ends up finished, in the order of names with ties broken in any way; a node named before all others is the root of the search: it never gets a parent |
| `LockOrder.EveryCycleIsCut` | pkg/analyzer/lockorder.go:71-77 | without the closing edges of the found cycles no cycle is left |
| `LockOrder.OneCyclePerEdge` | pkg/analyzer/lockorder.go:71-77 | cycles with different closing edges are at most as many as edges |
| `LockOrder.CutIsFound` | pkg/analyzer/lockorder.go:71-77 | if no two different cycles have a pair of locks in common, a cycle that contains the closing edge of a found one is found itself |
| `LockOrder.OneCyclePerPairIntoRoot` | pkg/analyzer/lockorder.go:114-133 | found cycles that enter a node without parent from the same lock follow the same parent edges back, so they visit the same locks |
| `LockOrder.FindCycles` | pkg/analyzer/lockorder.go:57-107 | for every graph and naming: all cycles found are genuine and simple; every cycle of the graph contains the closing edge of a found one; so some are found exactly when there is a cycle (self-edges included) and none exactly when the edges can be ranked; at most one per edge; all of them if no two different ones have a pair of locks in common; of those that enter the first lock from one lock at most one, up to functions |
| `Digraph.RankedHasNoCycle` | pkg/analyzer/lockorder.go:43-45 | a ranking excludes every cycle |
| `Digraph.RankExcludesCircularWait` | pkg/analyzer/lockorder.go:43-45 | threads waiting only upwards in a ranking cannot wait in a circle |
| `Strings.LessIsTotal` | pkg/analyzer/lockorder.go:184-188 | label order is total |
| `Strings.LessIsLexicographic` | pkg/analyzer/lockorder.go:184-188 | one label is before another exactly if it is a proper prefix or has the smaller character at the first difference |
| `CycleDedup.FindMin` | pkg/analyzer/lockorder.go:160-166 | the first index with a least label: no label is less, and all earlier ones are greater |
| `CycleDedup.BuildKey` | pkg/analyzer/lockorder.go:154-173 | the text of the pairs from the least one around the cycle |
| `CycleDedup.DeduplicateCycles` | pkg/analyzer/lockorder.go:145-182 | keeps the cycles whose key does not occur earlier, in order |
| `CycleDedup.RenderIsInjective` | pkg/analyzer/lockorder.go:168-173 | over distinct, separator-free names a key can be read back to the pairs it was built from |
| `CycleDedup.KeyIdentifiesRotationClass` | pkg/analyzer/lockorder.go:154-173 | over such names two simple cycles have one key exactly when they are rotations of each other |
| `CycleDedup.OneRepresentativePerRotationClass` | pkg/analyzer/lockorder.go:145-182 | exactly one representative, the first seen, of each rotation class is kept, in order; the result is empty only if the input is |
| `CycleDedup.KeysIdentifyIffNamesDiffer` | pkg/analyzer/lockorder.go:154-173 | for names without separators: any two cycles over a set of locks have one key exactly when they are rotations of each other, if and only if the locks have different names |
| `CycleDedup.EqualNamesMergeDifferentCycles` | pkg/analyzer/lockorder.go:172-178 | names must differ: two self-cycles of different types printed alike are taken for one |
| `CycleDetection.CloserIsReported` | pkg/analyzer/lockorder.go:145-182 | over unambiguous names the representative of a found cycle still has the pair of its closing edge |
| `CycleDetection.OneWayMeansOneReported` | pkg/analyzer/lockorder.go:145-182 | if found cycles entering a lock from the same lock are alike, no two different such cycles are reported, up to rotation |
| `CycleDetection.DetectCycles` | pkg/analyzer/lockorder.go:45-110 | reports only genuine cycles, nothing exactly when there is no cycle, which is exactly when a ranking exists, at most one per edge; over unambiguous names repeats no rotation class, shares a pair of locks with every cycle of the graph, and reports all cycles if no two different ones have a pair in common; of different cycles that enter the first lock from one lock at most one |
| `MissedCycles.MissesACycle` | pkg/analyzer/lockorder.go:43-45 | on every graph with more different cycles than edges some cycle is not reported, whatever the names and the order |
| `MissedCycles.ShortListMissesOne` | pkg/analyzer/lockorder.go:43-45 | no list reports, up to rotation, all cycles of a longer family of different ones |
| `MissedCycles.HubsHaveMoreCyclesThanEdges` | pkg/analyzer/lockorder.go:43-45 | such a graph: 25 different cycles over 20 edges |
| `MissedCycles.MissesOneOfTwo` | pkg/analyzer/lockorder.go:43-107 | for any graph in which two different cycles have a pair of locks in common there are unambiguous names under which one of the two is not reported: the converse of the condition in `DetectCycles` |
| `Reach.FewStepsSuffice` | pkg/analyzer/interprocedural.go:152-154 | on n functions everything reachable is reachable in fewer than n hops |
| `FixedPoint.ChangeMeansMoreFunctions` | pkg/analyzer/interprocedural.go:152-156 | a sweep that still changes something has fewer predecessors than there are functions |
| `FixedPoint.ProgressStep` | pkg/analyzer/interprocedural.go:155-195 | after i sweeps the table contains everything within i hops and nothing unreachable |
| `FixedPoint.StableIsExact` | pkg/analyzer/interprocedural.go:155-195 | an unchanged table contains exactly what is reachable |
| `Interprocedural.Propagation.PassToCallers` | pkg/analyzer/interprocedural.go:161-174 | every caller that neither holds the lock nor is pre-publication gets the requirement, and nothing unjustified is added |
| `Interprocedural.Propagation.SweepNeeds` | pkg/analyzer/interprocedural.go:157-194 | one sweep in any order, with or without visiting entries inserted meanwhile, pushes every requirement over every hop; `changed` is exact |
| `Interprocedural.Propagation.PropagateNeeds` | pkg/analyzer/interprocedural.go:142-195 | requirements never exceed the reachable ones even if the cap stops the loop; on convergence they are exactly those; up to 1000 functions always converge |
| `Interprocedural.Propagation.TakeOver` | pkg/analyzer/interprocedural.go:208-220 | the caller gets all acquisitions of the callee and nothing unjustified is added |
| `Interprocedural.Propagation.SweepAcquired` | pkg/analyzer/interprocedural.go:207-220 | one pass over the call sites pushes every acquisition over every call |
| `Interprocedural.Propagation.PropagateAcquired` | pkg/analyzer/interprocedural.go:197-221 | transitive acquisitions are exactly the direct and imported ones of all reachable functions, under the same guarantees |
| `Interprocedural.Propagation.EdgesOfSite` | pkg/analyzer/interprocedural.go:328-346 | an edge from every held lock to every different lock the callee may acquire, at the call and in the caller, and no other new edge |
| `Interprocedural.Propagation.CollectOrderEdges` | pkg/analyzer/interprocedural.go:318-349 | the same for all call sites, and every new edge is one of those; existing edges stay |
| `Concurrency.BuildForwardCallGraph` | pkg/analyzer/concurrency.go:93-99 | callee lists contain exactly the recorded calls |
| `Concurrency.Expand` | pkg/analyzer/concurrency.go:29-34 | marks exactly the callees in addition and enqueues each newly marked one once |
| `Concurrency.Search` | pkg/analyzer/concurrency.go:19-37 | marks exactly the functions reachable from the entrypoints; each is enqueued exactly once |
| `Concurrency.ComputeConcurrentContext` | pkg/analyzer/concurrency.go:12-47 | a function is concurrent exactly when there is no entrypoint or a chain of recorded calls leads to it from one |
| `Reporting.Holds` | pkg/analyzer/reporter.go:23-32 | whether the guard is held on the instance, and the mode of its first entry |
| `Reporting.DeriveInitialRequirements` | pkg/analyzer/interprocedural.go:104-137 | a function requires a lock initially exactly if imported or if it has a non-constructor access without that guard |
| `Reporting.ShouldSuppress` | pkg/analyzer/reporter.go:65-74 | exactly when the function requires the lock and some recorded call site calls it |
| `Reporting.FindCaller` | pkg/analyzer/interprocedural.go:352-359 | whether any recorded call site calls the function |
| `Reporting.CheckViolations` | pkg/analyzer/reporter.go:15-61 | reports exactly the unsuppressed unguarded concurrent accesses and the concurrent writes under a shared guard |
| `Reporting.CheckInterproceduralViolations` | pkg/analyzer/reporter.go:500-535 | reports exactly the unsatisfied, unsuppressed requirements and the double locks at calls of concurrent callers |
| `CallChains.ReachableIffChain` | pkg/analyzer/interprocedural.go:142-195 | what the fixed points reach is what a chain of call sites, each passing the given test, leads down to |
| `CallChains.ReachableIffCalled` | pkg/analyzer/concurrency.go:19-37 | what is reachable from callers to callees is what a chain of call sites leads to |
| `Reporting.NeedsIffChain` | pkg/analyzer/interprocedural.go:142-195 | at the fixed point a function requires a lock exactly when a chain of calls, none holding the lock or pre-publication, leads from it to an unguarded access or imported requirement |
| `Reporting.MissingLockIsReportedAtRoots` | pkg/analyzer/reporter.go:512-525 | at the fixed point a missing lock is reported at a call exactly when the caller is concurrent and has no callers, and a chain of unsatisfied calls leads from the callee to an unguarded access or imported requirement |
| `Reporting.AccessIsReportedAtRoots` | pkg/analyzer/reporter.go:42-58 | an unguarded access is reported in place exactly when its function is concurrent and has no callers |
| `Reporting.FirstHopIsReported` | pkg/analyzer/reporter.go:500-526 | every unsatisfied chain from a root to an access is reported at its first hop, or at the access if it is empty |
| `Reporting.AccessIsAccountedForIffRootAbove` | pkg/analyzer/reporter.go:63-74 | an access is reported, there or at a call leading to it, exactly when some unsatisfied chain reaches it from a concurrent function without callers |
| `Reporting.RecursionHidesAnAccess` | pkg/analyzer/reporter.go:65-74 | a concurrent unguarded access whose function only calls itself is reported nowhere |
| `Reporting.NonConcurrentCallerHidesAnAccess` | pkg/analyzer/reporter.go:500-520 | a concurrent unguarded access whose function is also called from non-concurrent code is reported nowhere |
| `Reporting.DoubleLockIsReportedExactly` | pkg/analyzer/reporter.go:528-533 | for a concurrent caller a double lock is reported exactly when it holds a lock that some function reachable from the callee acquires |
| `AccessAnalysis.FilterConstructors` | pkg/analyzer/inference.go:18-25 | the accesses outside constructors, each as often as it occurs and in order: increasing positions, all and only those outside |
| `AccessAnalysis.IsImmutableField` | pkg/analyzer/inference.go:86-94 | exactly when all accesses are reads |
| `AccessAnalysis.InferGuards` | pkg/analyzer/inference.go:11-41 | in any order of fields: a local field written outside constructors gets the guard that its accesses there show, if any (most ballots, smallest index, writes first); every other field keeps the imported guard |
| `AccessAnalysis.GuardIsShown` | pkg/analyzer/inference.go:99-134 | the inferred guard is elected by the writes, and then needed exclusively; if no write holds a mutex, by all accesses; if none does there is none |
| `AccessAnalysis.ReportsAreExact` | pkg/analyzer/reporter.go:500-535 | what both checks report on fully propagated facts is the specified set: each of the four kinds of report in terms of observations, call chains and imported facts alone |
| `AccessAnalysis.AnalyzeAccesses` | pkg/analyzer/golintmu.go:155-183 | all phases from observations to reports: if no propagation was cut off (none is with up to 1000 functions), unguarded accesses are reported in place exactly at concurrent functions without callers, missing locks exactly at first hops of open call chains from such functions, so an access is accounted for exactly when such a chain leads to it; writes under a shared guard exactly in concurrent functions; double locks exactly at calls of concurrent callers holding what a chain of calls comes to acquire |
| `ReturnsHolding.CountFunctionReturns` | pkg/analyzer/reporter.go:216-226 | the number of return instructions |
| `ReturnsHolding.GroupCandidates` | pkg/analyzer/reporter.go:194-214 | per function and lock, exactly the return positions where the lock is a candidate |
| `ReturnsHolding.CountDecidesReturnsHolding` | pkg/analyzer/reporter.go:228-233 | equal counts hold exactly when no two returns share a position, there is a return, and every one is a candidate for the lock |
| `ReturnsHolding.ComputeReturnsHolding` | pkg/analyzer/reporter.go:194-234 | a function is an acquire helper for a lock exactly when its returns have distinct positions and all are candidates for it |
| `ReturnsHolding.LeakExcludesAcquireHelper` | pkg/analyzer/reporter.go:301-320 | a reported leak excludes an acquire helper; with distinct positions another return of the function is no candidate for the lock |
| `ReturnsHolding.ReportLeaks` | pkg/analyzer/reporter.go:301-320 | reports exactly the candidates not excused by a requirement, a deferred-lock typo or an acquire helper |
| `AcquireHelpers.TableIsOwned` | pkg/analyzer/ssawalk.go:333-353 | after all walks candidates are filed under their own position, and those of a function at its own returns |
| `AcquireHelpers.HeldAtReturnIff` | pkg/analyzer/reporter.go:200-214 | a lock is a candidate of a return exactly when the return is reachable, no function walked later returns at its position, and the lock leaks there on its paths |
| `AcquireHelpers.AcquireHelperIff` | pkg/analyzer/reporter.go:191-234 | all returns of a function are candidates for a lock, with distinct positions, exactly when on all paths to each of them, reachable and not overwritten, a lock with that key is held and not always pending to be unlocked; one direction for any modes |
| `AcquireHelpers.AnalyzeLeaks` | pkg/analyzer/golintmu.go:171-176 | the leak phases on the final table, with the value types of each function: acquire helpers are exactly those functions; every reported leak is one on paths, held since the reported acquisition on one of them, and not excused; at a position of one return the reported leaks are exactly those on paths that are not excused |
| `Resolver.UnwrapVisited` | pkg/analyzer/resolver.go:74-88 | terminates on every, possibly cyclic, phi graph and yields the specified value and visited set |
| `Resolver.ResolvePhiIfUniform` | pkg/analyzer/resolver.go:93-109 | the value all edges unwrap to, or none |
| `Resolver.UnwrapSSAValue` | pkg/analyzer/resolver.go:46-49 | unwrapping starts with nothing visited |
| `Resolver.UnwrapPreservesValue` | pkg/analyzer/resolver.go:74-109 | in every valuation in which each phi equals one of its edges, the unwrapped value equals the original, from any visited set |
| `PhiRoutes.UnwrapIff` | pkg/analyzer/resolver.go:74-109 | from any visited set the result is a non-phi exactly if all leaves are that value and every phi below has edges, is reached once and was not visited; then exactly the phis reached are visited in addition |
| `PhiRoutes.UnwrappedIff` | pkg/analyzer/resolver.go:45-49 | a value is unwrapped to a non-phi if and only if everything below that is no phi is that value and every phi below has edges and is reached along one route only |
| `PhiRoutes.UniformPhiIsUnwrapped` | pkg/analyzer/resolver.go:45-49 | in particular a phi whose edges are one non-phi value is unwrapped to it |
| `PhiRoutes.ReachedTwiceIsNotUnwrapped` | pkg/analyzer/resolver.go:93-97 | and whatever reaches a phi along two routes stays a phi |
| `PhiRoutes.SharedPhiIsNotUnwrapped` | pkg/analyzer/resolver.go:93-97 | a phi that merges one uniform phi with itself is not unwrapped |
| `PhiRoutes.LoopPhiIsNotUnwrapped` | pkg/analyzer/resolver.go:89-97 | nor is the phi of a loop that does not change its variable |
| `Resolver.CanonicalizeBase` | pkg/analyzer/resolver.go:58-72 | terminates; the result ends a trail of the value unwrapped and then, from each load, its cell unwrapped; it is a load only if it is the first repetition on the trail; a value that is neither phi nor load is its own base |
| `Resolver.BaseIsUnique` | pkg/analyzer/resolver.go:58-72 | every value has one such base, so the trail pins the result |
| `Resolver.LoadsFromOneCellAgree` | pkg/analyzer/resolver.go:51-57 | two loads from one cell get the same canonical base whenever following the cell ends |
| `PhiBases.PhiStaysPhi` | pkg/analyzer/resolver.go:74-109 | what unwrapping leaves a phi is a phi, though maybe another one, when it is unwrapped again |
| `PhiBases.BasesAgreeIff` | pkg/analyzer/resolver.go:58-72 | a value has the base of what it unwraps to if and only if unwrapping that once more changes nothing, in particular whenever it is no phi |
| `PhiBases.BasesCanDiffer` | pkg/analyzer/resolver.go:89-97 | and not always: five phis over one value in which a phi unwraps to a second one that has another base, because the visited set of the first pass is shared |
| `Inference.PickMostFrequentMutex` | pkg/analyzer/inference.go:139-162 | the non-self mutex with most ballots, one for each held entry that names it, smallest index on ties, none if there are no ballots, whatever the map order |
| `Inference.CountIsBallots` | pkg/analyzer/inference.go:141-151 | the count of a mutex is the number of pairs of an observation that votes and an entry in it that names the mutex |
| `Inference.InferFieldGuard` | pkg/analyzer/inference.go:99-134 | decided by the writes if any write held a mutex, otherwise by all accesses; exclusive access is needed exactly if the writes decided |
| `Inference.GuardIgnoresOrder` | pkg/analyzer/inference.go:99-162 | the guard depends neither on the order of the observations nor on the order of the mutexes listed in them |
| `DeadlockFreedom.MayAcquireIsPropagated` | pkg/analyzer/interprocedural.go:197-221 | every lock that some chain of reachable recorded calls comes to acquire is among the callee's transitive acquisitions |
| `DeadlockFreedom.WaitIsAnEdge` | pkg/analyzer/interprocedural.go:318-349 | acquiring while surely holding, directly or through any chain of recorded calls to a different key, is an edge of the final graph |
| `DeadlockFreedom.CertificateExcludesDeadlock` | pkg/analyzer/lockorder.go:43-110 | under a ranking that every possible wait climbs no set of waiting threads forms a circle |
| `DeadlockFreedom.JustifiedStep` | pkg/analyzer/ssawalk.go:19-23 | walking one more function keeps every call site a reachable call, every acquisition fact imported or a reachable acquisition, and every edge a nesting on a path |
| `DeadlockFreedom.AcquiredHasACallPath` | pkg/analyzer/interprocedural.go:197-221 | a transitive acquisition, even under a propagation cut off, has a chain of recorded calls to a function that acquires the lock or is imported as doing so |
| `DeadlockFreedom.EdgesStandForWaits` | pkg/analyzer/interprocedural.go:318-349 | every edge of the final graph stands for an acquisition of the second lock on some path that holds the first, or for a call under the first from which recorded calls lead to an acquisition of the second |
| `DeadlockFreedom.Collector.CollectAll` | pkg/analyzer/ssawalk.go:19-23 | all functions are walked in order, all their records are collected and nothing else: every site is a reachable call, every acquisition fact imported or a reachable acquisition, every edge a nesting on a path; the leak table is that of all walks |
| `DeadlockFreedom.AnalyzeLockOrder` | pkg/analyzer/golintmu.go:149-169 | every edge of every reported cycle stands for an acquisition on some path under a held lock, directly or through recorded calls; if no cycle is reported, and acquisitions converged (always with up to 1000 functions), then a ranking exists that every wait while holding a lock on all paths, directly or through recorded calls, climbs, and no circle of such waits is possible; also returns the leak table of all walks |

## Left out

- LiteralWalk.CodedWalkIsSafeIff: the equivalence is with never leaving the first comparison, not with a right result.
- LiteralAgreement.CodedWalkAgreesIfHarmless: sufficient only; where paths disagree at a block that changes the locks held, the result of the coded walk can depend on the order of successors (`SuccessorOrderDecidesCodedWalk`), so no condition on paths decides it.
- LiteralAgreement.CodedWalkIsExactIfHarmless: sufficient only, for the same reason.
- LiteralAgreement.RewalkIsNeutral: ignores the positions at which held locks were acquired, which the coded walk can record differently.
- LockOrder.CycleSearch.SortedEdges: does not write the sorted list back into the graph, where the code sorts in place; the order is not observed afterwards.
- WalkTheorems.EntryIsMeetOverAllPaths: the converse for locks entered in two modes is not stated, because the result then depends on the visiting order (`VisitingOrderDecidesMixedModes`).
- RecordTheorems.CertainMismatchIsReported: for locks that no block is entered with in two modes; a lock held in the other mode on some paths only may or may not be reported, depending on the visiting order.
- MergeReports.DisagreementIsReported: for merge points that no back edge enters, since the code never reports arrivals over back edges; a lock is named only where paths agree on pending unlocks, because the code marks the block as reported also when only these differ. That a block without source position or a lock without key is not printed is message text.
- WalkTheorems.CertainOrderIsRecorded: edges for locks held on some paths only depend on the visiting order and are not promised.
- DeadlockFreedom.AnalyzeLockOrder: speaks of locks held on every path to an acquisition or call, without mode clash; across calls, of bases with one pointer layer and of calls that leave a call site, as the analyser records them.
- LockStates.LockState.Diff: returns the two sides as sets; their order by field index only affects the order of messages.
- CycleDedup.DeduplicateCycles: builds all keys before it filters, where the code alternates; the result is the same.
- Walk.Walker.Arrive: stores a snapshot on a re-walk, where the code stores the live object; LiteralWalk models the latter.
- Walk.Walker.WalkBlock: is the recursion of the snapshot form; CodedPass says what carries over to the code.
- Walk.Walker.WalkFunction: is about the snapshot form too.
- CycleDetection.DetectCycles: promises an enumeration of all cycles only if no two different ones have a pair of locks in common. The converse is about some naming (`MissesOneOfTwo`); for a given naming of a graph with such cycles, whether one is missed is not characterised.
- LockOrder.FindCycles: likewise.
- AcquireHelpers.AcquireHelperIff: the direction from paths to the table needs that no block is entered with the lock in two modes.
- Field-access observations made by the walk, which keep the state of the first walk of a position and so promise no must-hold property; they are inputs of `AccessAnalysis` and `Inference`.
- Exported-field warnings and checks of callers of acquire helpers: plain loops over facts that are modelled.
- Concurrent-context filtering of lock-order cycles: it looks only at the kept representative of a class.
- Provenance chains of the verbose mode, message texts, and the rule that a report without a printable name is dropped outside the walk.
- Resolution of locks, fields and entrypoints from Go types and SSA; constructor-likeness and pre-publication are arbitrary predicates here.
- Whether following a load to its cell identifies the right heap object: canonical bases are only related to each other.
- Comment annotations, import and export of facts (imported facts are initial values of the fixed points), flags and the command.
