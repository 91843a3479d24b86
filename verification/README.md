# Verification of a combined CPU and GPU simulator

A Dafny 4.11 model of the parts of the simulator whose correctness is not visible in any one
function, with proofs that hold for all inputs, all runs and all reachable states.
`dafny verify dfyconfig.toml` checks everything.

**SIMT reconvergence stack** (`SimtStack`, `SimtSafety`, `SimtRuns`). A warp executes in lock step
and keeps a stack of lane masks, PCs and reconvergence PCs. `SimtStack.Stack` is the stack with its
update loop, proved against the function `Updated` on stack values. The invariant says that the
topmost entry that holds a live lane holds that lane's own PC. An update can break it in one way
only, and `RefinesIff` gives the exact condition. In every run whose steps meet that condition the
lock-step warp simulates independent scalar threads, and the stack stays below twice the number of
lanes plus the pending calls.

**Which kernels run safely** (`PostDominance`, `PostDominators`, `Reconvergence`, `SimtFlow`,
`SimtUpdates`, `SimtFewLanes`, `SimtHazards`, `KernelRuns`, `KernelFailures`). Nothing is assumed of
the reconvergence points. The data-flow passes over basic blocks are proved to compute the immediate
post-dominator of every block; the table built from them is proved to name the immediate
post-dominator of every branch among instructions; and a run of the kernel is one in which each
update gets what the look-up in this table returns: the null PC for any instruction but a branch,
and the return address for a branch whose paths only meet at the exit. Not every kernel runs safely
with this table. `KernelRuns.KernelSafeIff` is the exact condition for kernels without calls: no run
ever fails an assertion of `ptx_exec_inst` if and only if the kernel is *clean* for the number of
lanes of the warp, a property of its instruction graph, its table and its return address alone. A
single lane is always safe. For two lanes clean means

- from a reachable branch whose paths only meet at the exit no lane can come to the return address;

and for three or more also

- no instruction that splits the warp without being a branch, such as a predicated break, lies
  between a branch that can be reached and its reconvergence point;
- none is followed by a branch whose paths only meet at the exit.

The last two hold when all splits are branches, the first when no edge enters the return address or
every branch has a block to reconverge at (`BranchesOnly`, `NoWayBackIf`).
`KernelRuns.KernelRefinesScalar` is the whole chain: each lane of a warp for which the kernel is
clean makes a run of its own, and only live lanes are executed.

**Programs with calls** (`SimtCalls`, `ProgramRuns`). A call pushes a CALL entry, and the callee runs
on the part of the stack above it, its frame, with its own return address. The invariant says of each
frame what it says of the stack of a kernel without calls, the lanes of a caller standing where they
made the call; a step of the top frame updates it as a stack of its own, and a return leaves the
caller as if its lanes had gone on to the next instruction. `ProgramRuns.ProgramRefinesScalar` is the
chain for programs whose functions are each analysed: if the kernel is clean and every callee returns
as one, that is, only branches split it, each branch has a block to reconverge at, and it ends only
in returns that are not predicated, then every lane makes a run of its own through calls, returns
and recursion.

**CPU miss path** (`Cache`, `Window`, `MissPath`, `MissSafety`, `MissRuns`, `MissEffects`,
`MissEngine`). Reorder
windows, a shared pool of memory transactions with its state machine, MSHR tables, two private cache
levels and an arbitrary network. `MissPath` is the system of atomic steps and its invariant,
`MissSafety` proves that every step keeps it, `MissRuns` draws the conclusions over all runs (no
lost wakeup, windows and pool agree, every fair schedule empties the pool), `MissEffects` says what
each step does in terms of look-ups, positions and times, and `MissEngine` is the code over vectors,
proved to make exactly those steps. `Cache.Unit` and `Window.Rob` are the cache and the circular
reorder buffer in place, proved against the functions the steps use.

**Memory coalescing** (`Coalescer`, `AtomicCoalescer`, `WarpMemory`, `WarpTransactions`,
`SharedMemory`, `BankConflicts`). The one-pass grouping of a subwarp's requests against the
request-by-request protocol of the CUDA C Programming Guide 3.2, section G.3.2.2; the first-fit rule
for atomics, where each lane ends up and why no rule needs fewer transactions; the reduction to the
smallest block; the shared-memory conflict count. `WarpTransactions` and `BankConflicts` say what the
transactions and the cycles of a warp are in terms of its lanes and their addresses alone.

**Two schedulers** (`Streams`, `CtaBarrier`). The CUDA stream manager, and the loop that runs the
warps of a thread block between barriers.

`Collections` holds facts about finite sets, maps and sequences.

Six findings. A diverging step may be given any reconvergence PC, even the null PC: the stack stays
right as long as no live lane goes to the point the top entry itself waits for, unless that is also
the new reconvergence point; `LostLane` is a step that violates this and loses a lane. The table has
no point for a predicated break, and a break inside the region of a branch makes exactly that step
(`KernelFailures.BreakFails`). A kernel's base frame returns to PC 0, where the first function that is
assembled starts: a branch of that kernel whose paths only meet at the exit makes its warp wait at
its own first instruction, and a lane that branches back there takes lanes along that have finished
(`KernelFailures.ZeroFails`, `ZeroStep`). The lanes of a callee with two returns come back to a CALL
entry that never reconverges and runs on past the point of its caller, until finished lanes lie on
top of live ones (`KernelFailures.TwoReturnsFail`). The link on from a predicated return is looked for one byte
after it and so never made, which changes no post-dominator (`LinksSuffice`). And the branch of the
miss path that reports data "magically" already in the cache is dead (`ReplyMissesMlc`).

## Model

| member | source | states |
|---|---|---|
| SimtStack.GroupsPartition | src/abstract_hardware_model.cc:635-658 | the groups taken are exactly the classes of live lanes under equal next PC, each once, by decreasing highest lane |
| SimtStack.ExtractGroup | src/abstract_hardware_model.cc:637-653 | one pass drops the finished lanes and takes all lanes that go where the highest live one goes |
| SimtStack.Stack.constructor | src/abstract_hardware_model.cc:550-560 | a new stack is empty |
| SimtStack.Stack.Launch | src/abstract_hardware_model.cc:562-571 | launching leaves one NORMAL entry with the start PC and the mask |
| SimtStack.Stack.Update | src/abstract_hardware_model.cc:619-731 | the loop of pops, overwrites and pushes leaves exactly the stack `Updated` gives, for branches, exits, calls and returns |
| SimtStack.Stack.Round | src/abstract_hardware_model.cc:637-722 | one turn of the loop handles exactly the next group, and ends the loop only at a call or return |
| SimtStack.Stack.PushCall | src/abstract_hardware_model.cc:661-672 | a call pushes one CALL entry with the group |
| SimtStack.Stack.PopCall | src/abstract_hardware_model.cc:674-687 | a return pops the CALL entry, and the caller's entry too if it reconverges there |
| SimtStack.Stack.Place | src/abstract_hardware_model.cc:690-722 | a group reconverges, or turns the old top into a reconvergence entry, or overwrites the last entry |
| SimtSafety.LaunchEstablishes | src/abstract_hardware_model.cc:562-571 | the invariant holds after launch |
| SimtSafety.UpdateKeeps | src/abstract_hardware_model.cc:619-731 | every update that loses no lane keeps the invariant: nested masks, no entry at its own reconvergence PC, each live lane owned by an entry with its PC |
| SimtSafety.RefinesIff | src/abstract_hardware_model.cc:693-710 | after an update every live lane is found at its own PC if and only if, when the live lanes split, none goes to the old top's reconvergence PC unless that is the new one |
| SimtSafety.LostLane | src/abstract_hardware_model.cc:697-710 | a concrete step, as a break makes it, that violates the condition and loses a lane, for every point but the one the lane goes to |
| SimtSafety.BoundedDepth | src/abstract_hardware_model.cc:635-725 | at most 2n - 1 entries for n lanes, plus one for each pending call |
| SimtSafety.FamilyBound | src/abstract_hardware_model.cc:635-725 | a family of masks that are nested or disjoint has fewer than twice as many members as lanes |
| SimtRuns.LockStepKeeps | src/abstract_hardware_model.cc:753-779 | one step of the warp, on arbitrary instructions, that meets the condition of `RefinesIff` keeps the invariant |
| SimtRuns.RunKeeps | src/abstract_hardware_model.cc:753-779 | so it holds all along every run in which each step meets that condition |
| SimtRuns.FetchInSync | src/cuda-sim/cuda-sim.cc:1144 | in such a run the PC fetched for the warp is the own PC of every lane of the top mask that has not finished; that none has finished is `SimtFlow.CleanIsSafe`, and the assertion needs both |
| SimtRuns.LockStepRefinesScalar | src/abstract_hardware_model.cc:733-769 | whatever a warp does in a run in which each step meets the condition of `RefinesIff`, each lane has made a run of its own as a scalar thread |
| SimtRuns.RunDepth | src/abstract_hardware_model.h:256-265 | the stack is bounded in every run in which each step meets that condition |
| SimtFlow.LaunchFlow | src/abstract_hardware_model.cc:562-571 | the launched warp meets the invariant of runs with the table |
| SimtFlow.TableKeepsLanes | src/abstract_hardware_model.cc:693-710 | while entries wait as the invariant says, a step with the point of the table meets the condition of `RefinesIff`, whatever the lanes of the top entry do |
| SimtFlow.UpdateKeepsFlow | src/abstract_hardware_model.cc:619-731 | a step of a clean kernel keeps that invariant: each entry waits for a post-dominator of its PC, where the next entry with its lanes stays, or for the exit, and only entries that stand for the exit hold finished lanes |
| SimtFlow.FlowStepKeeps | src/abstract_hardware_model.cc:753-779 | so does the step of the machine, which is then one that loses no lane |
| SimtFlow.ParkedIsNotTop | src/abstract_hardware_model.cc:772-779 | while a lane is left, the top entry, which may stand for the exit, holds no finished lane |
| SimtFlow.FlowRunIsRun | src/abstract_hardware_model.cc:753-779 | every run of a clean kernel meets the conditions of `LockStepRefinesScalar` |
| SimtFewLanes.FewKeeps | src/abstract_hardware_model.cc:619-731 | for one or two lanes, and no way back if there are two, a step loses no lane and keeps the shape of the stack: entries that wait for nothing, or one with both lanes below a lane on its own that is on its way to its point or to the exit |
| SimtFewLanes.FewRunKeeps | src/abstract_hardware_model.cc:753-779 | so every run on so few lanes meets the conditions of `LockStepRefinesScalar`, whatever else the kernel does |
| SimtFlow.CleanIsSafe | src/cuda-sim/cuda-sim.cc:1144-1157 | in every run of a clean kernel, while a lane is left, all lanes of the top mask are alive and at the PC that is executed: neither assertion fails |
| SimtHazards.InsideIsStuck | src/abstract_hardware_model.cc:697-710 | if a split without a point lies inside the region of a reachable branch, three lanes have a run that fails |
| SimtHazards.AfterIsStuck | src/abstract_hardware_model.cc:697-710 | so they have if it is followed by a branch that reconverges at the return address |
| SimtHazards.WayBackIsStuck | src/abstract_hardware_model.cc:763-764 | two lanes have a run that fails if one can come to the return address from a branch whose paths only meet at the exit |
| SimtHazards.CleanRun | src/cuda-sim/cuda-sim.cc:1144-1157 | in every run of a kernel that is clean for the lanes of its warp no update loses a lane, and while a lane is left all lanes of the top mask are alive and at the PC that is executed |
| SimtHazards.SafeIff | src/cuda-sim/cuda-sim.cc:1144-1157 | for any number of lanes: no run fails an assertion if and only if the kernel is clean for that many |
| PostDominance.ImmediateExists | src/cuda-sim/ptx_ir.cc:658-660 | a block that reaches the exit has an immediate post-dominator |
| PostDominance.ImmediateUnique | src/cuda-sim/ptx_ir.cc:651-653 | and only one |
| PostDominators.FunctionInfo.Intersect | src/cuda-sim/ptx_ir.cc:520-532 | the loop computes the intersection |
| PostDominators.FunctionInfo.Pass | src/cuda-sim/ptx_ir.cc:605-618 | one pass keeps all post-dominators, and either shrinks some set or has reached a fixed point |
| PostDominators.FixedPoint | src/cuda-sim/ptx_ir.cc:603-619 | at a fixed point each set is exactly the set of post-dominators, by paths |
| PostDominators.FunctionInfo.FindPostdominators | src/cuda-sim/ptx_ir.cc:591-620 | the iteration ends, with exactly the post-dominators of every block |
| PostDominators.FunctionInfo.Thin | src/cuda-sim/ptx_ir.cc:634-648 | erasing while iterating leaves exactly the immediate post-dominator |
| PostDominators.FunctionInfo.FindIpostdominators | src/cuda-sim/ptx_ir.cc:622-662 | every block but the exit gets its immediate post-dominator, and the counting assertions hold |
| Reconvergence.LinksSuffice | src/cuda-sim/ptx_ir.cc:437-450 | the way on from a predicated return, which is never linked, changes no post-dominator |
| Reconvergence.Analyse | src/cuda-sim/cuda-sim.cc:266-267 | the two passes leave every block with its immediate post-dominator, from the links as they are |
| Reconvergence.BlockToPc | src/cuda-sim/ptx_ir.cc:773-790 | the first PC of a block's immediate post-dominator is the immediate post-dominator of its last PC among instructions |
| Reconvergence.GetReconvergencePairs | src/cuda-sim/ptx_ir.cc:769-805 | the table has an entry for every block that ends in a branch, and only such entries, each with the start of its immediate post-dominator or the mark for the return |
| Reconvergence.ReconvergencePc | src/cuda-sim/cuda-sim.cc:1949-1971 | the search of the table, with the return address put in for its mark, gives exactly `Point`: the null PC unless the instruction is a branch |
| Reconvergence.PointOk | src/cuda-sim/ptx_ir.cc:779-795 | what a branch gets is its immediate post-dominator among instructions, the return address standing for the exit, and it has no edge to the exit |
| Reconvergence.FlowOfOk | src/cuda-sim/ptx_ir.cc:425-467 | an analysed kernel, with any return address, is one that the results about runs are about |
| KernelRuns.KernelSafeIff | src/abstract_hardware_model.cc:753-779 | for an analysed kernel and any number of lanes: no run with the table fails an assertion if and only if the kernel is clean for that many |
| KernelRuns.KernelRefinesScalar | src/abstract_hardware_model.cc:753-779 | the whole chain: in every run with the table of a kernel clean for the lanes of its warp each lane makes a scalar run and only live lanes are executed |
| KernelRuns.UntabledIff | src/cuda-sim/ptx_ir.cc:488-511 | the splits without a point are exactly the ends of blocks with two successors that are not branches |
| KernelRuns.BranchesOnly | src/cuda-sim/ptx_ir.cc:779 | if all splits are branches, a kernel is clean if and only if nothing leads back to the return address from a branch whose paths only meet at the exit |
| KernelRuns.NoWayBackIf | src/cuda-sim/ptx_sim.cc:168 | nothing does if no edge enters the return address, or if every branch has a block to reconverge at |
| KernelFailures.BreakFails | src/cuda-sim/ptx_ir.cc:488-511 | a predicated break in the region of a branch: the analysis is right, the break gets the null PC, and exactly the warps of three or more lanes have a run that fails |
| KernelFailures.ZeroFails | src/cuda-sim/cuda-sim.cc:177-203 | a kernel at PC 0, all of whose branches meet only at the exit: exactly the warps of two or more lanes have a run that fails |
| KernelFailures.ZeroStep | src/abstract_hardware_model.cc:690-695 | its failing step: no lane is lost, but a finished lane comes to the top |
| KernelFailures.TwoReturnsFail | src/abstract_hardware_model.cc:674-695 | a callee with two returns: its branch waits in the CALL entry, the returns only reconverge there, the CALL entry runs on past the caller's point, and the end of its lanes leaves them on top of a live one |
| SimtCalls.UpdatedFrame | src/abstract_hardware_model.cc:690-722 | an update that is no call and no return changes the frame above a CALL entry as it would a stack of its own, the CALL entry staying one |
| SimtCalls.PlainKeeps | src/abstract_hardware_model.cc:619-731 | a step of the top frame loses no lane and keeps the invariant of every frame |
| SimtCalls.CallKeeps | src/abstract_hardware_model.cc:661-672 | so does a call, which starts the callee's frame with the lanes of the caller's entry |
| SimtCalls.ReturnsAsOne | src/abstract_hardware_model.cc:674-687 | a callee that returns as one executes its return from the CALL entry alone, with all lanes that were called |
| SimtCalls.ReturnKeeps | src/abstract_hardware_model.cc:674-687 | the return leaves the caller's frame as if its lanes had stepped on from the call to the return address, and keeps the invariant |
| SimtCalls.ProgramStepKeeps | src/abstract_hardware_model.cc:748-769 | every step of a program, the return address being that of the first lane left in the warp, is a legal lock-step that keeps the invariant |
| SimtCalls.ProgramRunIsRun | src/cuda-sim/cuda-sim.cc:1144-1157 | every run of a program with a clean kernel and callees that return as one meets the conditions of `LockStepRefinesScalar`, and while a lane is left all lanes of the top mask are alive and at the PC that is executed |
| ProgramRuns.TameIf | src/cuda-sim/ptx_ir.cc:425-467 | an analysed function whose blocks split only in branches, whose branches all have a block to reconverge at, and which ends only in unpredicated returns, returns as one |
| ProgramRuns.ProgramRefinesScalar | src/cuda-sim/instructions.cc:1318-1322 | the whole chain with calls: each lane of a warp makes a scalar run through calls and returns, and only live lanes are executed |
| Cache.FloorLog2 | src/cpu-sim/cache.cpp:1134-1145 | the number of bits: 2 to the result exceeds the argument, and half of that does not |
| Cache.Log2Mask | src/cpu-sim/cache.cpp:1146-1157 | the mask is 2 to the argument, less one |
| Cache.Shifts | src/cpu-sim/cache.cpp:1050-1060 | for power-of-two sizes the shifts and masks are the exponents of line size and set count |
| Cache.TagAndSet | src/cpu-sim/cache.cpp:82-87 | tag and set together identify the line: equal for two addresses exactly when the lines are equal |
| Cache.LinesInTurn | src/cpu-sim/cache.cpp:82-87 | lines are numbered from zero up, and fall into the sets in turn |
| Cache.LookupIsContents | src/cpu-sim/cache.cpp:47-103 | a look-up agrees with the contents as a map from line number to state |
| Cache.FillLookup | src/cpu-sim/cache.cpp:453-572 | after a fill the line is found, and every other line as before or not at all |
| Cache.FillContents | src/cpu-sim/cache.cpp:453-572 | a fill adds the line to the map and removes at most one other, the victim of a full set; the cache stays valid |
| Cache.FillAdmits | src/cpu-sim/cache.cpp:453-572 | after a fill of a line that is not there it is found with its state, and at most one other line is gone |
| Cache.FillReplaces | src/cpu-sim/cache.cpp:453-572 | the line goes in with the stamp of the clock where its set gives way: at the first invalid line, or if there is none at the first with the smallest stamp; no other line changes |
| Cache.AccessContents | src/cpu-sim/transaction.cpp:30-63 | a hit or a miss leaves the map alone |
| Cache.AccessStamps | src/cpu-sim/transaction.cpp:30-63 | a hit advances the clock and stamps its line with it, a miss changes nothing |
| Cache.HitIsMostRecent | src/cpu-sim/transaction.cpp:57-60 | a hit makes the line the latest stamped of its set |
| Cache.OtherSetsKeepMostRecent | src/cpu-sim/cache.cpp:489-508 | fills of other sets keep it so |
| Cache.MostRecentSurvivesFill | src/cpu-sim/cache.cpp:489-508 | with two or more ways the line last hit in a set survives the next fill of that set |
| Cache.Unit.constructor | src/cpu-sim/cache.cpp:1005-1062 | a new cache is valid and empty |
| Cache.Unit.LookUp | src/cpu-sim/cache.cpp:47-103 | the search returns the state of the line and stamps it only when asked |
| Cache.Unit.DetermineMiss | src/cpu-sim/transaction.cpp:30-99 | reports a miss exactly when the line is not valid, and moves the replacement clock only on a hit |
| Cache.Unit.VictimLookUp | src/cpu-sim/cache.cpp:453-510 | claims the first invalid line, or names the least recently stamped one |
| Cache.Unit.ReplaceVictim | src/cpu-sim/cache.cpp:516-572 | with what the victim look-up returned, completes exactly the fill |
| Cache.Unit.Insert | src/cpu-sim/cpu_engine.cpp:370-379 | on a miss, victim look-up followed by replacement makes exactly the fill and keeps the cache valid |
| Window.RetiresInOrder | src/cpu-sim/processor.cpp:350-466 | what retires in a cycle is the oldest part of the window, ready and due, with at most one memory instruction, the last; and nothing stops it early |
| Window.ExecutedEntries | src/cpu-sim/processor.cpp:704-715 | exactly the leading non-memory entries, up to the width, become ready |
| Window.CountsAre | src/cpu-sim/processor.cpp:682-691 | the counters of the window count its memory instructions, and those of them that are not ready |
| Window.Rob.IsPresent | src/cpu-sim/processor.cpp:287-297 | true exactly when an entry of the window has this address and transaction |
| Window.Rob.GetEntryId | src/cpu-sim/processor.cpp:299-309 | the slot of the oldest such entry, or -1 when there is none |
| Window.Rob.SetReady | src/cpu-sim/processor.cpp:330-348 | exactly that entry becomes ready, and the counter of unfinished entries still counts |
| Window.Rob.Push | src/cpu-sim/processor.cpp:605-627 | the entry written at the free slot is the new end of the queue |
| Window.Rob.ExecuteNonMemory | src/cpu-sim/processor.cpp:704-715 | the loop, which may run past the newest entry and round the array, does to the queue what `Executed` says, for every width |
| Window.Rob.Retire | src/cpu-sim/processor.cpp:350-466 | the loop removes exactly the retiring part of the queue |
| Window.Rob.Pop | src/cpu-sim/processor.cpp:413-438 | one entry leaves and the ring stays consistent |
| MissSafety.FetchMemoryKeeps | src/cpu-sim/processor.cpp:1144-1233 | a fetched memory instruction, hit, filtered or missing, keeps the invariant |
| MissSafety.RetireKeeps | src/cpu-sim/processor.cpp:350-466 | retiring never drops an entry that a transaction still needs |
| MissSafety.VisitKeeps | src/cpu-sim/cpu_engine.cpp:281-470 | every transition of a transaction keeps the invariant |
| MissSafety.VisitRequestKeeps | src/cpu-sim/cpu_engine.cpp:293-357 | so does a request that hits, merges, is sent, or finds no room |
| MissSafety.ReplyMissesMlc | src/cpu-sim/cpu_engine.cpp:370-399 | a transaction whose reply is back leads the MSHR entry of its line, and the line is not in the MLC: the other branch is dead |
| MissSafety.VisitReplyKeeps | src/cpu-sim/cpu_engine.cpp:358-432 | a reply that fills the caches and releases the MSHR entry keeps the invariant |
| MissSafety.ExitFindsEntry | src/cpu-sim/cpu_engine.cpp:437-449 | the entry of a leaving transaction is present and holds its id: both checks succeed |
| MissSafety.ExitKeeps | src/cpu-sim/cpu_engine.cpp:437-468 | a transaction that leaves keeps the invariant |
| MissSafety.DeliverKeeps | src/cpu-sim/processor.cpp:62-79 | a reply taken from the queue finds its transaction and keeps the invariant |
| MissSafety.TakeReplyKeeps | src/cpu-sim/processor.cpp:81-100 | so does taking an outstanding reply from the network, in any order |
| MissRuns.StepKeeps | src/cpu-sim/cpu_engine.cpp:262-475 | every atomic step of every interleaving keeps the invariant |
| MissRuns.NoLostWakeup | src/cpu-sim/cache.cpp:796-856 | in every reachable state a waiting transaction is in exactly one MSHR entry, behind a leader that is in flight or back, and its line is not in the MLC |
| MissRuns.ReplyWakesAll | src/cpu-sim/cpu_engine.cpp:358-432 | a reply brings the line into both caches, each losing at most one other line, and the FLC none if it has the line; it removes the MSHR entry, lets go exactly the transactions of the entry at the times given, and changes nothing else |
| MissRuns.WindowMatchesPool | src/cpu-sim/processor.cpp:682-691 | in every reachable state the unready memory entries of a window and the core's pooled transactions correspond one to one, and the counter counts them |
| MissRuns.ExitCompletes | src/cpu-sim/cpu_engine.cpp:437-468 | a transaction that leaves makes exactly its own entry ready |
| MissRuns.VisitLowersRank | src/cpu-sim/cpu_engine.cpp:281-470 | every transition that is enabled brings a transaction closer to leaving and none further away |
| MissRuns.ReceiveLowersWork | src/cpu-sim/processor.cpp:62-79 | so does a reply that reaches its transaction |
| MissRuns.NeverStuck | src/cpu-sim/cpu_engine.cpp:262-475 | a non-empty pool always has a transaction that can step once due, or a reply still to come |
| MissRuns.CanDrain | src/cpu-sim/cpu_engine.cpp:262-475 | from every reachable state some run empties the pool |
| MissRuns.WorkFalls | src/cpu-sim/cpu_engine.cpp:262-475 | no step but the fetch of a memory instruction adds work, and every step that serves a transaction lowers it |
| MissRuns.ServedBound | src/cpu-sim/cpu_engine.cpp:262-475 | a run without fetches, however long, has at most five steps that serve for each pooled transaction |
| MissRuns.FairDrains | src/cpu-sim/cpu_engine.cpp:262-475 | every fair schedule empties the pool, after at most as many rounds |
| MissEffects.MemoryEnters | src/cpu-sim/processor.cpp:1144-1233 | a memory instruction enters ready exactly if it is a filtered read or one of the caches has its line, and then only that cache is stamped; otherwise it waits under a new id, and the pool gains exactly a transaction that starts now; its earliest retire time counts each cache looked up |
| MissEffects.DelayEnters | src/cpu-sim/processor.cpp:603-627 | a CDLY instruction enters unready, with no transaction |
| MissEffects.ExecuteEffect | src/cpu-sim/processor.cpp:704-715 | exactly the leading CDLY instructions within the width become ready |
| MissEffects.CommitEffect | src/cpu-sim/processor.cpp:350-466 | the oldest entries leave, as many as are ready and due, up to the width and to the first memory instruction |
| MissEffects.NotDueEffect | src/cpu-sim/cpu_engine.cpp:281 | a transaction that is not due, or waits for another, is left alone |
| MissEffects.StartEffect | src/cpu-sim/cpu_engine.cpp:285-292 | a new transaction spends the time of both look-ups before it asks the network |
| MissEffects.RequestEffect | src/cpu-sim/cpu_engine.cpp:293-357 | a request whose line has come may leave; without room it stays; if its line is asked for it joins the end of the entry and waits; only the first for its line goes out |
| MissEffects.ExitEffect | src/cpu-sim/cpu_engine.cpp:437-468 | a transaction that leaves makes the one entry that waits for it ready, to retire from now on, and goes out of the pool |
| MissEffects.ReceiveEffect | src/cpu-sim/processor.cpp:62-79 | the oldest reply taken reaches its transaction, which is due in the next cycle |
| MissEffects.AnswerEffect | src/cpu-sim/processor.cpp:81-100 | a reply to an outstanding request goes to the end of the queue if that holds fewer than eight; any other offer changes nothing |
| MissEngine.SweepIsRun | src/cpu-sim/cpu_engine.cpp:269-474 | a pass over the pool is a run of atomic visits, at the places from the first on, one after the other, but the successor of an erased element is skipped |
| MissEngine.Engine.MapTransaction | src/cpu-sim/cache.cpp:1161-1178 | finds the pooled transaction of an id |
| MissEngine.Engine.InsertBlockedQueue | src/cpu-sim/cache.cpp:796-823 | joins the entry of the line if there is one, otherwise opens one |
| MissEngine.Engine.DeleteBlockedQueue | src/cpu-sim/cache.cpp:826-856 | wakes the transactions of the line's entry and removes it |
| MissEngine.Engine.Request | src/cpu-sim/cpu_engine.cpp:293-357 | the branch makes exactly the step `VisitRequest` |
| MissEngine.Engine.Reply | src/cpu-sim/cpu_engine.cpp:358-432 | the branch makes exactly the step `VisitReply` |
| MissEngine.Engine.FillMlc | src/cpu-sim/cpu_engine.cpp:370-391 | fill, wake and release of the MLC part |
| MissEngine.Engine.FillFlc | src/cpu-sim/cpu_engine.cpp:401-422 | fill of the FLC part |
| MissEngine.Engine.Leave | src/cpu-sim/cpu_engine.cpp:437-468 | the branch makes exactly the step `VisitExit` |
| MissEngine.Engine.VisitAt | src/cpu-sim/cpu_engine.cpp:280-473 | one element of the pass makes exactly the step `Visit` |
| MissEngine.Engine.SimulateMemory | src/cpu-sim/cpu_engine.cpp:262-475 | the loop over the vector, with erasure, makes exactly the pass `Sweep` |
| MissEngine.Engine.InsertMemTransaction | src/cpu-sim/processor.cpp:1144-1233 | fetching a memory instruction makes exactly the step `FetchMemory` |
| MissEngine.Engine.CpuIcntCycle | src/cpu-sim/processor.cpp:62-112 | the cycle delivers the oldest reply and then takes the one offered, if there is room |
| Coalescer.OneSegment | src/abstract_hardware_model.cc:361-366 | an aligned word lies in one segment: the assertion never fails |
| Coalescer.NarrowIsSmallest | src/abstract_hardware_model.cc:463-511 | halving finds the smallest aligned block of 32, 64 or 128 bytes with all bytes used, which lies in every other such block |
| Coalescer.FollowsGuide | src/abstract_hardware_model.cc:324-386 | the one-pass map sends exactly the transactions of the lowest-lane-first protocol of section G.3.2.2 |
| Coalescer.ServedExactlyOnce | src/abstract_hardware_model.cc:344-385 | blocks never overlap, every request lies in one, and each block, lane mask and byte mask is exactly that of the requests in it |
| AtomicCoalescer.FirstFitIsRank | src/abstract_hardware_model.cc:418-434 | a lane meets every transaction below its rank and not the one at its rank |
| AtomicCoalescer.LaneInItsSlot | src/abstract_hardware_model.cc:403-443 | the k-th lane at an address is whole in the k-th transaction of its segment and in no other |
| AtomicCoalescer.LaneServedOnce | src/abstract_hardware_model.cc:403-459 | of all transactions sent for a half warp exactly one has the lane's bit, and it has the whole word and its bytes |
| AtomicCoalescer.SlotBytesApart | src/abstract_hardware_model.cc:436-443 | two lanes of one transaction share no byte |
| AtomicCoalescer.RankIncreases | src/abstract_hardware_model.cc:406-431 | lanes at one address are served in lane order |
| AtomicCoalescer.DepthIsLargestCount | src/abstract_hardware_model.cc:429-434 | a segment gets as many transactions as lanes share its busiest address |
| AtomicCoalescer.FewestTransactions | src/abstract_hardware_model.cc:403-443 | any assignment that keeps lanes with a common byte apart needs at least as many |
| WarpMemory.ChunkBit | src/abstract_hardware_model.cc:360-368 | a chunk bit is set exactly when a byte of the chunk is used |
| WarpMemory.WarpInst.ReduceAndSend | src/abstract_hardware_model.cc:463-511 | the branches on chunk bits send exactly the smallest block, and their assertions never fail |
| WarpMemory.WarpInst.FindTransactions | src/abstract_hardware_model.cc:336-375 | the loops leave for each segment exactly the chunks, bytes and lanes of its requests |
| WarpMemory.WarpInst.SendTransactions | src/abstract_hardware_model.cc:377-384 | one transaction for each segment, in address order |
| WarpMemory.WarpInst.MemoryCoalescingArch13 | src/abstract_hardware_model.cc:324-386 | the queue grows by the transactions of each subwarp in turn, the list that `PieceServedOnce`, `SharedIff`, `TransactionExact` and `InOrder` are about |
| WarpMemory.WarpInst.RequestIff | src/abstract_hardware_model.cc:340-359 | the requests are exactly the pieces of the active lanes: of a local word of 4, 8 or 16 bytes one for each four bytes, of any other the word itself |
| WarpMemory.WarpInst.LaneInOneSubwarp | src/abstract_hardware_model.cc:334-340 | every piece is requested in the subwarp of its lane and in no other |
| WarpMemory.WarpInst.WordServedOnce | src/abstract_hardware_model.cc:324-386 | every piece lies whole in one transaction of its subwarp, with its lane and byte bits, away from all others |
| WarpMemory.WarpInst.TestBytes | src/abstract_hardware_model.h:815-820 | true exactly when some byte of the range is set |
| WarpMemory.WarpInst.FirstFit | src/abstract_hardware_model.cc:418-434 | the first transaction that has no byte of the access |
| WarpMemory.WarpInst.Place | src/abstract_hardware_model.cc:411-443 | one atomic leaves the lists as the ranks say, and sets only clear bits |
| WarpMemory.WarpInst.FindLists | src/abstract_hardware_model.cc:403-444 | the loop leaves for each segment exactly the list of its layers |
| WarpMemory.WarpInst.SendLists | src/abstract_hardware_model.cc:446-459 | every transaction of every list is sent, in order |
| WarpMemory.WarpInst.MemoryCoalescingArch13Atomic | src/abstract_hardware_model.cc:388-461 | the queue grows by the atomics' transactions of both half warps, the list that `AtomicServedOnce` and `AtomicSharedIff` are about |
| WarpMemory.WarpInst.AtomicServedOnce | src/abstract_hardware_model.cc:388-461 | of all transactions the atomic sends exactly one has the bit of an active lane, with its whole word and bytes, and none that of another lane |
| WarpTransactions.PieceServedOnce | src/abstract_hardware_model.cc:324-386 | of all transactions of the warp one holds the piece, with its lane and byte bits, and all others with the lane's bit lie elsewhere |
| WarpTransactions.SharedIff | src/abstract_hardware_model.cc:329-375 | two pieces are in one transaction exactly if their lanes are of one subwarp and they lie in one aligned block of 32, 64 or 128 bytes, for words of one byte, of two, or of 4, 8 or 16 |
| WarpTransactions.TransactionExact | src/abstract_hardware_model.cc:336-385 | a transaction has exactly the lane and byte bits of the pieces it holds, and is the smallest aligned block of 32, 64 or 128 bytes that has them all |
| WarpTransactions.InOrder | src/abstract_hardware_model.cc:334-384 | the subwarps come in turn, and the transactions of each in the order of their addresses |
| WarpTransactions.AtomicSharedIff | src/abstract_hardware_model.cc:393-444 | two lanes of an atomic are in one transaction exactly if they are of one half warp, their words lie in one such block, and as many active lanes of the half come before each at its own address |
| SharedMemory.TallyTotals | src/abstract_hardware_model.cc:200-210 | the banks together count every active lane once |
| SharedMemory.FindBroadcast | src/abstract_hardware_model.cc:213-233 | the first word, by bank and address, that more than one lane reads, or none |
| SharedMemory.LimitedCycles | src/abstract_hardware_model.cc:235-258 | the largest count of a bank, the broadcast word counting once; the assertions never fail |
| SharedMemory.DistinctCycles | src/abstract_hardware_model.cc:260-270 | the largest number of different words of a bank |
| SharedMemory.ModesInOrder | src/abstract_hardware_model.cc:212-271 | counting different words never gives more cycles than limited broadcast |
| SharedMemory.LimitedInRange | src/abstract_hardware_model.cc:235-258 | limited broadcast needs at least one cycle and no more than the active lanes |
| SharedMemory.WarpModesInOrder | src/abstract_hardware_model.cc:192-275 | for the warp: the sum of distinct-word cycles is at most that of limited-broadcast cycles, and that at most the number of active lanes |
| SharedMemory.ConflictCycles | src/abstract_hardware_model.cc:192-275 | the cycles of the warp are the sum over subwarps, positive and at most the warp size: the assertion never fails |
| BankConflicts.Reads.WordIs | src/abstract_hardware_model.cc:200-210 | the tally has an entry for exactly the words read, in bank `word / 4` modulo the banks, and it is the number of lanes that read the word |
| BankConflicts.Reads.BankIs | src/abstract_hardware_model.h:242-245 | a bank is in the tally exactly if a lane reads from it, with the words of it that are read |
| BankConflicts.Reads.CyclesIff | src/abstract_hardware_model.cc:212-271 | what is counted for a subwarp is the largest number of different words of one bank; with the limited broadcast the largest number of lanes of one bank, those that read the first shared word counting once |
| BankConflicts.CountedIff | src/abstract_hardware_model.cc:192-275 | the counts whose sum `ConflictCycles` returns are these numbers, for each subwarp of the warp |
| BankConflicts.Reads.OneCycleIff | src/abstract_hardware_model.cc:259-271 | a subwarp takes one cycle exactly if no two lanes read different words of one bank |
| BankConflicts.Reads.OneCycleLimitedIff | src/abstract_hardware_model.cc:212-258 | with the limited broadcast, exactly if no two lanes read from one bank unless both read the word that is broadcast |
| Streams.Stream.Push | src/stream_manager.cc:69-75 | appends, and what was pushed stays the completed operations followed by the queue |
| Streams.Stream.Next | src/stream_manager.cc:88-96 | the front operation is in progress and stays in the queue |
| Streams.Stream.RecordNextDone | src/stream_manager.cc:77-85 | the front operation is completed, in order |
| Streams.Manager.NeverTogether | src/stream_manager.cc:238-271 | an operation of stream zero and one of another stream are never in progress together |
| Streams.Manager.Push | src/stream_manager.cc:367-375 | the host may push to any stream at any time and keeps the manager's invariant |
| Streams.Manager.AddStream | src/stream_manager.cc:273-279 | a new stream keeps the invariant |
| Streams.Manager.RegisterFinishedKernel | src/stream_manager.cc:221-236 | the finished kernel is the front of the stream on record: the id assertion never fails, exactly it completes, and all other streams stay as they are |
| Streams.Manager.Front | src/stream_manager.cc:238-271 | which operation starts: stream zero's while it is served, otherwise that of the first stream that is ready, and none exactly if there is none; no stream changes otherwise; and when the service of stream zero begins and ends |
| Streams.Manager.DoOperation | src/stream_manager.cc:114-172 | a copy or an event completes at once, and so does a kernel in functional mode if one can start; a kernel for the GPU stays in progress; nothing else changes |
| Streams.Manager.Operate | src/stream_manager.cc:199-210 | one turn, in either mode: the finished kernel is recorded; then the operation that `Chooses` names is served, and no other; a kernel the GPU accepts joins those that run |
| Streams.Progress.ServedIs | src/stream_manager.cc:114-172 | what that means: the operation served leaves the queue for the completed ones, with nothing in progress, unless it is a kernel that is not run to its end here, which stays at the front in progress; every other stream keeps its queue, what it has in progress and what it has completed |
| CtaBarrier.FunctionalCore.NoneAhead | src/cuda-sim/cuda-sim.cc:1769-1800 | no live warp is a whole barrier ahead of another |
| CtaBarrier.FunctionalCore.ExecuteWarp | src/cuda-sim/cuda-sim.cc:1788-1800 | a warp executes its next instruction exactly when it is live and does not wait, and the flags report it |
| CtaBarrier.FunctionalCore.Sweep | src/cuda-sim/cuda-sim.cc:1773-1785 | a sweep advances every warp that was live and did not wait by one instruction, at least one if any was live, and a barrier opens when all live warps wait |
| CtaBarrier.FunctionalCore.Execute | src/cuda-sim/cuda-sim.cc:1769-1786 | the block always runs to its end, whatever barriers its warps meet; each warp executes its instructions once and in order, and what is executed later has at least as many barriers of its own warp behind it |
| CtaBarrier.BarriersSeparate | src/cuda-sim/cuda-sim.cc:1778-1799 | so what a warp executes after its n-th barrier comes later than the n-th barrier of any warp, and than all before that |

## Left out

- Call depth, divergence cycles, statistics, debug output, and the printing of stacks and streams: nothing reads them back.
- Creating a warp sets all 32 mask bits before it clears those without a thread; the launch mask is required to name existing lanes, so warps narrower than 32 are assumed to be masked by the caller.
- SimtFlow.FlowRunIsRun: for kernels without calls; SimtCalls.ProgramRunIsRun is the result with calls.
- ProgramRuns.ProgramRefinesScalar: the condition on callees is sufficient, and `TwoReturnsFail` shows what happens without it; an exact condition for programs with calls, as `KernelSafeIff` is without, is not proved. Calls are direct and not predicated, and the kernel is clean for any number of lanes.
- How basic blocks are cut and linked, and break targets, are not modelled: the successors of each block, those of them that are linked, and the code of each block are given, the last block being the exit without successors.
- `PostDominators.FunctionInfo.FindIpostdominators` requires that every block reaches the exit; the source asserts what follows from it.
- The exit block has no instruction in the source; here it has a mark that is no PC. The return address is any PC but the null one, and may be that of an instruction of the kernel.
- What instructions compute is a relation between thread states, so barriers, atomics and memory between threads are whatever that relation allows.
- `MissEngine` keeps caches and windows as values; their forms in place are `Cache.Unit` and `Window.Rob`, proved against the same functions.
- The interconnect, the last-level cache and the memory are an arbitrary network: room is an arbitrary Boolean, and each request is answered once, in any order.
- Trace reading, issue width, pool size limit and throttle only decide when a fetch step happens; every order of steps is covered. The filter of outstanding references is an arbitrary Boolean.
- Transaction ids and instruction counts are unbounded integers; the source narrows an id to `int` when it searches the window and when it labels a packet.
- Compression fields, network queues, slack and stall estimates of the CPU model are not modelled; the FLC has an MSHR table that is never filled.
- Cache.Log2Mask: holds for every natural number of bits; the source shifts a 32-bit `int`, so its mask is right only for fewer than 32 bits.
- Shifts and masks of addresses are modelled as division and remainder of non-negative addresses; line size and set count are powers of two.
- Misaligned accesses: the source notes only the chunk of a word's first byte, so alignment is required of every active lane; addresses are below 2 to the 32, where the source's narrowing of block addresses changes nothing.
- Constant and texture accesses and the choice of the access type are not modelled.
- Streams: time stamps of events, contents of copies, destroying a stream, waiting loops of the host, and liveness, which fails for a kernel taken from its stream while the GPU cannot start it.
- Barriers: the instructions of each warp in a run are given as a finite list; which memory values produce them is not modelled.
- The two-pass PTX assembler, PTX instruction semantics, generic address windows and memory allocation.
