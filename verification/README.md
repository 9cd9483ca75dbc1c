# Verified model of the tpu_sync core

A Dafny 4.11 model of the parts of `tpu_sync/core` in which one mistake silently
corrupts or loses data, with proofs that hold for every input, every interleaving
and every history of crashes. `dafny verify dfyconfig.toml` checks all of it.

| files | what they model |
|---|---|
| `Arith`, `TiledLayout`, `FoldedLayout` | the tiled device layout of XLA arrays and the check that a folded view of a buffer keeps every element in place |
| `MajorSlices`, `RawCopy`, `StridedSpan` | byte sizes of major slices, chunk lists, device-host-device round trips, strided bounds in 64-bit arithmetic |
| `PacerSteps`, `PacerRuns`, `PacerGuarantees`, `PacerIssue`, `RawDmaPacer` | the DMA pacer: steps, invariant, guarantees over all interleavings, the unlocked issuing of admitted pieces, and the object refining the steps |
| `ShmSegment`, `ShmRuns`, `ShmGuarantees`, `ShmTotals`, `ShmAllocator` | the shared-memory segment that outlives processes: steps with a crash point after every header write, invariant, guarantees over all histories, and the objects refining the steps |
| `Ascents`, `ReshardPlans`, `ReshardRoundTrips`, `ReshardTranslation`, `SendSlots` | the two pool-reshard plan languages, the translations, both round trips, and the send-slot count |
| `StagingArena` | the growing slot arena with move-only handles, on heap objects |
| `StubCache`, `PendingPulls` | the stub cache with its unlocked gap, and the pending-call table with cancel-and-wait |
| `Placement` | which addresses a manager serves and which shards each advertises |

How the models are built. A component shared between threads or processes is a
datatype `State`, a datatype `Action` with one constructor per critical section or
environment event, and functions `Enabled`, `Apply`, `CanRun`, `Run`. Theorems speak
of `Run(initial, actions)` for every action list, so they cover every interleaving.
What the source leaves to the system (allocation results, mapping failures, crash
points, completion statuses, map iteration order) is a parameter of the action or a
nondeterministic choice. Where the source updates an object in place there is a
class whose methods are proved to take exactly those steps. The pacer, the allocator
and the pull backend keep a ghost history of actions, so their states are reachable
by construction and the theorems about runs apply to them.

Where the code does not do what its comments or its callers would expect, the model
follows the code:

- The header comment of the segment (`tpu_sync/core/host_memory_allocator.h:149-151`)
  says the total is always the sum of the recorded sizes. It is not after an append
  that stops between count and total, nor after a crash between copying the schema,
  whose total is a configured size (`tpu_sync/core/utils.h:168`), and zeroing it.
  `FailedAppendDisagrees` and `SeededTotalDisagrees` give the histories,
  `TotalIsSumExactly` the exact condition, and `OpenDecision` shows that neither file
  is ever attached warm.
- The translation header (`tpu_sync/core/transfer_program_reshard.h:20-27`) calls
  compiling and lowering exact inverses. They are on exactly the requests and
  programs described by `Expressible` and by `CompileAfterLowerIsIdentity`; ranks
  without entries and the fields programs have no place for are lost, and steps come
  back in rank order. `IdleRankIsLost` and `UnsortedComesBackSorted` give one of each.
- The slot counter's header (`tpu_sync/core/pool_reshard_send_slots.h:24-31`) says a
  pool whose group has no entries contributes no slot, and `PoolWithoutEntries` proves
  it. It does not speak of pools outside every group. The code gives those the group
  number -1, which an entry can name; `GrouplessPool` says exactly when such a pool
  contributes and `GrouplessPoolCounted` gives a plan.
- The chunk list is validated with 64-bit products that can overflow.
  `OverflowIsAccepted` gives an accepted request for a slice far past the buffer,
  `NoOverflowExactly` the bound a caller can check, and `OnlyAddressableFits` shows
  that it shuts out no request that fits.
- The pacer's header (`tpu_sync/core/raw_dma_pacer.h:48`) promises first-in first-out.
  Admission is; issuing happens unlocked, and `IssueOrderIsAdmissionOrder` says exactly
  when it follows admission, with `LaterBatchFirst` as the exception.
- A staging shard supplied with a pointer but no size keeps that undersized buffer.
  `Arena.Acquire` states when a slot comes back backed, `Arena.FromLayers` which
  supplied layers make that so, and `UndersizedBufferIsHandedOut` shows one that does
  not.
- The fold check refuses some harmless folds. `CheckIsExact` gives the tile lists on
  which it is exact and `SpanningTileRefusedNeedlessly` a fold outside them.

## Model

| member | source | states |
|---|---|---|
| FoldedLayout.NumFoldedLeadingDims | tpu_sync/core/layout_utils.cc:37-56 | the loop with its overflow guard recognises exactly the folds of leading dimensions it should, and counts them |
| FoldedLayout.PositiveFoldsRecognized | tpu_sync/core/layout_utils.cc:37-67 | every fold of positive dimensions that fits 64 bits is recognised |
| FoldedLayout.EmptyFoldsExactly | tpu_sync/core/layout_utils.cc:37-56 | a fold over an empty dimension is recognised if and only if the first dimension is empty |
| FoldedLayout.EmptyFoldRefused | tpu_sync/core/layout_utils.cc:37-56 | so the one fold of [5, 0] into [0] is refused |
| FoldedLayout.FoldElementInShape | tpu_sync/core/layout_utils.cc:64-67 | folding an element index stays in the folded shape |
| FoldedLayout.FoldElementOnto | tpu_sync/core/layout_utils.cc:64-67 | and reaches every index of the folded shape |
| FoldedLayout.CheckFoldedDeviceLayout | tpu_sync/core/layout_utils.cc:69-163 | an accepted fold keeps the device bit offset of every element, for every rank and tile list; acceptance and the padding refusal are characterised both ways |
| FoldedLayout.CheckTiles | tpu_sync/core/layout_utils.cc:111-162 | the tile loops accept exactly the tile lists that leave regrouped elements in place |
| FoldedLayout.AcceptedFoldsKeepOffsets | tpu_sync/core/layout_utils.cc:69-163 | the law behind acceptance: equal offsets before and after folding |
| FoldedLayout.FoldKeepsOffset | tpu_sync/core/layout_utils.cc:111-162 | the same for one element: only the first tile's grid can move, later tiles stay inside it |
| FoldedLayout.PaddedRowGroupsMoveAnElement | tpu_sync/core/layout_utils.cc:153-161 | when the last test refuses, a concrete element really is at another offset |
| FoldedLayout.CheckIsExact | tpu_sync/core/layout_utils.cc:69-163 | for sized, nested tiles within the folded rank, accepted if and only if every element keeps its offset |
| FoldedLayout.SpanningTileRefusedNeedlessly | tpu_sync/core/layout_utils.cc:148-152 | outside that class the check may refuse a fold that moves nothing |
| MajorSlices.SliceHoldsMajorIndex | tpu_sync/core/raw_transfer_core.h:83-131 | the elements of major index i lie in slice i, each at the same place in its slice |
| MajorSlices.SubtilesKeepSliceCells | tpu_sync/core/raw_transfer_core.h:98-127 | later tiles that subdivide the first leave the slice size as the first tile gives it |
| MajorSlices.MajorSliceByteSize | tpu_sync/core/raw_transfer_core.h:83-131 | the loops compute the slice size of the layout, or report the unsupported tile rank |
| MajorSlices.MajorSliceOnDevice | tpu_sync/core/raw_transfer_core.h:143-161 | sub-byte types divide the device size by the major dimension, with the error cases |
| MajorSlices.PackedSliceHoldsMajorIndex | tpu_sync/core/raw_transfer_core.h:133-161 | packed elements of major index i lie in byte slice i |
| RawCopy.ValidatePartialSpec | tpu_sync/core/utils.h:224-245 | accepted if and only if the three lists have one length and no entry is negative, with the error for each case |
| RawCopy.ComputeAndValidateChunks | tpu_sync/core/utils.h:276-320 | accepts as the wrapped 64-bit products and sums decide and otherwise names the first range refused, source before destination; when nothing overflows that is exactly when every chunk fits both buffers, and the list is the requested majors scaled by the slice |
| RawCopy.NoOverflowExactly | tpu_sync/core/utils.h:296-306 | no product or sum overflows if and only if every range ends within the largest 64-bit number divided by the slice |
| RawCopy.OnlyAddressableFits | tpu_sync/core/utils.h:296-306 | every request that fits its buffers meets that bound |
| RawCopy.OverflowIsAccepted | tpu_sync/core/utils.h:296-306 | a request for slice 2^52 of a one-slice buffer passes validation and copies slice 0 |
| RawCopy.TransferMovesRequestedMajors | tpu_sync/core/utils.h:276-320 | with the slice size computed from the first tile, copying the chunk list brings every element of the requested majors whole to its place in the destination slice and changes no byte outside the destination slices |
| RawCopy.RoundTripRestoresDevice | tpu_sync/core/utils.h:276-320 | device to host, then host to device with the lists exchanged, restores the device when host ranges are disjoint |
| RawCopy.CopyAllHolds | tpu_sync/core/utils.h:276-320 | after a transfer with disjoint targets every chunk has arrived |
| StridedSpan.StridedSpanFitsBlock | tpu_sync/core/utils.h:322-333 | true if and only if the arguments are well-signed and every chunk is in the block, with no 64-bit overflow on the way |
| StridedSpan.StridedSpanFitsRegions | tpu_sync/core/utils.h:335-349 | true if and only if the span fits and every chunk is covered; every start and end stays in 64 bits |
| PacerSteps.Normalize | tpu_sync/core/raw_dma_pacer.cc:90-96 | chunk sizes become positive multiples of 4096, rounded down by less than one page where that is possible |
| PacerSteps.SplitTiles | tpu_sync/core/raw_dma_pacer.cc:147-167 | the pieces of a copy tile it without gap or overlap, none above the chunk |
| PacerSteps.TileOffsetsAligned | tpu_sync/core/raw_dma_pacer.cc:147-167 | piece offsets are multiples of an aligned chunk |
| PacerRuns.ApplyKeepsInv | tpu_sync/core/raw_dma_pacer.cc:103-283 | every step keeps the invariant: byte accounting, queue order, job counters, promise bookkeeping, event log |
| PacerRuns.EveryRunKeepsInv | tpu_sync/core/raw_dma_pacer.cc:98-283 | hence every reachable state has it |
| PacerRuns.FirstErrorIsFirst | tpu_sync/core/raw_dma_pacer.cc:251-253 | the recorded status is OK if and only if all outcomes are, otherwise the first error |
| PacerGuarantees.ResolvedOnceWithFirstError | tpu_sync/core/raw_dma_pacer.cc:240-268 | a promise resolves once, after all its pieces settled, with the first recorded error, and the keep-alive is not released before |
| PacerGuarantees.HeldPromiseHasWork | tpu_sync/core/raw_dma_pacer.cc:240-268 | a job still holding its promise has pieces queued or in flight, and its counter is their number |
| PacerGuarantees.AdmissionIsFifo | tpu_sync/core/raw_dma_pacer.cc:133-170 | admitted, cancelled and pending pieces together are all submissions in order, each piece once |
| PacerGuarantees.CopiesAreTiled | tpu_sync/core/raw_dma_pacer.cc:147-167 | in every run the pieces of each copy tile it, aligned and bounded by the chunk when paced |
| PacerGuarantees.AdmissionRespectsLimit | tpu_sync/core/raw_dma_pacer.cc:194-217 | after each admission the limit in force holds, or one piece is alone in flight |
| PacerGuarantees.WindowBound | tpu_sync/core/raw_dma_pacer.cc:194-217 | with fixed options the bytes in flight never exceed the larger of limit and chunk, and exceed the limit only with one piece |
| PacerGuarantees.NoStall | tpu_sync/core/raw_dma_pacer.cc:194-217 | after every admission a non-empty queue has something in flight |
| PacerGuarantees.DrainingIsBounded | tpu_sync/core/raw_dma_pacer.cc:240-283 | a run of completions and wake-ups is no longer than the work left |
| PacerGuarantees.WorkCanContinue | tpu_sync/core/raw_dma_pacer.cc:240-283 | while work is left some such step can happen, so every run drains |
| PacerGuarantees.DrainedMeansResolved | tpu_sync/core/raw_dma_pacer.cc:240-268 | a drained pacer has resolved and released every job exactly once |
| PacerGuarantees.DestructionIsComplete | tpu_sync/core/raw_dma_pacer.cc:103-131 | after the destructor's wait every job is settled, cancelled pieces included |
| RawDmaPacer.Pacer.Submit | tpu_sync/core/raw_dma_pacer.cc:133-170 | queues the pieces and admits what fits, as the step does, keeping the invariant |
| RawDmaPacer.Pacer.TakeIssuableLocked | tpu_sync/core/raw_dma_pacer.cc:208-217 | the admission loop takes the longest prefix the window allows |
| RawDmaPacer.Pacer.WorkerStep | tpu_sync/core/raw_dma_pacer.cc:270-283 | one pass of the worker loop is one step |
| RawDmaPacer.Pacer.OnPieceDone | tpu_sync/core/raw_dma_pacer.cc:240-268 | completion is one step; the promise comes out with the job's last piece and only then |
| RawDmaPacer.Pacer.BeginDestruction | tpu_sync/core/raw_dma_pacer.cc:103-131 | fails every piece never issued and hands out the promises that became final |
| RawDmaPacer.Pacer.SetOptions | tpu_sync/core/raw_dma_pacer.cc:177-180 | new options are normalised and touch nothing else |
| RawDmaPacer.Pacer.SetPromise | tpu_sync/core/raw_dma_pacer.cc:261-267 | a thread that was handed a promise sets it once |
| RawDmaPacer.Pacer.DropKeepAlive | tpu_sync/core/raw_dma_pacer.cc:245-268 | and drops the keep-alive only after that |
| PacerIssue.LockedStepsAreARun | tpu_sync/core/raw_dma_pacer.cc:133-283 | with issuing as a step of its own, the locked steps are still a run of the pacer, so all its guarantees hold |
| PacerIssue.BatchOrderSurvives | tpu_sync/core/raw_dma_pacer.cc:219-238 | pieces one thread admitted together are issued in admission order, and no piece twice |
| PacerIssue.IssueOrderIsAdmissionOrder | tpu_sync/core/raw_dma_pacer.cc:168-168 | all pieces are issued in admission order if and only if no thread issues before earlier batches are done |
| PacerIssue.LaterBatchFirst | tpu_sync/core/raw_dma_pacer.cc:168-168 | two submissions whose pieces are issued the other way round |
| PacerIssue.FlightCanProgress | tpu_sync/core/raw_dma_pacer.cc:219-268 | while something is in flight some thread can issue or some issued piece can complete |
| PacerIssue.DrainingIsBounded | tpu_sync/core/raw_dma_pacer.cc:168-283 | any run of issues, completions, wake-ups and promise calls is at most as long as the work left, each piece not yet issued included |
| PacerIssue.WorkCanContinue | tpu_sync/core/raw_dma_pacer.cc:168-283 | while work is left one of these steps can happen |
| PacerIssue.NoWorkMeansIssued | tpu_sync/core/raw_dma_pacer.cc:219-238 | without work left every admitted piece was issued and the pacer is drained |
| ShmRuns.WarmExactly | tpu_sync/core/host_memory_allocator.cc:403-460 | in a reachable file the compatibility test holds if and only if the file is completely recorded, matches, and starts with the requested size |
| ShmRuns.OpenKeepsInv | tpu_sync/core/host_memory_allocator.cc:382-514 | opening keeps the segment invariant wherever it fails or the process dies |
| ShmRuns.AppendKeepsInv | tpu_sync/core/host_memory_allocator.cc:546-615 | so does appending a region, at each of its header writes; a death leaves the ledger as it was or with the whole region |
| ShmRuns.EveryHistoryKeepsInv | tpu_sync/core/host_memory_allocator.cc:382-616 | so does every history of processes, failures, crashes and writes |
| ShmGuarantees.OpenDecision | tpu_sync/core/host_memory_allocator.cc:389-499 | warm if and only if a matching, completely recorded file with the requested first size exists; otherwise the file starts empty, unless the lock or the removal of the old file fails, which changes nothing |
| ShmGuarantees.ReplayGetsRecordedRegion | tpu_sync/core/host_memory_allocator.cc:542-558 | below the recovered count a request gets the recorded offset, size and bytes, or is refused with nothing changed |
| ShmGuarantees.EndKeepsRecord | tpu_sync/core/host_memory_allocator.cc:516-616 | wherever a process stops, exit or death inside a request, the file still records its regions and holds their bytes |
| ShmGuarantees.SuccessorGetsSameRegions | tpu_sync/core/host_memory_allocator.cc:382-616 | a warm successor of a process that exited or died anywhere is handed, position by position, the regions it held, found at boot with its bytes |
| ShmGuarantees.SuccessorReadsSameBytes | tpu_sync/core/host_memory_allocator.cc:542-558 | and at the moment a region is handed out its bytes are still those |
| ShmGuarantees.FreshRegionsAreZero | tpu_sync/core/host_memory_allocator.cc:559-607 | a region past the recorded layout is zero in every byte although one byte per page is written |
| ShmGuarantees.PastPayloadIsZero | tpu_sync/core/host_memory_allocator.cc:559-615 | every byte past the recorded payload is zero in every reachable file |
| ShmGuarantees.RegionsAreSeparate | tpu_sync/core/host_memory_allocator.cc:540-616 | the regions of a process are page-aligned, disjoint, past the header and inside the file |
| ShmTotals.TotalIsSumExactly | tpu_sync/core/host_memory_allocator.h:149-151 | in every reachable file the total is the sum of the table if and only if the last writer stopped neither inside an append nor with a schema total other than zero; what is missing is stated for both |
| ShmGuarantees.FailedAppendIsUnfinished | tpu_sync/core/host_memory_allocator.cc:580-597 | an append whose reserve or map fails leaves a counted region that the total does not include |
| ShmTotals.FailedAppendDisagrees | tpu_sync/core/host_memory_allocator.cc:580-597 | a history of two actions after which a counted region is missing from the total |
| ShmTotals.SeededTotalDisagrees | tpu_sync/core/host_memory_allocator.cc:502-505 | a history of two actions after which an empty table stands beside the schema total |
| ShmTotals.ApplyKeepsStop | tpu_sync/core/host_memory_allocator.cc:382-616 | every step keeps the header in agreement with where its last writer stopped |
| ShmGuarantees.RequestsArePossible | tpu_sync/core/host_memory_allocator.cc:516-616 | the guards of the step model exclude no reachable request or write |
| ShmAllocator.ReadTable | tpu_sync/core/host_memory_allocator.cc:427-441 | the summing loop accepts exactly the replayable tables |
| ShmAllocator.IsCompatible | tpu_sync/core/host_memory_allocator.cc:403-460 | the nested tests decide exactly compatibility |
| ShmAllocator.Allocator.OpenSegment | tpu_sync/core/host_memory_allocator.cc:382-514 | attaches, fails or formats exactly as the step does, statement by statement |
| ShmAllocator.Allocator.AllocateRegion | tpu_sync/core/host_memory_allocator.cc:516-616 | replays or appends exactly as the step does |
| ShmAllocator.Allocator.TouchRange | tpu_sync/core/host_memory_allocator.cc:599-607 | the touch loop writes one zero per page, up to the point of death |
| ShmAllocator.Allocator.AllocateBytes | tpu_sync/core/host_memory_allocator.cc:618-635 | one allocation appends exactly its request to the history of file and process, or ends the process |
| ShmAllocator.Allocator.WriteByte | tpu_sync/core/host_memory_allocator.cc:606-616 | a write into a handed-out region is the write step |
| ShmAllocator.Allocator.Close | tpu_sync/core/host_memory_allocator.cc:354-380 | destruction leaves the file for the next process |
| ReshardRoundTrips.LowerAfterCompile | tpu_sync/core/transfer_program_reshard.cc:135-315 | a request compiles if and only if it has pool fields, and lowering returns it without empty ranks and inexpressible fields |
| ReshardRoundTrips.LowerAfterCompileIsIdentity | tpu_sync/core/transfer_program_reshard.cc:135-315 | that is the request itself if and only if it has neither |
| ReshardRoundTrips.IdleRankIsLost | tpu_sync/core/transfer_program_reshard.cc:135-315 | a request with a rank that sends nothing comes back without that rank |
| ReshardRoundTrips.CompileAfterLower | tpu_sync/core/transfer_program_reshard.cc:55-315 | an admitted program lowers if and only if its block ids fit 32 bits, and compiling returns its canonical form |
| ReshardRoundTrips.CompileAfterLowerIsIdentity | tpu_sync/core/transfer_program_reshard.cc:192-315 | that is the program itself if and only if it is sorted by rank and uses no field that is not carried |
| ReshardRoundTrips.UnsortedComesBackSorted | tpu_sync/core/transfer_program_reshard.cc:192-315 | a program listing rank 1 before rank 0 comes back with the two steps exchanged |
| ReshardRoundTrips.CanonicalFormIsStable | tpu_sync/core/transfer_program_reshard.cc:55-315 | canonical programs are admitted with the same role and are fixed points |
| ReshardRoundTrips.StableOrderIsUnique | tpu_sync/core/transfer_program_reshard.cc:192-226 | only one step list is sorted by rank and keeps each rank's order |
| ReshardRoundTrips.StableSortIsStable | tpu_sync/core/transfer_program_reshard.cc:192-226 | the reference sort has both properties and the same steps |
| ReshardRoundTrips.SchedulesAt | tpu_sync/core/transfer_program_reshard.cc:281-313 | lowering collects each rank's steps in order and creates no other schedule |
| ReshardRoundTrips.DerivedListsKept | tpu_sync/core/transfer_program_reshard.cc:317-338 | both derived block-id lists survive the round trip |
| ReshardTranslation.NormalizeReshardProgram | tpu_sync/core/transfer_program_reshard.cc:55-133 | admits exactly the well-formed programs of a supported role, into the class of that role, and says exactly which others are unimplemented |
| ReshardTranslation.CompileStartTransfer | tpu_sync/core/transfer_program_reshard.cc:135-228 | the loops compute the translation the laws are about |
| ReshardTranslation.CompileSteps | tpu_sync/core/transfer_program_reshard.cc:192-226 | rank blocks come out ascending whatever order the map yields |
| ReshardTranslation.LowerToStartTransfer | tpu_sync/core/transfer_program_reshard.cc:230-315 | likewise, with its error cases |
| ReshardTranslation.DeriveSenderSourceBlockIds | tpu_sync/core/transfer_program_reshard.cc:317-327 | strictly ascending and exactly the source blocks of the entries |
| ReshardTranslation.DeriveArmChipBlockIds | tpu_sync/core/transfer_program_reshard.cc:329-338 | the groups' block lists in order |
| SendSlots.CountPoolReshardSendSlots | tpu_sync/core/pool_reshard_send_slots.cc:27-51 | at least the number of (pool, peer) slots, and equal to it if and only if no used pool is listed twice |
| SendSlots.SlotsAreThePairs | tpu_sync/core/pool_reshard_send_slots.cc:27-51 | the slots are the pairs of a transfer pool and a peer named by an entry of the pool's first group |
| SendSlots.FirstGroup | tpu_sync/core/pool_reshard_send_slots.cc:36-45 | the first group listing the pool, or -1 if none does |
| SendSlots.TallyIgnoresOrder | tpu_sync/core/pool_reshard_send_slots.cc:30-34 | the count depends on neither order nor repetition of entries |
| SendSlots.PoolWithoutEntries | tpu_sync/core/pool_reshard_send_slots.h:24-31 | a pool contributes nothing if and only if no entry is of its group |
| SendSlots.GrouplessPool | tpu_sync/core/pool_reshard_send_slots.cc:36-48 | a pool outside every group contributes if and only if some entry names group -1 |
| SendSlots.GrouplessPoolCounted | tpu_sync/core/pool_reshard_send_slots.cc:36-48 | a plan in which it does |
| StagingArena.Arena.Configured | tpu_sync/core/staging_arena.cc:49-76 | a valid arena with all slots free in order; failed allocations are left for later |
| StagingArena.Arena.FromLayers | tpu_sync/core/staging_arena.cc:83-125 | supplied layers become the first slots; says exactly when no supplied buffer is undersized |
| StagingArena.Arena.AllocateShard | tpu_sync/core/staging_arena.cc:164-193 | fills one shard with a large enough buffer, or fails leaving its buffer as it was |
| StagingArena.Arena.EnsureLayerAllocated | tpu_sync/core/staging_arena.cc:195-217 | missing buffers are filled and present ones kept; all shards are backed if and only if no present one was undersized |
| StagingArena.Arena.AppendChunk | tpu_sync/core/staging_arena.cc:219-249 | new backed slots at the end, or no change; existing slot numbers keep their layer objects |
| StagingArena.Arena.Acquire | tpu_sync/core/staging_arena.cc:251-272 | takes the front free slot, growing if needed; keeps the free list the complement of the slots in use and one live handle per slot; leaves slots in use untouched; states when the slot is backed |
| StagingArena.Arena.ReleaseSlot | tpu_sync/core/staging_arena.cc:274-284 | a slot in use goes to the front of the free list, any other number is ignored; memory is dropped if so configured |
| StagingArena.Arena.ReleaseHandle | tpu_sync/core/staging_arena.cc:40-47 | a handle returns its slot once; an empty handle does nothing |
| StagingArena.Arena.MoveHandle | tpu_sync/core/staging_arena.h:148-155 | the new handle is live exactly when the old one was, and the old one is empty |
| StagingArena.Arena.AssignHandle | tpu_sync/core/staging_arena.h:157-168 | between handles of one arena: the target's slot goes to the front of the free list and the source's is taken over; self-assignment changes nothing |
| StagingArena.Arena.AssignFromOther | tpu_sync/core/staging_arena.h:157-168 | between handles of two arenas: the target's slot goes back to its arena and the target becomes a handle of the other |
| StagingArena.Arena.ReleaseHandleMemory | tpu_sync/core/staging_arena.h:53-77 | drops the memory of the handle's slot only |
| StagingArena.UndersizedBufferIsHandedOut | tpu_sync/core/staging_arena.cc:203-215 | a layer supplied with a pointer but no size is handed out with less than its template asks |
| StubCache.CacheIsMostRecent | tpu_sync/core/grpc_control_plane_backend.cc:262-304 | under every interleaving the cached endpoints are exactly the first `max` by latest touch, without repetition, and each caller gets a stub of its endpoint |
| StubCache.CallersShareStub | tpu_sync/core/grpc_control_plane_backend.cc:262-304 | overlapping callers of an endpoint get the same stub for as long as it stays cached |
| StubCache.EvictMakesRoom | tpu_sync/core/grpc_control_plane_backend.cc:297-300 | the loop evicts at most one endpoint, the least recently used, and changes no other |
| StubCache.ApplyKeepsInv | tpu_sync/core/grpc_control_plane_backend.cc:262-304 | each locked section keeps list, map and recency order in agreement |
| StubCache.Table.Find | tpu_sync/core/grpc_control_plane_backend.cc:264-270 | the first section |
| StubCache.Table.FindOrInsert | tpu_sync/core/grpc_control_plane_backend.cc:289-303 | the second section, with its eviction loop |
| PendingPulls.PromiseSetAtMostOnce | tpu_sync/core/grpc_control_plane_backend.cc:306-348 | no promise is set twice under any interleaving |
| PendingPulls.WaitReturnsWhenAllResolved | tpu_sync/core/grpc_control_plane_backend.cc:350-371 | when the wait returns every call made has been resolved exactly once and its callbacks have returned |
| PendingPulls.SnapshotIsCancelled | tpu_sync/core/grpc_control_plane_backend.cc:350-371 | waiting begins only after every call of the snapshot was cancelled |
| PendingPulls.FinishingIsBounded | tpu_sync/core/grpc_control_plane_backend.cc:336-371 | any run of steps that finish calls and the cancellation, in any order, takes exactly as many steps as work disappears |
| PendingPulls.FinishingCanContinue | tpu_sync/core/grpc_control_plane_backend.cc:336-371 | while work is left such a step can happen |
| PendingPulls.NoWorkMeansReturned | tpu_sync/core/grpc_control_plane_backend.cc:365-371 | a cancellation without work left has returned, with the table empty |
| PendingPulls.TouchedCallsAreAlive | tpu_sync/core/grpc_control_plane_backend.cc:350-364 | no thread reaches a call that neither the table nor the snapshot owns |
| PendingPulls.CopiesAreNeeded | tpu_sync/core/grpc_control_plane_backend.cc:350-364 | a reachable state in which only the snapshot's copy keeps the call to cancel alive |
| PendingPulls.ResultsAreKept | tpu_sync/core/grpc_control_plane_backend.cc:336-348 | a promise keeps the value it was set to |
| PendingPulls.Backend.SendPullRequest | tpu_sync/core/grpc_control_plane_backend.cc:306-334 | registers and then starts a call, or sets its promise at once on an injected fault |
| PendingPulls.Backend.ResolvePull | tpu_sync/core/grpc_control_plane_backend.cc:336-341 | sets an unset promise while the call stays registered |
| PendingPulls.Backend.ExtractPull | tpu_sync/core/grpc_control_plane_backend.cc:342-347 | takes the call out only after its callbacks returned |
| PendingPulls.Backend.CompletePendingPull | tpu_sync/core/grpc_control_plane_backend.cc:336-348 | the whole completion of a started call, which touches no other |
| PendingPulls.Backend.CancelPendingPulls | tpu_sync/core/grpc_control_plane_backend.cc:350-366 | cancels every call pending at entry and begins to wait; calls completed by that are extracted with the cancelled status, all others keep phase and promise, and the history grows by exactly the snapshot, one cancellation per call and the wait |
| PendingPulls.Backend.AwaitEmpty | tpu_sync/core/grpc_control_plane_backend.cc:366-371 | returns exactly when the table is empty, and then every promise is set |
| PendingPulls.Backend.Destroy | tpu_sync/core/grpc_control_plane_backend.cc:201-204 | whichever calls the cancellation completes itself, once the others complete the wait returns; every pending promise holds its call's own result and no other promise changed |
| Placement.Manager.InitTransportServer | tpu_sync/core/raiden_manager_base.cc:167-259 | the served addresses are non-empty, without duplicates, and exactly those of the first rule that applies |
| Placement.Manager.Candidates | tpu_sync/core/raiden_manager_base.cc:183-196 | the NICs of the best class present |
| Placement.Manager.Targets | tpu_sync/core/raiden_manager_base.cc:199-211 | the shards' nodes, each once, or the assigned node |
| Placement.Manager.LocalIpsForShard | tpu_sync/core/raiden_manager_base.cc:290-300 | never empty, and exactly the addresses that serve the shard |
| Placement.Manager.ShardsForLocalIp | tpu_sync/core/raiden_manager_base.cc:302-328 | exactly the shards the address advertises, ascending |
| Placement.EveryShardIsAdvertised | tpu_sync/core/raiden_manager_base.cc:290-328 | every shard is advertised by some served address |
| Placement.AdvertisingAgainstServing | tpu_sync/core/raiden_manager_base.cc:290-328 | an address a shard is told to use advertises it; the converse fails only without a node or without a shard of its own |

## Left out

- RawCopy.ComputeAndValidateChunks: an overflowing product is taken to wrap around, where the language leaves it undefined.
- ShmAllocator.Allocator.OpenSegment: does not model wrap-around of the summed table; a table that reaches 2^64 cannot be written by the modelled steps.
- StagingArena.Arena.Acquire: one call at a time under the arena's mutex; moving a whole arena is not modelled.
- PendingPulls.Backend.Destroy: covers backends whose pending calls are all started; a request still being sent while its backend is destroyed is not modelled.
- PendingPulls.Backend.AwaitEmpty: the wait is a method that says whether it may return, since no method can block; interleavings are covered by the steps.
- Pacer jobs and pending calls are numbered records; reference counts of shared pointers appear only as release events and as the owners of a pending call.
- Segment reference counts, several segments and devices per process, two processes attached at once, and DMA mapping.
- Presence of empty sub-messages in programs; message contents that are only copied are plain values.
- `StagingBlockAllocator`, `RegionsCoverRange` (a parameter here), `IsPartialCopy` and `ValidatePartialAlignment`.
- Socket, sysfs and NUMA system calls, environment parsing, telemetry, the TCP control plane, the second call of `InitTransportServer` (which returns the existing server), and all language bindings.
