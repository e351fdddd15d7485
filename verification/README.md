# Verification of an ANE toolchain

A Dafny model of the code that rewrites compiled ANE task streams, drives
resident device programs, and composes arithmetic from elementwise
submissions, with proofs that each of these keeps the meaning it is there to
keep. `dafny verify dfyconfig.toml` checks the whole project.

## What is modelled

**Task streams.** A compiled program is a byte stream of task descriptors,
linked by a next pointer at +0x1C, each with variable-length register records
behind a 40-byte header. `TaskParsing` and `TaskChain` read it, `GapZeroing`
clears the bytes between tasks, `StrideNormalization` lays it out again at one
stride, `StrideMeaning` and `StreamRelaying` prove what that preserves,
`TaskDiscovery` finds the tasks by closure over links, `Registers` reads and
writes register records, `ChannelRewire` permutes surface selectors in place,
`Bootstrap` packs the 0x300-spaced copy beside the original layout, and
`AnecHeader` with `StructPacking` writes the ANEC header and reads it back.
`WalkExamples`, `TaskDiscoveryTexts` and `ChannelPorts` say the same in terms
of literal words and of the header's ports. `Words`, `Slots`, `Sorting`,
`Bits` and `Grids` hold the shared arithmetic of bytes, slots and flattened
indices. Python's exceptions are `Result` values; an assertion of
the source that can be proved is a Dafny `assert`, not an error path.

**Resident device state.** `WeightPacking`, `TileGemm` and `Projection` cover
packed weight blobs, reused tile programs and the matrix product built from
them, `PinnedProjection` the product over tiles that stay on the device;
`MutableGemm`, `AttentionRing`, `Attention` and `TokenAttention` the ring
attention over programs whose weights change in place;
`CausalConvolution` and `ConvolutionLaws` the ring of the depthwise
convolution; `ExecLoop` and `SurfaceTiling` the state loop and the tiling of
surfaces in C. The engine is a function from the submitted buffers to the
output buffer. Where a theorem
needs to know which function, `Projection.Multiplies` says so: with this
descriptor the outputs are the tile's dot products.

**Composed arithmetic.** `ElementwiseMath`, `ExponentialBounds`,
`ExponentialSqueeze`, `Softmax`, `DecayMultiplier` and `Normalization` model
the 64-lane add, multiply, maximum and square submissions and what is computed
from them; `GatedDelta`, `GatedDeltaKernel` and `RecurrentStep` the gated delta
recurrence as a sequential reference, as a 32-lane kernel over flat buffers,
and as the CPU step with transposed state, and `GatedDeltaLaws` what a step
does. `Vectors` holds sums and dot products. Numbers are exact reals:
half-precision rounding is not modelled, and the bounds are those of the
algorithms themselves.

**Tree walk.** `BtrfsWalk` covers the ranged walk of a btrfs tree.

## Where the code and its description differ

The model follows the code in each of these cases.

- `parse_stream` hands `parse_task` the absolute base of the next task as a
  bound on a task-relative position (tools/staged-task-stream.py:44, 70-72),
  so a stream can pass although a record runs into the next task.
  `GapCounterexample.ParseDoesNotConfine` is such a stream, and
  `GapZeroing.ConfinedIff` says which streams are free of it. `zero_gaps` does
  confine records, because `bytes(limit - end)` raises on a negative count:
  `GapZeroing.ZeroGaps` succeeds on a parsed stream exactly when
  `Confined` holds.
- On a task that links backwards the same bound can be too small. The parse
  then stops early without an error, the bytes behind count as a gap, and
  `zero_gaps` erases the records in them; its own check, which parses with the
  same bound, passes. `GapZeroing.ZeroingKeepsSlotIff` says when a slot keeps
  its records, and `GapCounterexample.ZeroingErasesRecord` is a stream that
  loses one.
- `normalize_stride` promises that records survive, and there are three ways
  to lose them without an error. A link that goes backwards makes the extent
  negative and the body is dropped (tools/staged-task-stream.py:134-135); a
  task whose records end past the stride is clipped to it; and records that
  run past the next base, as the parse accepts them, are clipped there, so
  that they come back changed unless the clipped bytes were zero.
  `StrideMeaning.RecordsSurviveIff` says exactly which tasks keep their
  records, and `StreamRelaying.RelaidRecordsSurviveIff` says it of the tasks
  `parse_stream` returned. `StrideCounterexample.BackwardLinkLosesRecords`,
  `StrideCounterexample.ShortStrideLosesRecords` and
  `StrideCounterexample.OverrunLosesRecords` are streams for the three cases.
- The converter looks for extra header words in header word 9
  (tools/hwxv2-to-anec.py:96-97), the stream tool in word 0
  (tools/staged-task-stream.py:16-17, 38). `Registers.ReadersAgreeIff` states
  when the two readers see the same records, and `Registers.ReadersCanDiffer`
  is a descriptor on which they do not.
- The bootstrap copies `td_size` bytes of each task, which can exceed the gap
  to the next one, so a copy can hold bytes of the last task's header from
  before it was ended. `Bootstrap.WholeDescriptorsAgreeIff` is exact about it
  in terms of the text, and `BootstrapCounterexample.LayoutsCanDisagree` is a
  text where the layouts disagree.
- `derive_strides` checks the width against a plane, not against a row
  (tools/hwxv2-to-anec.py:489): rows hold their width exactly when the
  transfer holds all halfwords of the shape (`AnecHeader.RowsHoldWidthIff`),
  and `AnecHeader.NarrowRowsAreAccepted` is a shape where they do not.
- The header counts tiles of 0x200 bytes; the probe that reads it multiplies
  by its own tile size of 0x4000. Buffer sizes read back are therefore at
  least the sizes written.
- The attention state accepts a context of up to 511 slots, but its value
  program has 256 columns: from the 257th token on `append` raises after the
  key row was written, and with more than 256 slots `attend` always raises
  (tools/attention-runtime.py:90-96, 149-155, 176-180). A run of tokens is
  kept whole exactly when the context has at most 256 slots or the run at most
  256 tokens (`AttentionRing.RunIsKeptIff`); the remembered tokens stay intact.
- A mutable program's blob starts as the tail of its descriptor
  (tools/attention-runtime.py:54-63): it starts clean exactly when that tail
  is zero (`MutableGemm.StartsClean`).
- `blob_swap_gemm` keeps submitting the descriptor of the first call for its
  tile width, which is a fresh product's exactly when the call's own
  descriptor is that one (`TileGemm.Device.OwnDescriptorIff`), and `tile_gemm`
  the blob of the first call for its key. The key
  holds the identity of the matrix, not its contents, so a projection over
  pinned tiles is the product exactly when the tiles are the matrix's own
  (`PinnedProjection.PinnedProductIff`), and multiplies by the first matrix
  otherwise (`PinnedProjection.FirstMatrixStays`).
- Slots not in use are masked with the least half-precision number and keep a
  weight of their own in the softmax total, because the exponential clamps at
  -64. `TokenAttention.TotalIsCausal` gives the exact total, which is the
  tokens' own, as in the reference, exactly when the ring is full
  (`TokenAttention.TotalIsTokensIff`).

## Model

| member | source | states |
|---|---|---|
| TaskParsing.ParseTask | tools/staged-task-stream.py:36-60 | the record loop computes the recursive parse, with its three ways to stop, and raises exactly when the header word is cut off |
| TaskParsing.ParsedIsLaid | tools/staged-task-stream.py:44-59 | a parse that is not truncated returns records that lie one after another in the stream, from the record start up to a place where no record can start |
| TaskParsing.LaidIsParsed | tools/staged-task-stream.py:44-59 | the converse: any records that lie so are exactly what the parse returns, so the parse is the unique reading |
| TaskParsing.ParseTransfers | tools/staged-task-stream.py:36-60 | locality: wherever the same record bytes stand and the walk then stops, another base and bound give the same records |
| TaskParsing.EndIsWordAligned | tools/staged-task-stream.py:53-59 | records end at a multiple of four behind the record start |
| TaskChain.WalkChain | tools/staged-task-stream.py:20-33 | the loop with its visited set computes the walk, faults included, and terminates on cyclic links |
| TaskChain.WalkIsPath | tools/staged-task-stream.py:23-33 | the walk returns a list if and only if it is the path from 0: distinct bases, each the link of the one before, aligned and in range, ended by a null link, a link back into itself or the count |
| WalkExamples.SecondHeaderMustFit | tools/staged-task-stream.py:20-33 | on two headers: one that ends where the stream does is walked, one that ends a byte behind it is refused, and so is a link off the grid |
| GapZeroing.ParseTaskStream | tools/staged-task-stream.py:63-82 | the stream parse with its bounds and assertions computes the specified tasks or the first fault |
| GapZeroing.ParseStreamIsParse | tools/staged-task-stream.py:65-82 | a stream parses to a task list if and only if the bases are its walk and each task is its own bound-limited parse |
| GapZeroing.SlotLimits | tools/staged-task-stream.py:92-94 | the map built from the sorted bases sends each base to the next base up, or the stream end |
| GapZeroing.ZeroEachGap | tools/staged-task-stream.py:95-100 | the loop zeroes exactly the gap bytes, and raises exactly when some record area passes its limit |
| GapZeroing.ZeroGaps | tools/staged-task-stream.py:85-114 | on a parsed stream it succeeds if and only if no record area passes the next base; then both task lists are equal, gaps are zero, all else is unchanged, and no later assertion can fail |
| GapZeroing.ZeroedParsesTheSame | tools/staged-task-stream.py:101-108 | soundness: the zeroed stream parses to the identical tasks, records and ends |
| GapZeroing.AreaSurvives | tools/staged-task-stream.py:109-113 | no header or record byte of any task lies in any gap |
| GapZeroing.ZeroingIsIdempotent | tools/staged-task-stream.py:85-114 | what zero_gaps returned parses to the same tasks, is confined, and comes back unchanged when it is zeroed again |
| GapZeroing.ConfinedIff | tools/staged-task-stream.py:69-75 | a parsed stream is confined if and only if it holds every record area and each task's records are also read when the parse is bounded by the task's own slot |
| GapZeroing.SlotParseIsTaskIff | tools/staged-task-stream.py:69-75 | bounded by its own slot a confined task parses to the same records and end if and only if no record can start where it ended, which a terminator ensures |
| GapZeroing.ZeroingKeepsSlotIff | tools/staged-task-stream.py:91-100 | zeroing a parsed, confined stream leaves a task's own slot reading as before if and only if its records stopped where the stream's parse ended, and leaves the slot's records if and only if no further record stood there |
| GapCounterexample.ParseDoesNotConfine | tools/staged-task-stream.py:69-75 | a concrete stream that parses although its second task's record passes the third task's base |
| GapCounterexample.ZeroingErasesRecord | tools/staged-task-stream.py:69-100 | a concrete stream that parses and is confined, whose second task's slot holds a record the parse does not read and the zeroing erases |
| StrideNormalization.CollectTasks | tools/staged-task-stream.py:126-140 | the collecting loop returns the chain's tasks with clipped bodies, or the fault of an unreadable link |
| StrideNormalization.LayOut | tools/staged-task-stream.py:141-148 | the laid stream is the padded bodies slot by slot, and the mapping sends old bases to slots |
| StrideNormalization.Relink | tools/staged-task-stream.py:149-156 | relinking succeeds exactly when slots hold a link and every link maps, and writes the mapped links and nothing else |
| StrideNormalization.CompareBodies | tools/staged-task-stream.py:160-168 | the final comparison passes exactly when every body survived up to its link word |
| StrideNormalization.NormalizeStride | tools/staged-task-stream.py:117-169 | the whole operation succeeds exactly on relayable inputs, with the relaid stream and the mapping |
| StrideMeaning.ChainIsRelayable | tools/staged-task-stream.py:117-169 | an ascending, aligned, null-terminated chain is relaid without any exception at every stride whose slots can be addressed |
| StrideMeaning.NormalizationKeepsMeaning | tools/staged-task-stream.py:117-169 | for such a chain and any stride on the 0x100 grid that holds its records: the output has n slots, walks 0, stride, 2*stride, ..., and slot i parses to task i's records and end |
| StrideMeaning.NormalizationIsIdempotent | tools/staged-task-stream.py:117-169 | relaying a relaid stream changes no byte |
| StrideMeaning.ForwardTaskSurvives | tools/staged-task-stream.py:134-136 | a task with a null or forward link parses in its slot to the same records and end, if they fit the stride and are zero behind its extent |
| StrideMeaning.BackwardTaskIsEmptied | tools/staged-task-stream.py:134-136 | a task with a backward link parses in its slot to no records at all |
| StrideMeaning.RecordsSurviveIff | tools/staged-task-stream.py:121-136 | a task's records survive the move if and only if it had none, or its link is null or forward, the records end within the stride, and their bytes behind its extent are zero |
| StreamRelaying.RelaidRecordsSurviveIff | tools/staged-task-stream.py:117-169 | the same for every task of a stream that parse_stream accepts, with the records and end it returned |
| StrideCounterexample.BackwardLinkLosesRecords | tools/staged-task-stream.py:134-135 | a concrete three-task stream with one backward link is relaid without an error, and the record of that task is gone |
| StrideCounterexample.ShortStrideLosesRecords | tools/staged-task-stream.py:134-135 | a concrete well-chained task with a 64-word record is relaid at stride 0x100 without an error, and its record is gone |
| StrideCounterexample.OverrunLosesRecords | tools/staged-task-stream.py:134-135 | a concrete stream that parses, well chained and within the stride, whose overrunning record comes back changed without an error |
| Slots.SlotsDetermineStream | tools/staged-task-stream.py:141-148 | two streams with the same slots are the same stream |
| TaskDiscovery.FindSeeds | tools/hwxv2-to-anec.py:246-257 | the scan returns exactly the grid bases that hold the leading record |
| TaskDiscovery.FollowChain | tools/hwxv2-to-anec.py:258-269 | one chain adds only linked bases and everything it reaches, or stops at an unaligned link |
| TaskDiscovery.FindTaskOffsets | tools/hwxv2-to-anec.py:237-289 | the result is strictly ascending and is exactly the least set that holds all seeds and is closed under links and under predecessors with consecutive ids; it fails exactly on a bad range or when a member links to an unaligned header |
| TaskDiscoveryTexts.NumberedChainIsLinked | tools/hwxv2-to-anec.py:271-288 | in the words of the text: a forward chain numbered id, id + 1, ... that ends at a task with the leading record is found whole |
| TaskDiscoveryTexts.LinkedChainIsLinked | tools/hwxv2-to-anec.py:252-269 | a chain of links from a task with the leading record is found whole, however numbered |
| TaskDiscoveryTexts.NothingElseIsLinked | tools/hwxv2-to-anec.py:246-289 | any set that holds all leading tasks and is closed under both rules, as the words of the text state them, holds every task found |
| TaskDiscoveryTexts.NumberedTasksAreFound | tools/hwxv2-to-anec.py:271-282 | a concrete text of two tasks numbered 0 and 1: exactly both are found |
| TaskDiscoveryTexts.UnnumberedTaskIsNotFound | tools/hwxv2-to-anec.py:280-282 | the same text with any other second number: exactly the second task is found |
| Registers.WalkRegisters | tools/hwxv2-to-anec.py:100-126 | the register walk is the record parse of the whole descriptor turned into a map, and fails exactly when a record runs past the end |
| Registers.RegistersAreWritten | tools/hwxv2-to-anec.py:118-125 | the words of a record land at consecutive word addresses, over what was there, and no other register changes |
| Registers.HeaderFields | ane-network.py:117-118 | address and count of a stream header never leak into each other: both are read back |
| Registers.ParseReadsEncoding | ane-network.py:117-126 | any list of encodable writes, placed at a record start and then stopped, parses back to exactly those records |
| Registers.WalkReadsEncoding | ane-network.py:117-126 | the register walk of any such encoding is the sequential register map of the writes |
| Registers.ReadersAgreeIff | tools/hwxv2-to-anec.py:89-126 | the converter and the stream tool read the same records if and only if their extra-word tests agree or neither finds a record where it starts |
| Registers.ReadersCanDiffer | tools/hwxv2-to-anec.py:89-126 | a concrete descriptor in which the converter reads a register write and the stream tool nothing |
| ChannelRewire.SwapIsUndone | tools/hwxv2-to-anec.py:627-634 | every channel inside the declared layout comes back when the swap is applied with the counts exchanged |
| ChannelRewire.OnlyChannelsChange | tools/hwxv2-to-anec.py:656-665 | a rewired selector differs from the old one in the three channel fields alone, and those are swapped channels |
| ChannelRewire.SelectorIsRestored | tools/hwxv2-to-anec.py:656-665 | rewiring a selector with the counts exchanged gives back the word |
| ChannelRewire.CollectChanges | tools/hwxv2-to-anec.py:649-670 | the checking walk queues exactly the changed selectors of the reachable tasks, or rejects, without writing |
| ChannelRewire.RewireSurfaceChannels | tools/hwxv2-to-anec.py:637-673 | the in-place operation computes the specified content and change count, and a rejected stream is left as it was |
| ChannelRewire.RewiringTouchesSelectorsOnly | tools/hwxv2-to-anec.py:637-673 | on aligned reachable tasks every reachable selector is the rewired one and every other byte is unchanged |
| ChannelRewire.RewiringIsUndone | tools/hwxv2-to-anec.py:637-673 | rewiring with the counts exchanged is accepted and restores every byte |
| ChannelPorts.SelectorNamesPorts | tools/hwxv2-to-anec.py:627-665 | a word is accepted if and only if its three 5-bit fields at bits 0, 6 and 12 name declared channels and the one at bit 18 none; each field that named input i or output j then names the slot at which the header declares it |
| ChannelPorts.RewiredStreamNamesPorts | tools/hwxv2-to-anec.py:637-673 | in the bytes the operation leaves, that holds of every task on the path of links from 0 |
| ChannelPorts.LoopUsesSamePorts | tools/production-anec-probe.py:110-135 | the state loop's source and destination slots are the ones the header's reader reports |
| Bootstrap.TerminateTask | tools/production-anec-probe.py:307-318 | the terminal header bits, the cleared size bits and the null link, and nothing else; too short a stream is refused untouched |
| Bootstrap.BuildOriginalPrefix | tools/production-anec-probe.py:321-326 | succeeds exactly on sound counts and ranges, with the copied stream ended at the last selected task |
| Bootstrap.BuildBootstrap | tools/production-anec-probe.py:329-370 | packing fails, on sound inputs, exactly when a task before the last links outside the selection; otherwise every slot holds its task renumbered and relinked, the last one ended |
| Bootstrap.IdKeepsHighHalf | tools/production-anec-probe.py:350-356 | renumbering keeps the high half of the header word as long as the index fits its half |
| Bootstrap.PrefixWalks | tools/production-anec-probe.py:321-326 | the chain walk over the original-layout prefix returns the selected bases in order, however many tasks it may count |
| Bootstrap.PackedWalks | tools/production-anec-probe.py:329-370 | the chain walk over the packed layout returns 0, 0x300, 0x600, ..., however many tasks it may count |
| Bootstrap.LayoutsAgree | tools/production-anec-probe.py:307-370 | the chain walk finds the same n tasks in the same order in both layouts, and corresponding tasks differ only in the 16-bit id and the link word, up to the last task's header |
| Bootstrap.WholeDescriptorsAgreeIff | tools/production-anec-probe.py:307-370 | an earlier task agrees over all its copied bytes if and only if, in the text, the terminal bytes of the last header among them have their final values |
| BootstrapCounterexample.LayoutsCanDisagree | tools/production-anec-probe.py:307-370 | a concrete two-task text with 0x300-byte descriptors 0x100 apart, which packs and whose layouts disagree on the first task |
| StructPacking.UnpackPacked | tools/hwxv2-to-anec.py:540-570 | unpacking returns whatever was packed, for every list of field widths |
| StructPacking.PacksIff | tools/hwxv2-to-anec.py:540-570 | packing succeeds exactly when every value is non-negative and fits its field |
| StructPacking.PackedWords | tools/hwxv2-to-anec.py:540-570 | a packed 4-byte field is a little-endian word behind the fields before it, an 8-byte field two words |
| AnecHeader.StridesAreConsistent | tools/hwxv2-to-anec.py:456-491 | derived planes are whole rows and hold at least one row of halfwords |
| AnecHeader.PaddedRowIsLeast | tools/hwxv2-to-anec.py:456-461 | the padding convention's row is the least positive multiple of 64 that holds the width |
| AnecHeader.AccountedPlaneIff | tools/hwxv2-to-anec.py:480-491 | the task accounts for a plane if and only if all planes make the total, a run is one plane or the total, and the plane is whole rows with room for one |
| AnecHeader.AccountedCoversTransfer | tools/hwxv2-to-anec.py:480-491 | strides taken from the task satisfy N*C*plane = total transfer |
| AnecHeader.RowsHoldWidthIff | tools/hwxv2-to-anec.py:489-491 | a row holds its halfwords if and only if the strides fall back or the transfer holds all N*C*H*W halfwords |
| AnecHeader.NarrowRowsAreAccepted | tools/hwxv2-to-anec.py:489-491 | a concrete shape whose rows are narrower than its width and which passes |
| AnecHeader.WriteSurfaces | tools/hwxv2-to-anec.py:525-541 | a surface loop fills its own slots with covering tile counts and strides and leaves all others |
| AnecHeader.SurfaceTilesAreLeast | tools/hwxv2-to-anec.py:528-541 | a surface's tile count is the least positive one that covers its section and its shape |
| AnecHeader.BuildHeader | tools/hwxv2-to-anec.py:494-570 | fails on underivable strides or too many ports; otherwise packs scalars, outputs from slot 4 on and inputs behind them |
| AnecHeader.WideScalarsAreLaidOut | tools/hwxv2-to-anec.py:544-566 | content, stream and kernel size stand in eight bytes each at bytes 0, 16 and 24 |
| AnecHeader.NarrowScalarsAreLaidOut | tools/hwxv2-to-anec.py:544-568 | descriptor size, descriptor count, input count and output count stand in four bytes each at bytes 8, 12, 32 and 36 |
| AnecHeader.TilesAreLaidOut | tools/hwxv2-to-anec.py:544-569 | the tile count of slot bdx stands at byte 40 + 4 bdx |
| AnecHeader.SlotIsLaidOut | tools/hwxv2-to-anec.py:536-570 | shape and strides of slot bdx stand in six 8-byte fields from byte 168 + 48 bdx on |
| AnecHeader.FixedTilesAreLeast | tools/hwxv2-to-anec.py:516-518 | the tile counts of command and workspace are the least ones that hold content and workspace |
| AnecHeader.HeaderReadsBack | tools/production-anec-probe.py:102-152 | reading a written header returns every scalar and every surface in its own slot with its shape, strides and a buffer of at least section and shape size |
| AnecHeader.BufferHoldsTransfer | tools/production-anec-probe.py:123-138 | when the task accounts for the strides, the buffer read back holds the task's whole transfer |
| BtrfsWalk.Walk.VisitNode | tools/btrfs-raw.py:175-181 | a node appends exactly its subtrees' items in range, though it skips and stops by keys |
| BtrfsWalk.Walk.VisitLeaf | tools/btrfs-raw.py:182-188 | a leaf appends exactly its items in range, though it stops at the first one above |
| BtrfsWalk.WalkTree | tools/btrfs-raw.py:167-191 | on every well-ordered tree of any height the ranged walk is the unbounded walk filtered to the range, in order; without bounds it is every item |
| BtrfsWalk.NothingAbove | tools/btrfs-raw.py:177-178 | behind a pointer above the range no subtree holds an item in range |
| BtrfsWalk.NothingBelow | tools/btrfs-raw.py:179-180 | a subtree whose successor starts at or below the range holds no item in range |
| BtrfsWalk.FilterSelects | tools/btrfs-raw.py:167-191 | the filter is an order-keeping selection of every item in range and no other |
| BtrfsWalk.FirstDifferenceDecides | tools/btrfs-raw.py:170 | keys are ordered by object, then type, then offset |
| BtrfsWalk.SelectedMeans | tools/btrfs-raw.py:185-189 | both bounds of the range are included |
| SurfaceTiling.Tile | patches/libane-ane.c:588-618 | both the plain copy and the nested loops give the padded layout: dense halfwords in their rows and planes, zeros in all padding |
| SurfaceTiling.Untile | patches/libane-ane.c:620-650 | the inverse copy gives each dense halfword from its place in the tile |
| SurfaceTiling.UntilingIsInverse | patches/libane-ane.c:588-650 | untiling a tiled surface is the identity, for all dimensions that fit |
| SurfaceTiling.TilingIsInverseIff | patches/libane-ane.c:588-650 | tiling what was untiled gives the tile back if and only if its padding is zero |
| SurfaceTiling.ElementsKeepCoordinates | patches/libane-ane.c:607-616 | the element at (n, c, h, w) stands at the same coordinates of the padded surface, and coordinates outside the dense extents are zero |
| SurfaceTiling.TileBytes | patches/libane-ane.c:601-605 | the tile's halfwords are the N*C*P bytes that are cleared and copied |
| ExecLoop.Program.PrefillSparesInputs | patches/libane-ane.c:483-492 | sentinels never land on a buffer the engine is about to read |
| ExecLoop.Session.ExecWithStateSwap | patches/libane-ane.c:458-503 | one submission through swapped or plain handles: prefilled or written channels, and success exactly when the first output's first word is not the sentinel |
| ExecLoop.Loop.InputsAreCurrent | patches/libane-ane.c:474-480 | every iteration feeds the engine the fixed sources and the newest state |
| ExecLoop.Loop.LoopAdvances | patches/libane-ane.c:518-524 | a completed iteration leaves the next state in the channel of its parity and the one before in the other |
| ExecLoop.Session.Run | patches/libane-ane.c:510-525 | after n successful iterations the n-th iterate is in the destination for odd n and the source for even n, the one before in the other, all else as specified; refused arguments change nothing, and after any failure the newest state is intact |
| CausalConvolution.CausalConvolution.Call | tools/softmax-runtime.py:447-484 | one call returns the tap-ordered sum over state and new value and shifts the state; a badly shaped or non-finite call changes nothing |
| CausalConvolution.CausalConvolution.ConvolveAll | tools/softmax-runtime.py:466-482 | the result does not depend on the 64-lane chunks |
| CausalConvolution.StateIsPast | ane-qwen-model.py:329-331 | the concatenate-and-shift state after any run is the last rows, silence before the first |
| CausalConvolution.Run | tools/softmax-runtime.py:435-484 | over any run from zeros every result is the causal window at its time, tap by tap in order, for any lane multiply and add |
| ConvolutionLaws.ResultIsDot | tools/softmax-runtime.py:466-482 | over the reals every result is the dot product of the weight row with the last values, oldest first: tap j meets the value of time t + 1 + j - size |
| ConvolutionLaws.ImpulseReturnsValue | tools/softmax-runtime.py:473-479 | a weight row that is 1 at tap j alone returns the value of time t + 1 + j - size |
| ConvolutionLaws.NewestMeetsLastTap | tools/softmax-runtime.py:473-479 | values 1, 2 under the weights 10, 1 give 12 |
| GatedDeltaKernel.DecayLane | receipts/2026-09-21-gdn-prefill-exact/gated_delta_ref.py:64-69 | one lane's first loop: its registers decayed, its partial sum against the key |
| GatedDelta.LaneSumsAreDot | receipts/2026-09-21-gdn-prefill-exact/gated_delta_ref.py:70-80 | the sum of all lanes' partial sums is the dot product |
| GatedDeltaKernel.Token | receipts/2026-09-21-gdn-prefill-exact/gated_delta_ref.py:63-83 | the 32 lanes together take the reference step and produce its output |
| GatedDeltaKernel.PointersRead | receipts/2026-09-21-gdn-prefill-exact/gated_delta_ref.py:38-49 | at every token the flat pointers read the token's own query, key, value and beta, with value head h on key head h / (Hv / Hk) |
| GatedDeltaKernel.GatesRead | receipts/2026-09-21-gdn-prefill-exact/gated_delta_ref.py:18-28 | scalar and per-lane gating read the reference's decay |
| GatedDeltaKernel.OutputIsOwned | receipts/2026-09-21-gdn-prefill-exact/gated_delta_ref.py:43-45 | no two pairs of row and token write the same output |
| GatedDeltaKernel.ThreadGroup | receipts/2026-09-21-gdn-prefill-exact/gated_delta_ref.py:30-99 | one thread group writes its row's outputs and final state and nothing else |
| GatedDeltaKernel.Launch | receipts/2026-09-21-gdn-prefill-exact/gated_delta_ref.py:171-211 | in any schedule of the thread groups the final state is the sequential reference's under any mask, and outputs are the reference's at unmasked tokens and zero at masked ones |
| GatedDeltaLaws.StepReadsOut | receipts/2026-09-21-gdn-prefill-exact/gated_delta_ref.py:150-168 | read out by any x, one step adds beta * (value - recalled) * <key, x> to what the decayed row held for x |
| GatedDeltaLaws.KeyReadsValue | receipts/2026-09-21-gdn-prefill-exact/gated_delta_ref.py:150-168 | read out by its own key the state moves towards the value by beta * <key, key>; with a unit key and beta 1 it reads the value |
| GatedDeltaLaws.OrthogonalOnlyDecays | receipts/2026-09-21-gdn-prefill-exact/gated_delta_ref.py:150-168 | read out by what is orthogonal to the key the state only decays |
| GatedDeltaLaws.TokenReadsOut | receipts/2026-09-21-gdn-prefill-exact/gated_delta_ref.py:150-211 | the recurrence obeys the read-out law at every unmasked token and keeps the row at masked ones |
| GatedDeltaLaws.OutputReadsNewState | receipts/2026-09-21-gdn-prefill-exact/gated_delta_ref.py:160-166 | an unmasked token's output is the new state read out by its query |
| GatedDeltaLaws.DataAreRowMajor | receipts/2026-09-21-gdn-prefill-exact/gated_delta_ref.py:38-49 | query, key, value and beta of a token stand at their row-major places, with key head hv / (Hv / Hk) |
| GatedDeltaLaws.GatesAreRowMajor | receipts/2026-09-21-gdn-prefill-exact/gated_delta_ref.py:18-28 | so does the gate, one a head or one a key lane |
| RecurrentStep.CpuStep | ane-qwen-model.py:349-357 | the in-place CPU step leaves the specified state and output |
| RecurrentStep.CpuStepIsReference | ane-qwen-model.py:349-357 | each column of the CPU step is the reference step of that value lane, and its output the reference's |
| ElementwiseMath.ReduceSum | tools/softmax-runtime.py:157-168 | the halving reduction is the sum of all 64 lanes |
| ElementwiseMath.ReduceMax | tools/softmax-runtime.py:157-168 | the halving reduction is the largest lane |
| ElementwiseMath.Exp | tools/softmax-runtime.py:170-190 | the submissions compute, lane by lane, the clamped, reduced, expanded and squared-back exponential |
| ExponentialBounds.TaylorIsBounded | tools/softmax-runtime.py:173-187 | on [-2, 0] the degree-6 polynomial stays in (0, 1] |
| ExponentialBounds.ExpIsBounded | tools/softmax-runtime.py:170-190 | for every argument up to 0 the exponential lies in (0, 1], and is exactly 1 at 0, for both ranges in use |
| ExponentialBounds.ExpKeepsOrder | tools/softmax-runtime.py:170-190 | with the softmax range a larger argument never gets a smaller exponential |
| ExponentialSqueeze.ExpIsPower | tools/softmax-runtime.py:170-190 | for a divisor d that is a power of two the exponential is the polynomial at x/d, multiplied with itself d times |
| ExponentialSqueeze.SoftmaxExpIsSqueezed | tools/softmax-runtime.py:170-190 | on [-64, 0] the softmax's exponential lies between (1 + x/256)^256 and 1/(1 - x/128)^128 |
| ExponentialSqueeze.ActivationExpIsSqueezed | tools/softmax-runtime.py:170-190 | on [-16, 0] the activations' exponential lies between (1 + x/16)^16 and 1/(1 - x/8)^8 |
| Softmax.NewtonSquaresError | tools/softmax-runtime.py:192-200 | after k iterations the reciprocal's error is the first error squared k times |
| Softmax.TwelveSquaringsVanish | tools/softmax-runtime.py:192-200 | for every total in [1, 128] twelve iterations leave an error of at most 2^-32 |
| Softmax.Submissions | tools/softmax-runtime.py:128-155 | the submissions of one call give exponential times reciprocal under the scores' maximum, in score order |
| Softmax.SoftmaxIsNormalized | tools/softmax-runtime.py:128-155 | every output is positive and they sum to 1 - (1 - total/128)^4096, which lies in [1 - 2^-32, 1] |
| Softmax.SoftmaxKeepsOrder | tools/softmax-runtime.py:128-155 | a higher score never gets a lower probability |
| Softmax.SoftmaxFallsOff | tools/softmax-runtime.py:128-155 | against the probability of a largest score, that of a score at distance x lies between the two powers of x, distances beyond -64 counting as -64 |
| Softmax.Call | tools/softmax-runtime.py:128-155 | any 128 scores give a positive, order-keeping distribution that falls off from the largest score as the exponential of the distance does; any other count is refused |
| Softmax.SigmoidLanes | tools/softmax-runtime.py:311-333 | the sigmoid's submissions compute one weight over the sum of two exponentials |
| Softmax.SigmoidsAreComplementary | tools/softmax-runtime.py:311-333 | the sigmoid lies strictly between 0 and 1, and sums with its mirror image to 1 up to 2^-64 |
| Softmax.SigmoidIsShare | tools/softmax-runtime.py:311-333 | from 0 on the sigmoid is the share of weight 1 against the exponential of -x, and at -x the other share |
| Softmax.SharesFallOff | tools/softmax-runtime.py:320-333 | the smaller share against the larger one falls off as the exponential does |
| DecayMultiplier.SoftplusIsBounded | tools/softmax-runtime.py:258-278 | the softplus lies above max(c, 0), by more than 0 and at most 25/36 |
| DecayMultiplier.MultiplierIsBounded | tools/softmax-runtime.py:234-282 | for every a_log up to 0 the decay factor lies in (0, 1], and it is 1 where a_log is 0 |
| DecayMultiplier.SoftplusFollowsTail | tools/softmax-runtime.py:258-278 | above max(c, 0) the softplus adds 2 e/(e + 2) for e the exponential of -abs(c), and at most a twenty-fourth more |
| DecayMultiplier.MultiplierIsSqueezed | tools/softmax-runtime.py:234-282 | the factor is the exponential of softplus times a_log, and e that of -abs(alpha + bias), to within the two powers |
| DecayMultiplier.Call | tools/softmax-runtime.py:234-282 | vectors of one length and a_log values up to 0 give one factor in (0, 1] each, independently of the 64-lane chunks; all others are refused |
| Normalization.StartIsClose | tools/softmax-runtime.py:555-557 | for both exponent parities the start satisfies abs(1 - x*y*y) <= 1/2 |
| Normalization.StepOnResidual | tools/softmax-runtime.py:560-566 | each step maps the residual d to d*d*(3 + d)/4 |
| Normalization.FiveStepsConverge | tools/softmax-runtime.py:560-566 | five steps leave a residual between 0 and 2^-40 |
| Normalization.PositiveHasExponent | tools/softmax-runtime.py:555 | every positive number has the exponent the start is computed from |
| Normalization.InverseSqrt | tools/softmax-runtime.py:552-567 | every positive value gives a positive y with 0 <= 1 - x*y*y <= 2^-40; any other value raises |
| Normalization.SumSquares | tools/softmax-runtime.py:543-550 | chunk squares, partial sums and the final reduction give the row's sum of squares |
| Normalization.Normalize | tools/softmax-runtime.py:506-541 | one row is, element by element, the element times inverse root times scale, times its own weight, with each refusal in its case |
| Normalization.L2NormIsScale | tools/softmax-runtime.py:502-541 | for every row and output scale, the squared norm of the L2 form times (sum + eps) is scale^2 times the sum, up to 2^-40 of it |
| Normalization.RmsIsOne | tools/softmax-runtime.py:493-541 | for every row, the scaled row's square sum times the larger of mean square and eps is the row's square sum, up to 2^-40 of it |
| Normalization.RmsMeanIsOne | tools/softmax-runtime.py:493-541 | so where the mean square is at least eps, the scaled row's mean square is 1 up to 2^-40 |
| WeightPacking.Pack | ane-runtime.py:119-147 | packing into a reused buffer gives the whole blob, padding cleared; a matrix or buffer of another shape is refused untouched |
| WeightPacking.ElementsAreStored | ane-runtime.py:134-135 | element (row, column) is stored at its block, shift, column and lane, and read back from there |
| WeightPacking.PackingIsInjective | ane-runtime.py:128-147 | matrices with the same blob are equal |
| TileGemm.Gemm | ane-runtime.py:230-258 | a fresh product submits command, source and descriptor of its operands, and refuses each bad shape |
| TileGemm.FreshIsInjective | ane-runtime.py:230-258 | command and source of a product determine its tile and activation, so the engine can be any function of the two |
| TileGemm.NarrowSubmission | ane-runtime.py:230-243 | the narrow submission, halfword by halfword: descriptor, 16 blocks of 32 rows behind six zeros, column by column, and the activation every 32 halfwords |
| TileGemm.WideSubmission | ane-runtime.py:246-258 | the wide submission, halfword by halfword: descriptor, blocks without front padding, and the activation every 32 halfwords |
| TileGemm.Program.Rewrite | ane-runtime.py:363-378 | after rewriting, the persistent buffers hold exactly what a fresh product of the zero-padded tile submits, whatever they held before; a one-element activation is spread, one of another length is refused |
| TileGemm.Device.BlobSwapGemm | ane-runtime.py:324-392 | for any history of calls the result is a fresh product's with the descriptor of the width's first call; other widths are untouched |
| TileGemm.Device.OwnDescriptorIff | ane-runtime.py:324-362 | a call gives the results of a fresh product under its own descriptor, for every engine, if and only if its width has no program yet or one with that descriptor |
| TileGemm.TileCache.TileGemm | ane-runtime.py:260-321 | a key's product always uses the tile and descriptor of its first call |
| Projection.TileDot | ane-qwen-model.py:228-242 | a padded tile's dot product is the sum over the columns it covers |
| Projection.Project | ane-qwen-model.py:202-249 | over the rewritten program, for every matrix shape and both tile widths each result is the row's full dot product; a matrix without columns or a foreign width is refused |
| Projection.DefaultWidth | ane-qwen-model.py:206-207 | without a width of the caller's, wide tiles from 512 columns on |
| PinnedProjection.ProjectPinned | ane-qwen-model.py:213-249 | over pinned tiles the projection is the product with the matrix that is pinned where a tile is pinned, and the given one elsewhere; pinning its own tiles changes no element of that matrix |
| PinnedProjection.PinnedProductIff | ane-runtime.py:260-285 | that is the product with the given matrix, for every activation, if and only if all its pinned tiles hold its own elements |
| PinnedProjection.FirstMatrixStays | ane-runtime.py:260-285 | once all tiles of a matrix are pinned, any other matrix of its shape and identity is multiplied as the first |
| PinnedProjection.ProjectMatrix | ane-qwen-model.py:202-249 | matrices of 100,000,000 elements and more go through pinned tiles, all others through the rewritten program, with each one's product and refusals |
| MutableGemm.StartsClean | tools/attention-runtime.py:54-63 | the initial blob is zero if and only if the descriptor's tail is |
| MutableGemm.MutableGemm.WriteRow | tools/attention-runtime.py:82-88 | a row write changes exactly that row's places, and refuses other rows and shapes untouched |
| MutableGemm.MutableGemm.WriteColumn | tools/attention-runtime.py:90-96 | a column write changes exactly the output rows' places in that column, and refuses the rest untouched |
| MutableGemm.RowOfWritten | tools/attention-runtime.py:82-88 | in the logical matrix a row write replaces that row alone |
| MutableGemm.ColumnOfWritten | tools/attention-runtime.py:90-96 | in the logical matrix a column write replaces that column's output rows alone |
| MutableGemm.CleanBlobIsPacked | ane-runtime.py:128-136 | while padding is zero the blob is the packed logical matrix |
| MutableGemm.MutableGemm.Run | tools/attention-runtime.py:98-124 | a run submits the current weights and the spread activation and returns the output rows |
| MutableGemm.MutableGemm.RunMultiplies | tools/attention-runtime.py:98-124 | with clean weights every result is its logical row's dot product, and row 511, which signals completion, comes out zero |
| AttentionRing.History.AppendedTokens | tools/attention-runtime.py:162-168 | appending puts the new token in the cursor's slot and leaves every other slot's token |
| AttentionRing.History.SlotSumIsAttended | tools/attention-runtime.py:176-180 | the sum over slots is the sum over the last min(m, context) tokens in arrival order |
| AttentionRing.RunIsKeptIff | tools/attention-runtime.py:146-168 | a fresh ring keeps a whole run of tokens if and only if its context has at most 256 slots or the run at most 256 tokens; the cursor reaches 256, where every token is refused, exactly in longer contexts after 256 tokens |
| Attention.BlobsAppend | tools/attention-runtime.py:162-168 | writing a token's key row and value column keeps both blobs equal to the packed ring matrices |
| Attention.AttentionGemmState.Append | tools/attention-runtime.py:162-168 | over any sequence of appends the blobs agree with the history; a refused token changes no remembered one |
| Attention.AttentionGemmState.AppendAll | tools/attention-runtime.py:162-168 | any run of shaped tokens leaves the state with the history of the tokens offered in turn |
| Attention.AttentionGemmState.Scores | tools/attention-runtime.py:170-174 | each slot's score is its own key against the query, and unused slots are masked |
| Attention.AttentionGemmState.Attend | tools/attention-runtime.py:176-180 | the weighted values are the sum over remembered tokens in arrival order; another number of probabilities, or more than 256 slots, is refused |
| TokenAttention.AttendedIsCausal | ane-qwen-model.py:97-105 | under the softmax of the scaled scores the attended element and its normaliser are sums over tokens alone, each weighted from its own key |
| TokenAttention.TotalIsCausal | ane-qwen-model.py:101-104 | the softmax total is the tokens' weights in arrival order and one masked weight for each unused slot |
| TokenAttention.TotalIsTokensIff | ane-qwen-model.py:101-104 | the total is the tokens' own sum, as in the reference, if and only if the ring is full |
| TokenAttention.AttendedIsQuotient | ane-qwen-model.py:101-105 | the attended element times the total is the weighted sum of the values, short of it by at most one part in 2^32 |
| TokenAttention.FullAttention | tools/qwen-token-runtime.py:114-134 | every token is appended to both key-value heads; query heads 0 to 3 attend over the ring of the first and heads 4 to 7 over that of the second; a badly shaped token is refused and remembered nowhere |

## Left out

- Device and operating system: ioctls, memory maps, polling, timeouts other than the state loop's, buffer allocation and release, and the kernel driver.
- Half-precision and bfloat16 rounding, non-finite checks on exact reals, and argmax parity.
- math.frexp: its result is a parameter of Normalization.InverseSqrt, constrained to be the exponent it documents.
- Projection.Project: the fresh products that replace the rewritten program when persistent programs are switched off are TileGemm.Gemm.
- TileGemm.Device.BlobSwapGemm: takes descriptors in whole halfwords and activations of one dimension.
- TileGemm.Gemm: a descriptor longer than the whole command buffer is cut off at its end.
- GatedDeltaKernel.Launch: each thread group runs to its end before the next; groups share no output, so their interleaving is not observable.
- Bootstrap.BuildBootstrap: for descriptor sizes outside 0x20 to 0x300, and bases that overlap in the text, only the refusals are stated.
- Bootstrap.LayoutsAgree: speaks of the bytes copied before the last task's header; WholeDescriptorsAgreeIff covers the rest.
- SurfaceTiling.Tile: demands dimensions for which a tiled plane holds a dense one, as the C code silently does.
- SurfaceTiling.Untile: demands the same dimensions.
- ExecLoop.Session.Run: the number of submissions that complete, stall or are refused is a parameter.
- The uniform-stride branch of the converter, which reads a variable before assigning it, and the gap zeroing of the staged converter, which calls a function its module does not define.
- patch_task_nid, the Mach-O parsing of HWX images, KDMA and tile DMA decoding, weight-blob detection and content copying of the converter.
- The convolution ring of scripts/patch-mlx-lm-convring.py: its compaction copies from one row past the state, so it is not a window.
- The doorbell encoding, whose decoder shifts one unit differently, and the firmware validator, which pins a hash.
- Rotary embedding, residual addition in chunks, and the plain key-value caches and recurrent runners, which are weaker forms of what is proved here.
- Chunk mapping, directory and file reading of the btrfs reader.
- Benchmarks, reports, corpus runners, tokenizer and weight loading.
