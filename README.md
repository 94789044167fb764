# DXRSandbox core, modelled in Dafny

DXRSandbox is a DirectX 12 ray-tracing sandbox. This project models the
parts of it that carry its own logic rather than calls into Direct3D:

- **CPUMemory**: the process-wide arena. One block holds an allocation
  table, a scratch region and a client region. Allocation bumps a cursor
  and records a slot under a fresh handle. Freeing compacts the client
  region through the scratch region and renumbers the handles of the
  records that moved (`arena.dfy`, `arena_findings.dfy`).
- **Typed views** over arena handles: single and array views, `operator+`,
  `GetBytesHandle`, and `ZeroData`/`FlushData`/`CopyData`/`CompareData`
  in each pairing. Also `CPUMemoryLoan`, a scoped allocation (`views.dfy`).
- **The shader PRNG**: the xorshift128 step of `SharedPRNG_Code.h`, the
  SplitMix64-based seeding and the jump in `Render.cpp`. Also the
  triangle repacking and the octree node count (`prng.dfy`, `render.dfy`,
  `words.dfy`).
- **Access permission sets** and the resource variants (`permissions.dfy`,
  `enums.dfy`).
- **GPU resource descriptions**: custom and vertex-buffer descriptions,
  `InitFromScratch` and `InitFromSharedResrc` with their transition check
  (`gpu_resource.dfy`).
- **The DXWrapper tables**: format sizes, permission decoding, resource
  states, footprint alignment, the descriptor heap layout, the root
  signature ranges, the static samplers, semantic indices and the
  input-layout table, and command-list creation (`dx_formats.dfy`,
  `dx_tables.dfy`).
- **Pipelines**: resource and shader registration, handle decoding, the
  event array, and baking and submitting the command list, including
  the shared root-signature binding flags (`pipeline.dfy`,
  `pipeline_events.dfy`).
- **Geometry loaders**:
  - the OBJ loader's line scan, face parsing, index conversion, quad
    split and winding flip (`obj_text.dfy`, `obj_loader.dfy`);
  - the DXRS binary loader, with a writer of the format to state the
    round trip (`dxrs_loader.dfy`).

Fixed-width integers are unbounded `nat`s. Wrap-around is written out
where it matters: uint32 decrement, uint64 SplitMix arithmetic,
index narrowing, and the uint32 handle sentinel. Bytes are `Byte` values;
the 32-bit PRNG words are `seq<bool>` of width 32. Fatal `assert`s of the
source become `requires`: the caller must keep them, as in a debug build.
Device calls (command-list reset, close, bind, dispatch, draw, submit)
are returned as a log of `DeviceCall` values, so their order can be
stated.

Where the code and its comments disagree, the model follows the code.
Where the code is evidently wrong, both the code as written and the
evident intent are modelled (see "## Findings"). The rest of the model
uses the intended behaviour.

## Model

| member | source | states |
|---|---|---|
| ArenaLayout.HandleBits | CPUMemory.h:15-29 | the handle type is the narrowest unsigned type holding the block size, 32 bits for both builds |
| ArenaLayout.BuildConstants | CPUMemory.cpp:7-47 | 32-bit handles, so the empty sentinel is 0xFFFFFFFF; the allocation table fits before the scratch region; the client region is smaller than the scratch region |
| ArenaLayout.PackedOrdered | CPUMemory.cpp:89-107 | in a packed slot table an earlier record ends no later than a later one starts |
| ArenaLayout.PackedFits | CPUMemory.cpp:89-107 | a packed table fits in any region holding its end |
| ArenaLayout.PackedEndIsUsed | CPUMemory.cpp:89-107 | memUsed is exactly the sum of the live record sizes |
| ArenaLayout.Compact | CPUMemory.cpp:201-221 | after removing slot k, earlier records stay and later ones move down one slot and down by k's size |
| ArenaLayout.LoweredThenDropped | CPUMemory.cpp:205-221 | lowering the bases above k and then bubbling k out is the compacted table |
| ArenaLayout.PackedWithin | CPUMemory.cpp:89-107 | every record of a packed table ends within it |
| ArenaLayout.LoweredExact | CPUMemory.cpp:205-212 | on a packed table, lowering a record above k by k's size never underflows |
| ArenaLayout.CompactPacked | CPUMemory.cpp:182-244 | compaction keeps the table packed and shortens it by exactly the removed size |
| ArenaLayout.StagedCopy | CPUMemory.cpp:201-215 | staging the span above k into scratch and copying it back to k's base moves it down byte for byte |
| ArenaLayout.CompactDataAt | CPUMemory.cpp:182-244 | every surviving record keeps its bytes across a compaction |
| ArenaLayout.Renumber | CPUMemory.cpp:224-241 | the intended handle table after removal: the freed handle is emptied and every entry above k drops by one |
| ArenaLayout.AppendLayout | CPUMemory.cpp:165-180 | appending a record under a fresh handle keeps the tables packed and in agreement |
| ArenaLayout.AppendContents | CPUMemory.cpp:89-107 | after an append the new handle holds the bytes between the old and new end; no other handle changes |
| ArenaLayout.RemoveAgrees | CPUMemory.cpp:182-244 | removal keeps the slot table and handle table in agreement |
| ArenaLayout.RemoveKeepsHandle | CPUMemory.cpp:182-244 | a surviving handle still names its record, holding the same bytes |
| ArenaLayout.RemoveContents | CPUMemory.cpp:182-244 | removal drops the freed handle and every other handle holds exactly what it held |
| ArenaLayout.FixedIsRenumber | CPUMemory.cpp:224-227 | the corrected fix-up loop leaves the renumbered table |
| ArenaLayout.RemoveMovesAbove | CPUMemory.cpp:201-215 | a surviving record keeps its address below k and moves down by k's size above it |
| ArenaLayout.WritePrefix | CPUMemory.cpp:62-70 | writing the first bytes of a record changes only that handle's contents: the new bytes and then its old tail |
| ArenaLayout.WriteRecord | CPUMemory.cpp:62-70 | overwriting a whole record changes only that handle, which then holds the new bytes |
| CPUMemory.Arena.Init | CPUMemory.cpp:72-82 | an empty arena: no slots, no handles issued, every table entry empty, nothing used |
| CPUMemory.Arena.Find | CPUMemory.cpp:146-163 | the slot and record a handle names, or None exactly when it names nothing |
| CPUMemory.Arena.GetHandlePtr | CPUMemory.cpp:56-60 | the address of the record a handle names, or None (null) |
| CPUMemory.Arena.AddAlloc | CPUMemory.cpp:165-180 | a new slot at the end under the next handle; that handle's entry names the slot |
| CPUMemory.Arena.AllocateRange | CPUMemory.cpp:89-107 | bump allocation: the handle is fresh, names a record at the old cursor, and every other handle keeps its bytes |
| CPUMemory.Arena.Appended | CPUMemory.cpp:89-107 | the arena invariant holds again after the append and cursor move |
| CPUMemory.Arena.AppendedContents | CPUMemory.cpp:89-107 | the contents after an append are the old ones plus the new handle's bytes |
| CPUMemory.Arena.SpanAbove | CPUMemory.cpp:193-198 | the summing loop returns the bytes above slot ndx, memUsed minus that record's end |
| CPUMemory.Arena.LowerBases | CPUMemory.cpp:205-212 | every record above ndx moves down by the removed size; nothing else changes |
| CPUMemory.Arena.BubbleOut | CPUMemory.cpp:218-221 | the removed record ends in the last live slot and the others move down one slot in order |
| CPUMemory.Arena.FixHandles | CPUMemory.cpp:224-227 | the corrected fix-up: only entries naming slots that moved down are decremented |
| CPUMemory.Arena.Stage | CPUMemory.cpp:201-202 | the span is copied to the start of scratch; the client region is unchanged |
| CPUMemory.Arena.Unstage | CPUMemory.cpp:215 | the staged bytes land at the destination offset; the rest of the client region is unchanged |
| CPUMemory.Arena.MoveAbove | CPUMemory.cpp:193-215 | the bytes above the freed record move down over it |
| CPUMemory.Arena.Rebind | CPUMemory.cpp:218-227 | after the bubble and the corrected fix-up, the handles name the compacted slots |
| CPUMemory.Arena.BubbledBacks | CPUMemory.cpp:218-221 | back pointers after the bubble, as the fix-up needs them |
| CPUMemory.Arena.BubbledSlots | CPUMemory.cpp:218-221 | after the bubble the live slots are the old ones without ndx |
| CPUMemory.Arena.CloseGap | CPUMemory.cpp:193-231 | closing the gap of a record that is not last: bytes, slots and handles compacted, cursor lowered |
| CPUMemory.Arena.DropLast | CPUMemory.cpp:237-241 | the last record: nothing moves and the cursor returns to its base |
| CPUMemory.Arena.RemoveAlloc | CPUMemory.cpp:182-244 | the freed handle is gone, every other handle keeps its bytes, memUsed drops by the size, one slot fewer |
| CPUMemory.Arena.Removed | CPUMemory.cpp:182-244 | the invariant holds again once the record is gone |
| CPUMemory.Arena.Release | CPUMemory.cpp:109-135 | Free's body for a live record of nonzero size |
| CPUMemory.Arena.Shifted | CPUMemory.cpp:201-215 | records above the removed one moved down by its size |
| CPUMemory.Arena.Free | CPUMemory.cpp:109-135 | freeing a live nonzero record removes it and keeps every other handle's bytes; a zero-size or dead handle is a no-op |
| CPUMemory.Arena.Store | CPUMemory.cpp:62-70 | a memset or memcpy into the client region replaces exactly the bytes written |
| CPUMemory.Arena.Overwrite | CPUMemory.cpp:62-70 | writing through a handle changes only the front of what that handle holds |
| CPUMemory.Arena.ZeroData | CPUMemory.cpp:62-65 | the size bytes at the handle's address become 0, the rest of the region is unchanged; with size the record's size, only that handle's contents change, to zeros |
| CPUMemory.Arena.FlushData | CPUMemory.cpp:67-70 | the first size bytes of the handle's record become 0xff; nothing else changes |
| ArenaFindings.Bubbled | CPUMemory.cpp:218-221 | the slot table after the bubble, of the same length |
| ArenaFindings.FixUpAsWritten | CPUMemory.cpp:224-227 | the fix-up loop as written, a 32-bit decrement of the entry each slot ndx+1 .. numAllocs-1 points back at |
| ArenaFindings.FixUpUntouched | CPUMemory.cpp:224-227 | an entry no visited slot points back at is unchanged |
| ArenaFindings.FixUpLastOnly | CPUMemory.cpp:224-227 | an entry only the last visited slot points back at is decremented once |
| ArenaFindings.FixUpOffByOne | CPUMemory.cpp:224-227 | as written, the handle of the record moved down into slot k still names slot k+1, which now holds the next record, where the intended table names k; the freed entry becomes 0xFFFFFFFE, still out of range, so the freed handle finds nothing |
| ArenaFindings.FixUpExample | CPUMemory.cpp:224-227 | freeing A in [A,B,C] leaves the freed entry 0xFFFFFFFE and B's handle naming C's slot |
| ArenaFindings.InitTableAsWritten | CPUMemory.cpp:137-144 | as written, every handle-table entry starts at 0 |
| ArenaFindings.UnissuedHandleResolves | CPUMemory.cpp:137-163 | with the zeroed table an unissued handle resolves to slot 0; with the empty-filled table none does |
| ArenaFindings.BudgetOverrun | CPUMemory.cpp:105 | the budget check admits a cursor one byte past the client region |
| ArenaFindings.AddAllocAsWritten | CPUMemory.cpp:165-180 | AddAlloc as written: the assert on the slot count, then the slot index stored at index numHandles, inside the table or past its end |
| ArenaFindings.FreeCounts | CPUMemory.cpp:243 | a free takes one slot back and keeps the handle count |
| ArenaFindings.RoundsCounts | CPUMemory.cpp:165-180 | n allocate-and-free rounds leave no slot in use and n handles issued |
| ArenaFindings.HandleOverflow | CPUMemory.cpp:165-180 | the first MaxNumHandles rounds store inside the table; then the check still passes and the next AddAlloc stores at index MaxNumHandles, past the table's end |
| Views.PlusReplaces | CPUMemory.h:88-94 | operator+ replaces the offset rather than adding to it |
| Views.GetBytesHandle | CPUMemory.h:96-99 | a byte view of the same handle and byte length; the element offset is carried over unchanged |
| Views.BytesViewAlignment | CPUMemory.h:96-99 | a byte view's offset equals the typed element's byte offset only at offset 0 or for one-byte elements |
| Views.ElementAddress | CPUMemory.h:73-86 | element i of an array view is the i-th element-sized run of the handle's bytes |
| Views.AllocateArray | CPUMemory.h:220-236 | n elements under a fresh handle, offset 0, and nothing else changes |
| Views.AllocateSingle | CPUMemory.h:214-218 | room for one element under a fresh handle |
| Views.FreeArray | CPUMemory.h:244-249 | only an offset-0 view is freed; the handle is dropped and the others keep their bytes |
| Views.FreeSingle | CPUMemory.h:251-255 | the handle is dropped and the others keep their bytes |
| Views.ZeroArray | CPUMemory.h:107-117 | arrayLen elements of zero bytes from the allocation's base, whatever the view's offset |
| Views.ZeroSingle | CPUMemory.h:107-117 | sizeof(T) zero bytes |
| Views.FlushArray | CPUMemory.h:119-130 | arrayLen elements of 0xff bytes from the allocation's base |
| Views.FlushSingle | CPUMemory.h:119-130 | sizeof(T) bytes of 0xff |
| Views.BytesAt | CPUMemory.h:132-178 | the first n bytes a handle holds |
| Views.CopyBytes | CPUMemory.h:132-178 | dst's first n bytes become src's; nothing else changes |
| Views.CopyArrays | CPUMemory.h:132-141 | src.arrayLen elements, base to base |
| Views.CopyThenCompare | CPUMemory.h:132-141 | after a full CopyData between views of equal length, CompareData on the pair (CPUMemory.h:180-188) returns 0, and only the destination changed |
| Views.CopyArrayOut | CPUMemory.h:143-148 | the view's elements, from the base, returned to the caller |
| Views.CopyArrayIn | CPUMemory.h:150-155 | the caller's bytes written from the base of the view's allocation |
| Views.CopySingles | CPUMemory.h:157-164 | sizeof(T) bytes, base to base |
| Views.CopySingleOut | CPUMemory.h:166-171 | sizeof(T) bytes returned to the caller |
| Views.CopySingleIn | CPUMemory.h:173-178 | the caller's sizeof(T) bytes written at the handle's base |
| Views.MemcmpZero | CPUMemory.h:180-212 | memcmp is zero exactly on equal byte strings |
| Views.CompareArrays | CPUMemory.h:180-188 | memcmp of arrayLen elements from each base: zero exactly when the contents agree |
| Views.MemcmpSwap | CPUMemory.h:180-212 | swapping memcmp's operands negates it; it returns -1, 0 or 1 |
| Views.CompareArrayWith | CPUMemory.h:200-205 | a view against caller memory: zero exactly when the view's bytes equal the caller's |
| Views.CompareWithArray | CPUMemory.h:207-212 | caller memory against a view: the negation of the other order, zero exactly when the bytes agree |
| Views.Loan.Open | CPUMemory.h:265-278 | the loan's constructor allocates loanSize bytes under a fresh handle |
| Views.Loan.Close | CPUMemory.h:265-278 | the destructor frees the loan's handle and keeps the others' bytes |
| Views.LoanScope | CPUMemory.h:265-278 | a loan's scope leaves every older handle holding what it held |
| Prng.Rotr11 | Shaders/SharedPRNG_Code.h:38 | rotation right by 11, bit by bit |
| Prng.UnshiftXor | Shaders/SharedPRNG_Code.h:31-35 | x ^ (x << 9) is undone by shifts of 9, 18 and 27 |
| Prng.UnrotateLeft | Shaders/SharedPRNG_Code.h:38 | rotating right by 11 undoes the step's rotation |
| Prng.MiddleWords | Shaders/SharedPRNG_Code.h:33-36 | the middle words of a step differ by w1 ^ (w1 << 9) |
| Prng.ThirdWord | Shaders/SharedPRNG_Code.h:33-36 | the third word is recovered from the second |
| Prng.StepInvertible | Shaders/SharedPRNG_Code.h:28-41 | the step is a bijection: Unstep recovers the state it started from |
| Prng.ZeroFixed | Shaders/SharedPRNG_Code.h:28-41 | the all-zero state steps to itself and yields 0 |
| Prng.Channel.constructor | Shaders/SharedPRNG_Code.h:15-19 | a channel holding the given state |
| Prng.Channel.Next | Shaders/SharedPRNG_Code.h:28-41 | returns the output of the old state and advances the state by one step |
| Render.GetSeed | SandboxApp/Render.cpp:61-83 | the seeding loop as written, against its closed form |
| Render.SeedAsWrittenCanBeZero | SandboxApp/Render.cpp:64-80 | a time whose SplitMix state has 32 clear low bits seeds the all-zero channel, which yields 0 forever |
| Render.ZeroSeedTime | SandboxApp/Render.cpp:64-80 | the time 0x80B583EB is such a time |
| Render.SplitMixCycle | SandboxApp/Render.cpp:68-75 | one SplitMix64 cycle: the state advanced by the increment modulo 2^64, and an output from which Unmix recovers that state |
| Render.Mix | SandboxApp/Render.cpp:70-76 | the SplitMix64 finaliser: a 64-bit output |
| Render.UnshiftRightInverts | SandboxApp/Render.cpp:72-76 | each z ^= z >> k step loses nothing: UnshiftRight undoes it |
| Render.MulWrapInverts | SandboxApp/Render.cpp:73-75 | each wrapping multiplication by an odd constant is undone by its inverse modulo 2^64 |
| Render.MixInvertible | SandboxApp/Render.cpp:70-76 | Unmix recovers every 64-bit state from its mixed output |
| Render.MixInjective | SandboxApp/Render.cpp:70-76 | two 64-bit states mix to the same output exactly when they are equal |
| Render.MixZeroOnlyAtZero | SandboxApp/Render.cpp:70-76 | only the state 0 mixes to the word 0 |
| Render.CorrectedSeedNonzero | SandboxApp/Render.cpp:64-80 | two consecutive mixed outputs are never both zero, so the intended seed is never the all-zero state |
| Render.SplitMixPair | SandboxApp/Render.cpp:68-78 | the mix's low and high 32-bit halves |
| Render.GetSeedCorrected | SandboxApp/Render.cpp:61-83 | the intended seed: two SplitMix64 outputs fill the four words, and for every clock value the state is not all-zero |
| Render.ZeroState | Shaders/SharedPRNG_Code.h:15-19 | the all-zero state |
| Render.JumpsAdd | SandboxApp/Render.cpp:86-114 | m jumps then n jumps are m + n jumps: channels stay on one stream |
| Render.SeedAndJump | SandboxApp/Render.cpp:86-114 | the channel ends as the seed jumped numJumps times; no jumps leave the seed |
| Render.RepackTriangles | SandboxApp/Render.cpp:211-223 | one triangle per three indices, each narrowed to 32 bits, with a zero fourth lane |
| Render.RepackKeepsIndices | SandboxApp/Render.cpp:211-223 | for indices that fit 32 bits, the triangles' corners are the source indices and every pad is 0 |
| Render.OctreeNodesClosedForm | SandboxApp/Render.cpp:231-246 | 7 * nodes + 1 == 8^(r+1) |
| Render.NumOctreeNodes | SandboxApp/Render.cpp:231-246 | the loop computes 299593 nodes, which fits a uint32 |
| Permissions.UnionHas | ResourceEnums.h:95-117 | a flag is in a union exactly when it is in one of the operands |
| Permissions.UnionHasAll | ResourceEnums.h:100-110 | for every flag at once: a flag is in the bitwise union of two sets exactly when one of them holds it (the per-flag meaning of operator\|= and operator\| on sets) |
| Permissions.ExactlyOne | ResourceEnums.h:70-86 | a pattern equals a flag exactly when it holds that flag and no other |
| Permissions.GenericBoundInclusive | ResourceEnums.h:64-67 | as written, the generic check accepts 4, a bit no generic flag has; the texture check is exclusive |
| Permissions.BoundIsFlagsOnly | ResourceEnums.h:56-68 | with the exclusive bound, a value passes exactly when it is made of the kind's flags |
| Permissions.PermissionSet.Empty | ResourceEnums.h:54 | the default set holds no flag |
| Permissions.PermissionSet.FromFlag | ResourceEnums.h:55 | a set built from one flag holds exactly it |
| Permissions.PermissionSet.FromBits | ResourceEnums.h:56-68 | a raw value is stored as given, once it passes the exclusive bound of its kind |
| Permissions.PermissionSet.EqualsMeansOnly | ResourceEnums.h:70-86 | == holds exactly when the kinds match and the set holds that flag alone |
| Permissions.PermissionSet.AddFlag | ResourceEnums.h:95-98 | operator\|= with a flag adds it and clears nothing |
| Permissions.PermissionSet.AddSet | ResourceEnums.h:100-103 | operator\|= with a set of the same kind stores the bitwise union and keeps the bits within the kind's bound |
| Permissions.PermissionSet.Union | ResourceEnums.h:105-110 | operator\| gives a new set holding the union; the receiver is unchanged |
| Permissions.PermissionSet.UnionFlag | ResourceEnums.h:112-117 | operator\| with a flag: the receiver's flags and that flag |
| Permissions.PermissionSet.GetBitSet | ResourceEnums.h:119-122 | the stored bits |
| DxFormats.FormatSizeAsWrittenShort | DXWrapper.cpp:1211-1256 | as written, D32_FLOAT_S8X24_UINT is sized at 4 bytes, half its texel |
| DxFormats.FormatSize | DXWrapper.cpp:1211-1256 | every listed format gets its texel size in bytes, the rest 0 |
| DxFormats.FormatSizeCorrection | DXWrapper.cpp:1227 | the corrected table differs from the written one on that one format only |
| DxFormats.DecodeStdKeepsSize | DXWrapper.cpp:541-632 | each sandbox format translates to a DXGI format of the same texel bits, which the size table sizes except for the formats it has no case for |
| DxFormats.IBufferSizes | DXWrapper.cpp:656-678 | index formats are 2 or 4 bytes, so the index count is well defined |
| DxFormats.CheckDepthStencilExact | DXWrapper.cpp:634-654 | the depth-stencil check accepts exactly the translations of depth-stencil formats |
| DxFormats.DecodeGeneric | DXWrapper.cpp:1736-1752 | unordered access exactly when writes are allowed; shader reads also denied exactly when writes come without reads |
| DxFormats.DecodeTexture | DXWrapper.cpp:1754-1792 | each texture flag is set under its own condition and no other flag is ever set |
| DxFormats.DecodeVariantToState | DXWrapper.cpp:977-1005 | unordered access exactly for structured buffers and direct-write textures, generic read exactly for constant buffers and sampleable textures; staging textures are never transitioned |
| DxFormats.AlignResrcFootprint | DXWrapper.cpp:1580-1584 | the footprint plus the distance to the next multiple, in uint64 arithmetic |
| DxFormats.AlignIsNextMultiple | DXWrapper.cpp:1580-1584 | without wrap-around, the result is the least multiple of the alignment strictly above the footprint |
| DxTables.LayoutOf | DXWrapper.cpp:910-917 | one element per input element; its semantic index is stated by LayoutIndicesDistinct |
| DxTables.LayoutIndicesDistinct | DXWrapper.cpp:910-917 | elements sharing a semantic get distinct, increasing indices below the semantic's count |
| DxTables.ResolveSemanticIndices | DXWrapper.cpp:910-917 | the loop returns LayoutOf's indices |
| DxTables.InputLayoutTable.constructor | DXWrapper.cpp:934-969 | an empty layout table |
| DxTables.InputLayoutTable.Resolve | DXWrapper.cpp:934-969 | an existing layout's index is returned; otherwise the layout is appended; the table stays duplicate-free |
| DxTables.StageLayout | DXWrapper.cpp:905-908 | the two scratch arrays of a resolve take two fresh handles and 32n + 4n bytes, and hold the element and index bytes written into them |
| DxTables.InitLayoutCopy | DXWrapper.cpp:117-121 | InputLayoutDesc::Init: a fresh array of n elements holding a copy of the staged elements, nothing else changed |
| DxTables.LayoutScratchAsWritten | DXWrapper.cpp:905-972 | as written, with n > 0: after a reused layout the arena holds what it held before plus the semantic-index array; after a new layout it also holds the layout's own element copy, and the staging elements are gone on both paths |
| DxTables.LayoutScratch | DXWrapper.cpp:905-972 | with both scratch arrays freed and n > 0: after a reused layout the arena holds exactly what it held before; after a new layout it holds that plus the layout's element copy and nothing more |
| DxTables.SrvPart | DXWrapper.cpp:703-741 | the SRV descriptors: the acceleration structure, then the read-only textures |
| DxTables.UavPart | DXWrapper.cpp:743-780 | the UAV descriptors: the structured buffers, then the read-write textures |
| DxTables.DescriptorOrder | DXWrapper.cpp:689-780 | the heap order: the constant buffer, then the SRVs, then the UAVs |
| DxTables.Emit | DXWrapper.cpp:689-701 | one descriptor at the cursor, which then advances by one increment |
| DxTables.EmitRun | DXWrapper.cpp:704-780 | a run of n descriptors, advancing the cursor n times |
| DxTables.EmitSrvs | DXWrapper.cpp:703-741 | the SRV loop writes exactly SrvPart |
| DxTables.EmitUavs | DXWrapper.cpp:743-780 | the UAV loops write exactly UavPart |
| DxTables.WriteDescriptors | DXWrapper.cpp:689-780 | the descriptor heap holds DescriptorOrder, one increment apart |
| DxTables.PackRanges | DXWrapper.cpp:782-862 | at most three ranges, one per view type; which ones is stated by PackRangesExpected |
| DxTables.PackRangesExpected | DXWrapper.cpp:782-862 | the ranges are exactly the CBV, SRV and UAV ranges that are non-empty |
| DxTables.PackRangesContiguous | DXWrapper.cpp:782-862 | each range starts where the one before it ends |
| DxTables.RangeTypeAtExpected | DXWrapper.cpp:782-862 | offsets below the CBV count are CBV, the next NumSRVs are SRV, the rest UAV |
| DxTables.DescriptorsMatchRanges | DXWrapper.cpp:689-862 | every descriptor written lies in a range of its own type |
| DxTables.DescriptorTypeAt | DXWrapper.cpp:689-780 | the type of the descriptor at each heap offset |
| DxTables.NumStaticSamplers | DXWrapper.cpp:876-878 | the number of samplers switched on |
| DxTables.OnlyLinearBindsPoint | DXWrapper.cpp:876-879 | as written, with only the linear sampler on, the point sampler is bound |
| DxTables.BoundSamplers | DXWrapper.cpp:876-879 | the intended binding: the samplers switched on, in register order |
| DxTables.SamplersAgreeWhenPaired | DXWrapper.cpp:876-879 | as written and as intended agree when both or neither sampler is on |
| DxTables.CmdListTable.constructor | DXWrapper.cpp:2192-2217 | no command lists |
| DxTables.CmdListTable.CreateCmdList | DXWrapper.cpp:2192-2217 | the old count is returned and the counter moves on; created exactly when the table had room |
| Resources.StagingDimensionsShort | GPUResource.h:18-22 | as written, staging descriptions hold one dimension while their generator reads a second |
| Resources.NumDimensions | GPUResource.h:18-22 | the corrected dimension count: textures, staging included, have two |
| Resources.NumDimensionsCorrection | GPUResource.h:174-175 | the corrected count differs from the written one for staging only |
| Resources.CustomDescriptor.Value | GPUResource.h:34-42 | the description as a value, as it is copied into a resource |
| Resources.CustomDescriptor.constructor | GPUResource.h:34-42 | no stride, zero dimensions, the placeholder name and the empty view |
| Resources.CustomDescriptor.InitForCBuffer | GPUResource.h:43-52 | a constant buffer of the given size, backed by its view from the start |
| Resources.CustomDescriptor.InitForStructBuffer | GPUResource.h:54-65 | numElts elements of the element type, backed by the byte view of the typed source |
| Resources.CustomDescriptor.InitForStructBufferBytes | GPUResource.h:67-73 | a given stride and a byte view taken as it is |
| Resources.VBufferDescriptor.Value | GPUResource.h:88-111 | the vertex-buffer description as a value |
| Resources.VBufferDescriptor.constructor | GPUResource.h:88-96 | arrays holding whatever was there before |
| Resources.VBufferDescriptor.Init | GPUResource.h:97-111 | the given elements, formats and contents |
| Resources.TransitionFor | GPUResource.h:342-346 | a transition exactly when the variants differ and the destination is not an acceleration structure |
| Resources.TransitionsAreTextureToTexture | GPUResource.h:272-301 | a transition passing both checks goes from a texture to a shader-visible texture variant |
| Resources.Resource.constructor | GPUResource.h:306 | the zeroed default resource |
| Resources.Resource.InitFromScratch | GPUResource.h:309-320 | the description, access and index are stored; staging textures need copy-only access |
| Resources.Resource.InitFromSharedResrc | GPUResource.h:322-347 | the source's description, object and access are copied; the transition is TransitionFor |
| PipelineEvents.EventRecord.Value | Pipeline.h:223-268 | the payload the tag selects |
| PipelineEvents.EventRecord.AssignClear | Pipeline.h:241-263 | the record reads as the given clear; the other payloads are kept |
| PipelineEvents.EventRecord.AssignCopy | Pipeline.h:241-263 | the record reads as the given copy; the other payloads are kept |
| PipelineEvents.EventRecord.AssignComputeExec | Pipeline.h:241-263 | the record reads as the given dispatch; the other payloads are kept |
| PipelineEvents.EventRecord.AssignGraphicsExec | Pipeline.h:241-263 | the record reads as the given draw; the other payloads are kept |
| PipelineEvents.DefaultEvent | Pipeline.h:233-239 | the zeroed default event reads as a compute dispatch of zero size |
| PipelineEvents.Values | Pipeline.h:279-281 | the payloads of an event array, in order |
| PipelineEvents.BindState.constructor | Pipeline.cpp:639-641 | no root signature bound |
| PipelineEvents.HasComputeStep | Pipeline.cpp:653-664 | a prefix of events has a dispatch exactly when the shorter prefix does or the last event dispatches |
| PipelineEvents.BindsAtMostOnce | Pipeline.cpp:653-675 | issuing from an unbound state binds each signature once if some event needs it, else never |
| PipelineEvents.OneBinds | Pipeline.cpp:653-675 | one event binds a signature exactly when it needs it and it was not bound |
| PipelineEvents.WorkInOrder | Pipeline.cpp:700-703 | without the bindings, the issued calls are the events' dispatches and draws in order |
| PipelineEvents.WorkOne | Pipeline.cpp:643-678 | one event's work: a dispatch, a draw, or nothing for copies and clears |
| PipelineEvents.BindBeforeSubmit | Pipeline.cpp:653-675 | from an unbound state every dispatch follows the compute binding and every draw the graphics binding |
| PipelineEvents.IssueToCmdList | Pipeline.cpp:643-678 | the calls one event issues, and the binding flags after it |
| Pipelines.Bump | Pipeline.cpp:127-249 | one more resource of a variant: its count goes up when it is an array variant, nothing else changes |
| Pipelines.Bundle.constructor | Pipeline.cpp:8-68 | an empty bundle |
| Pipelines.Bundle.Store | Pipeline.cpp:127-249 | a fresh resource initialised from scratch in one slot; the other slots are unchanged |
| Pipelines.Bundle.Clear | Pipeline.cpp:72-125 | counts and flags cleared and the command list set; dispatch sizes, index count and layout kept |
| Pipelines.Bundle.Reset | Pipeline.cpp:250-308 | a fresh default resource in one slot; the others are unchanged |
| Pipelines.AllocateBundles | Pipeline.cpp:78-81 | one fresh empty bundle per pipeline |
| Pipelines.Registry.constructor | Pipeline.cpp:6-70 | no pipeline yet, no bundles, no command lists, nothing bound |
| Pipelines.Decode | Pipeline.cpp:383-441 | the resource a handle names in its pipeline's bundle, if that slot is filled |
| Pipelines.SwitchAllows | Pipeline.cpp:250-308 | the switch lets every variant be shared as itself, buffers only as buffers and textures only as textures, staging textures and acceleration structures only as themselves |
| Pipelines.BufferSharingKeepsVariant | Pipeline.cpp:250-308 | a buffer is shared only as its own variant |
| Pipelines.TextureSharingStaysTexture | Pipeline.cpp:250-308 | textures are shared only as textures, staging textures only as staging textures |
| Pipelines.BakeBindsAtMostOnce | Pipeline.cpp:685-721 | a bake binds the compute and graphics signatures at most once each, exactly when some event needs them |
| Pipelines.RootSignatureLeadsWithCbv | Pipeline.cpp:449-481 | the constant buffer range sits at offset 0 and every other range starts after it |
| Pipelines.IssueLog | Pipeline.cpp:700-703 | the loop issues each recorded event in order, threading the binding flags |
| Pipelines.Pipeline.constructor | Pipeline.h:85-88 | default members and a default event in every slot |
| Pipelines.Pipeline.Init | Pipeline.cpp:72-125 | the next id is taken, bundles are allocated on the first pipeline, the bundle is cleared and given a new command list, the pipeline's state is reset |
| Pipelines.Pipeline.Reset | Pipeline.cpp:98-124 | init's reset of the pipeline's own state: no events or dependencies, samplers off, root signature unresolved, not baked, dynamic exactly when requested; the id and root signature are kept |
| Pipelines.Pipeline.RegisterCounted | Pipeline.cpp:137-211 | the resource takes the next slot of its variant, the count goes up by one, the handle decodes to it |
| Pipelines.Pipeline.RegisterCBufferAsWritten | Pipeline.cpp:127-135 | as written the registered flag is never set, so the bundle's state is unchanged |
| Pipelines.Pipeline.CBufferTwiceAsWritten | Pipeline.cpp:127-135 | two registrations in a row both pass; the second replaces the first |
| Pipelines.Pipeline.RegisterCBuffer | Pipeline.cpp:127-135 | the intended registration: stored in its slot and the flag set |
| Pipelines.Pipeline.RegisterRenderTargetAsWritten | Pipeline.cpp:176-187 | as written the wrong counter goes up and the handle is tagged direct-write, so it does not decode to the render target |
| Pipelines.Pipeline.RegisterDepthStencil | Pipeline.cpp:189-199 | one per pipeline: stored and the flag set |
| Pipelines.Pipeline.RegisterVBuffer | Pipeline.cpp:213-225 | stored, and its input layout resolved at once |
| Pipelines.Pipeline.RegisterIBuffer | Pipeline.cpp:227-237 | stored, and the index count set to the first dimension |
| Pipelines.Pipeline.RegisterAccelerationStructure | Pipeline.cpp:239-249 | stored and the flag set |
| Pipelines.Pipeline.RegisterShared | Pipeline.cpp:250-381 | the source resource, found through its pipeline and allowed by the switch, is copied into the next slot; the handle names it; the transition is TransitionFor |
| Pipelines.Pipeline.EnableStaticSamplers | Pipeline.cpp:443-447 | both samplers on, nothing else changes |
| Pipelines.Pipeline.ResolveRootSignature | Pipeline.cpp:449-481 | the root signature is resolved from the bundle's counts and recorded |
| Pipelines.Pipeline.ResolveInputLayout | Pipeline.cpp:483-490 | the vertex buffer's layout is re-resolved |
| Pipelines.Pipeline.RegisterComputeShader | Pipeline.cpp:492-510 | needs the root signature; the dispatch size is recorded under the new shader's index |
| Pipelines.Pipeline.RegisterGraphicsShader | Pipeline.cpp:512-568 | needs the root signature and an input layout; depth testing needs a depth-stencil |
| Pipelines.Pipeline.RegisterRaytracingShader | Pipeline.cpp:570-589 | needs the root signature |
| Pipelines.Pipeline.AppendClear | Pipeline.cpp:611-615 | one clear recorded after the others |
| Pipelines.Pipeline.AppendCopy | Pipeline.cpp:617-625 | one copy recorded after the others |
| Pipelines.Pipeline.AppendComputeExec | Pipeline.cpp:627-631 | one dispatch recorded, its size taken from the bundle at the shader's index |
| Pipelines.Pipeline.AppendGfxExec | Pipeline.cpp:633-641 | one draw recorded, its index count taken from the bundle |
| Pipelines.Pipeline.ResetStagingCmds | Pipeline.cpp:680-683 | the recorded events are forgotten |
| Pipelines.Pipeline.BakeCmdList | Pipeline.cpp:685-721 | reset if baked before, every event issued in order, the list closed, the pipeline marked baked, the flags cleared, the events dropped unless dynamic |
| Pipelines.Pipeline.SubmitCmdList | Pipeline.cpp:723-737 | bake exactly when events are pending; issue the list exactly when the pipeline is baked |
| ObjText.AtoiNumeral | SandboxApp/GeoLoader.cpp:216 | atoi reads back a numeral, signed or not, whatever non-digit follows |
| ObjText.Wrap32 | SandboxApp/GeoLoader.cpp:216 | atoi's int stored into a uint32 |
| ObjText.CstypeWithTypeIgnoredAsWritten | SandboxApp/GeoLoader.cpp:149 | as written, a curve line naming its type is ignored instead of failing the load |
| ObjText.ClassifyFailsExactly | SandboxApp/GeoLoader.cpp:118-155 | a line fails the load exactly when it starts with 'l' or the curve keyword |
| ObjText.ClassifyReadsSixChars | SandboxApp/GeoLoader.cpp:118-155 | only a line's first six characters decide its kind |
| ObjText.Crawl | SandboxApp/GeoLoader.cpp:200-229 | the face crawl: three integers, each ended by '/' or NUL |
| ObjText.FirstSlash | SandboxApp/GeoLoader.cpp:209-226 | the index of a token's first '/', or its length |
| ObjText.ReadSegment | SandboxApp/GeoLoader.cpp:209-226 | reading one integer over m characters and its terminator |
| ObjText.FirstSegment | SandboxApp/GeoLoader.cpp:209-226 | the crawl reads a token's first field as its next integer |
| ObjText.RestHeld | SandboxApp/GeoLoader.cpp:209-226 | past the first '/', the rest of the token is still held |
| ObjText.ReadFirst | SandboxApp/GeoLoader.cpp:209-226 | the first field of a held token is read as the next integer |
| ObjText.ReadPast | SandboxApp/GeoLoader.cpp:209-226 | after the first '/', the crawl continues with the rest of the token, which is still held |
| ObjText.FieldsOfRest | SandboxApp/GeoLoader.cpp:209-226 | the fields after a slash are the fields of the rest |
| ObjText.ReadSecond | SandboxApp/GeoLoader.cpp:209-226 | past a slash the next field goes into the next slot |
| ObjText.NormalOfToken | SandboxApp/GeoLoader.cpp:209-226 | the third integer of a token with two slashes |
| ObjText.CornerOfToken | SandboxApp/GeoLoader.cpp:200-229 | a held, NUL-terminated token is read as its fields |
| ObjText.FreshTok | SandboxApp/GeoLoader.cpp:159-167 | a cleared attribute buffer at the start of each line |
| ObjText.TokStep | SandboxApp/GeoLoader.cpp:169-240 | one pass of the attribute loop on one character |
| ObjText.Tokenize | SandboxApp/GeoLoader.cpp:169-240 | the attribute loop over a line |
| ObjText.TokenizeSplits | SandboxApp/GeoLoader.cpp:169-240 | the attributes are the line's space-separated tokens, each at most fifteen characters |
| ObjLoader.LineEnd | SandboxApp/GeoLoader.cpp:105-113 | where a line ends: its '\n', or the end of the data |
| ObjLoader.CountPositive | SandboxApp/GeoLoader.cpp:169-240 | a decoded line has at least one attribute |
| ObjLoader.TokenCounts | SandboxApp/GeoLoader.cpp:169-240 | the attribute count is the tokenizer's; a face line has one corner per attribute |
| ObjLoader.ScanShaped | SandboxApp/GeoLoader.cpp:102-263 | the scan keeps its counters in step |
| ObjLoader.FaceLineFails | SandboxApp/GeoLoader.cpp:242-259 | a face line fails exactly with more than four attributes, or a count other than the last face line's |
| ObjLoader.FailingLineStops | SandboxApp/GeoLoader.cpp:142-155 | a polyline or curve line fails the load and the scan stops there |
| ObjLoader.ReadLine | SandboxApp/GeoLoader.cpp:105-113 | the line is copied into a zeroed buffer up to its '\n' |
| ObjLoader.ParseCorner | SandboxApp/GeoLoader.cpp:200-229 | the crawl's three integers, each ended by '/' or NUL |
| ObjLoader.CharAt | SandboxApp/GeoLoader.cpp:163-172 | attribute character j is line character offs + j; past the end it is NUL |
| ObjLoader.Feed | SandboxApp/GeoLoader.cpp:169-240 | one pass of the attribute loop: the character is buffered and an ended attribute is counted |
| ObjLoader.Attributes | SandboxApp/GeoLoader.cpp:157-240 | a decoded line's attribute count and, on a face line, its corners |
| ObjLoader.ScanLine | SandboxApp/GeoLoader.cpp:102-263 | one line read and applied; stop set where the loader breaks out |
| ObjLoader.ScanOneLine | SandboxApp/GeoLoader.cpp:102-263 | the scan past one line |
| ObjLoader.ScanObj | SandboxApp/GeoLoader.cpp:102-263 | the scan runs line by line until the data ends or a line fails |
| ObjLoader.PosIndices | SandboxApp/GeoLoader.cpp:313-318 | each corner's position minus one, in 32-bit arithmetic |
| ObjLoader.UvPairs | SandboxApp/GeoLoader.cpp:313-318 | each corner's texture index paired with its geometry index |
| ObjLoader.IndicesAreZeroBased | SandboxApp/GeoLoader.cpp:313-318 | positions 1..n become 0..n-1 and position 0 wraps to the largest uint32 |
| ObjLoader.ConvertIndices | SandboxApp/GeoLoader.cpp:310-320 | the conversion loop writes PosIndices and UvPairs |
| ObjLoader.GeoOrder | SandboxApp/GeoLoader.cpp:364-373 | the geometry corner order: (2,1,0) then (0,3,2) |
| ObjLoader.UvOrder | SandboxApp/GeoLoader.cpp:378-389 | the texture corner order: (0,1,2) then (2,3,0) |
| ObjLoader.Triangulate | SandboxApp/GeoLoader.cpp:347-392 | six corners per quad |
| ObjLoader.TriangulatePrefix | SandboxApp/GeoLoader.cpp:347-392 | the triangles of the earlier quads come first |
| ObjLoader.TriangulateAt | SandboxApp/GeoLoader.cpp:347-392 | corner m of quad j's triangles is the quad's corner order[m] |
| ObjLoader.UvTrianglesFollowGeometry | SandboxApp/GeoLoader.cpp:347-392 | each quad's texture triangles name the same vertices as its geometry triangles, in the opposite winding |
| ObjLoader.OrdersMirror | SandboxApp/GeoLoader.cpp:364-389 | corner m of a texture triangle is corner 2 - m of the geometry one |
| ObjLoader.CornerShared | SandboxApp/GeoLoader.cpp:347-392 | a texture corner and the matching geometry corner name the same vertex |
| ObjLoader.EmitQuad | SandboxApp/GeoLoader.cpp:349-391 | one pass of the quad loop writes quad i's six geometry and six texture corners |
| ObjLoader.BuildTriangles | SandboxApp/GeoLoader.cpp:341-392 | the quad loop fills the scratch arrays with every quad's triangles |
| ObjLoader.SplitQuads | SandboxApp/GeoLoader.cpp:339-398 | the triangles are copied over the output indices and the texture pairs |
| ObjLoader.CopyOver | SandboxApp/GeoLoader.cpp:394-395 | the whole source array over the front of the destination |
| ObjLoader.Flipped | SandboxApp/GeoLoader.cpp:421-426 | the indices with each triangle's first and third corner swapped |
| ObjLoader.FlipReverses | SandboxApp/GeoLoader.cpp:421-426 | every triangle is reversed |
| ObjLoader.FlipKeepsTail | SandboxApp/GeoLoader.cpp:421-426 | nothing past the last triangle moves |
| ObjLoader.FlipTwice | SandboxApp/GeoLoader.cpp:421-426 | flipping twice restores the indices |
| ObjLoader.FlipStep | SandboxApp/GeoLoader.cpp:421-426 | one pass of the flip loop |
| ObjLoader.FlipDone | SandboxApp/GeoLoader.cpp:421-426 | the loop's end state is Flipped |
| ObjLoader.FlipWinding | SandboxApp/GeoLoader.cpp:417-427 | in place, the array becomes Flipped of its old contents |
| ObjLoader.VertexCountAsWritten | SandboxApp/GeoLoader.cpp:307 | as written, vertsFront / vertStride, which divides by zero with no position line |
| ObjLoader.NoPositionsDividesByZero | SandboxApp/GeoLoader.cpp:307 | with no position line the divisor is zero |
| ObjLoader.VertexCount | SandboxApp/GeoLoader.cpp:297-307 | the vertex count, zero when there were no positions |
| ObjLoader.BuildIndices | SandboxApp/GeoLoader.cpp:310-427 | the triangulated or flipped indices and the texture pairs |
| ObjLoader.LoadObj | SandboxApp/GeoLoader.cpp:68-540 | a failed scan gives the triangle 0,1,2; otherwise the vertex count, the indices and the texture pairs; the placeholder textures are 1024 x 1024 |
| DxrsLoader.ReadStored | SandboxApp/GeoLoader.cpp:554-565 | a value stored little-endian reads back |
| DxrsLoader.StoreRead | SandboxApp/GeoLoader.cpp:554-565 | reading bytes and storing the value gives the bytes back |
| DxrsLoader.EncodeHeader | SandboxApp/GeoLoader.cpp:11-23 | a header laid out as the format's writer does, padding zero |
| DxrsLoader.FieldRoundTrip | SandboxApp/GeoLoader.cpp:554-565 | one header field survives writing and reading |
| DxrsLoader.HeaderRoundTrip | SandboxApp/GeoLoader.cpp:554-565 | every header field survives writing and reading |
| DxrsLoader.EncodeVertex | SandboxApp/GeoLoader.cpp:25-30 | a file vertex laid out as the format's writer does |
| DxrsLoader.VertexRoundTrip | SandboxApp/GeoLoader.cpp:579 | a vertex survives writing and reading |
| DxrsLoader.CopyVertexKeepsFile | SandboxApp/GeoLoader.cpp:581-594 | the intended copy loses nothing; the material and scattering land in mat.z and mat.w |
| DxrsLoader.CopyVertexAsWrittenLosesX | SandboxApp/GeoLoader.cpp:581-592 | as written, x, u and n.x never reach the output and the y lanes are stale |
| DxrsLoader.CopyVertexAsWrittenExample | SandboxApp/GeoLoader.cpp:581-592 | the vertex (1, 2, 3) loads as (2, 0, 3) |
| DxrsLoader.Layout | SandboxApp/GeoLoader.cpp:571-614 | where each region starts: header, vertices, 4-byte indices, spectral, roughness |
| DxrsLoader.VertexInEncoding | SandboxApp/GeoLoader.cpp:574-598 | vertex i of a written file sits at its offset |
| DxrsLoader.IndexInEncoding | SandboxApp/GeoLoader.cpp:600-604 | index i of a written file sits at its offset |
| DxrsLoader.EncodedHeader | SandboxApp/GeoLoader.cpp:554-571 | the header of a written file is the one written, and the walk ends at the file's end |
| DxrsLoader.EncodedVertex | SandboxApp/GeoLoader.cpp:574-598 | each vertex of a written file reads back |
| DxrsLoader.EncodedIndex | SandboxApp/GeoLoader.cpp:600-604 | each index of a written file reads back |
| DxrsLoader.IndexRoundTrip | SandboxApp/GeoLoader.cpp:600-604 | a 32-bit index survives writing and reading |
| DxrsLoader.EncodedTail | SandboxApp/GeoLoader.cpp:606-614 | from the spectral region on, the file is the two textures |
| DxrsLoader.EncodedTextures | SandboxApp/GeoLoader.cpp:606-614 | both textures of a written file read back |
| DxrsLoader.LoadOfEncodedFile | SandboxApp/GeoLoader.cpp:543-615 | loading a written file gives back what was written |
| DxrsLoader.IndicesAsWritten | SandboxApp/GeoLoader.cpp:600-604 | the memcpy as written: 4-byte indices laid over 8-byte output entries |
| DxrsLoader.IndicesAsWrittenPackPairs | SandboxApp/GeoLoader.cpp:600-604 | as written, output entry 0 packs file indices 0 and 1 |
| DxrsLoader.CopyVertices | SandboxApp/GeoLoader.cpp:574-598 | the vertex loop writes every file vertex with the corrected copy |
| DxrsLoader.CopyIndices | SandboxApp/GeoLoader.cpp:600-604 | the corrected copy: file index i becomes output entry i |
| DxrsLoader.LoadDxrs | SandboxApp/GeoLoader.cpp:543-615 | the header fields, vertices, indices and textures, each read at its offset |

## Left out

- Direct3D 12 and the window: devices, heaps, views, PSOs, barriers,
  fences and swap chains. Device calls are represented only by the
  `DeviceCall` log.
- Threads and timing. The current time that seeds the PRNG is a
  parameter.
- Floating point: strtof, normal generation, UV values and the
  spectral data. Floats are carried as opaque 32-bit patterns or left
  out.
- File I/O: file contents are parameters.
- The arena's `malloc`/`free` of the block itself (Init and DeInit).
  The client and scratch regions are `seq` fields that methods
  reassign, so aliasing of raw pointers into the block is not modelled.
- CompareData on two single views: its body reads `arrayLen`, which single
  views lack, so it cannot be instantiated.
- Buffer sharing across variants: the switch lists such entries, but
  the resource's own check refuses them (BufferSharingKeepsVariant).
- Sharing an acceleration structure, and `RegisterAccelerationStructure`'s
  shared overload: left out with the acceleration-structure builds.
- Pipelines.Pipeline.RegisterShared: a resource shared with its own
  slot is reset rather than copied. The model states that outcome
  (zeroed object and access) instead of the source's self-copy.
- The constant buffer is always present in the descriptor heap and the
  root signature, as the code assumes.
- DxTables.InputLayoutTable.Resolve: the table bound (512 layouts) is a
  `requires` when a new layout is appended; the source does not check it.
- Pipelines.Pipeline.AppendClear: the event-array bound (32) is a
  `requires`, as are the other Append* methods; the source does not
  check it.
- The descriptor cursor is not bounds-checked against the heap size.
- ObjLoader.ParseCorner: an index longer than the 8-byte `ndx` buffer
  overflows it in the source; the model reads it unbounded.
- ObjText.Crawl: a crawl past the 16-byte attribute buffer reads NUL.
- ObjLoader.ReadLine: lines longer than the 32-byte line buffer are
  excluded by a `requires`.
- ObjLoader.LoadObj: positions, normals, UV values (lines 297-306, 429-511)
  and the texture allocations are left out. The uint32 front counters
  are unbounded. The uninitialised tail of the triangle scratch arrays is
  never read.
- ObjLoader.FlipWinding: for face strides other than 3 and 4 the flip is
  modelled as for triangles, as the code does.
- DxrsLoader.LoadDxrs: reads past the end of the file are undefined in the
  source, so the file must hold every region (`Readable`). The signature
  is not checked, as in the source. width * height is computed unbounded
  where the source uses signed int.
- Render.SeedAndJump: the jump polynomial constants are taken as written.
  They are the xoshiro128+ constants, and no claim is made that they
  jump this generator by 2^64.
- CPUMemory.Arena.Free: freeing a dead or zero-size handle is modelled as
  the no-op that builds with MEM_MGR_TEST perform (CPUMemory.cpp:126-128);
  the assert other builds raise there is not modelled, and is not a
  `requires`.
- DxTables.LayoutScratch: as for LayoutScratchAsWritten below, the arena
  contents are stated only for n > 0.
- DxTables.LayoutScratchAsWritten: the arena contents are stated only for
  n > 0. With no elements the scratch arrays
  are zero-size records, which Free leaves in place (see the Free line
  above), so a zero-element resolve keeps them; the model does not state
  that case. The element and index bytes are parameters: what the two
  resolve loops write is modelled by LayoutOf and ResolveSemanticIndices,
  not by these two.
- The per-record scratch guard (CPUMemory.cpp:210) is implied by the
  invariant (the staged span never exceeds the client region, which is
  smaller than scratch), so it is not a separate check.

## Findings

| source | as written | input that shows it | evidently intended | confidence | as-written member | corrected member |
|---|---|---|---|---|---|---|
| CPUMemory.cpp:224-227 | the handle fix-up runs over slots ndx+1 .. numAllocs-1 after the bubble: it skips the record moved down into slot ndx and visits the freed record parked last | records A, B, C under handles 0, 1, 2; free A: handle 1 (B) then resolves to C's record | every record that moved down is renumbered | high, not executed | ArenaFindings.FixUpExample | CPUMemory.Arena.Rebind |
| CPUMemory.cpp:143 | the handle table is zeroed, so every unissued handle names slot 0 | Init, then GetHandlePtr(5) | unissued handles resolve to nothing | high, not executed | ArenaFindings.UnissuedHandleResolves | CPUMemory.Arena.Init |
| CPUMemory.cpp:105 | the budget check compares memUsed with the scratch footprint | an allocation ending one byte past the client region | the check bounds the client region | high, not executed | ArenaFindings.BudgetOverrun | CPUMemory.Arena.AllocateRange |
| CPUMemory.cpp:167-173 | AddAlloc checks the slot count only, never the handle count, and handles are never reused | 262144 rounds of allocating and freeing one record, then one more allocation: it writes handle-table entry 262144 of 262144 | refuse when no handle is left | medium, not executed | ArenaFindings.HandleOverflow | CPUMemory.Arena.AddAlloc |
| ResourceEnums.h:64-67 | the generic bound is `val <= 4` | the raw value 4 | `val < 4`, as for textures | medium, not executed | Permissions.GenericBoundInclusive | Permissions.PermissionSet.FromBits |
| SandboxApp/Render.cpp:64-80 | the four words come from the halves of one SplitMix64 state, unmixed | the time 0x80B583EB seeds the all-zero state | two mixed SplitMix64 outputs | medium, not executed | Render.SeedAsWrittenCanBeZero | Render.GetSeedCorrected |
| DXWrapper.cpp:1227 | D32_FLOAT_S8X24_UINT is in the 4-byte group | that format | 8 bytes | high, not executed | DxFormats.FormatSizeAsWrittenShort | DxFormats.FormatSizeCorrection |
| GPUResource.h:18-22 | staging textures have one dimension, yet their generator reads two | a staging texture description | two dimensions | high, not executed | Resources.StagingDimensionsShort | Resources.NumDimensionsCorrection |
| DXWrapper.cpp:905-908 | the semantic-index scratch array is never freed | any ResolveInputLayout call with at least one element, new layout or reused | both scratch arrays freed, so only a new layout's element copy remains | high, not executed | DxTables.LayoutScratchAsWritten | DxTables.LayoutScratch |
| DXWrapper.cpp:876-879 | the sampler array always starts at the point sampler | only the linear sampler enabled | start at the first enabled sampler | high, not executed | DxTables.OnlyLinearBindsPoint | DxTables.BoundSamplers |
| Pipeline.cpp:127-135 | RegisterCBuffer never sets its registered flag | two RegisterCBuffer calls | the second call is refused | high, not executed | Pipelines.Pipeline.CBufferTwiceAsWritten | Pipelines.Pipeline.RegisterCBuffer |
| Pipeline.cpp:176-187 | RegisterRenderTarget bumps numTexturesReadOnly and tags the handle direct-write | two render targets | bump numRenderTargets and tag it a render target | high, not executed | Pipelines.Pipeline.RegisterRenderTargetAsWritten | Pipelines.Pipeline.RegisterCounted |
| SandboxApp/GeoLoader.cpp:149 | memcmp over 7 bytes includes the literal's NUL | the line "cstype bspline" | a prefix compare over 6 bytes | medium, not executed | ObjText.CstypeWithTypeIgnoredAsWritten | ObjText.ClassifyFailsExactly |
| SandboxApp/GeoLoader.cpp:307 | vertsFront / vertStride with no position line | a file with faces only | zero vertices | medium, not executed | ObjLoader.NoPositionsDividesByZero | ObjLoader.VertexCount |
| SandboxApp/GeoLoader.cpp:581-592 | x is assigned twice in pos, mat and normals | the vertex (1, 2, 3) | assign x then y | high, not executed | DxrsLoader.CopyVertexAsWrittenExample | DxrsLoader.CopyVertexKeepsFile |
| SandboxApp/GeoLoader.cpp:600-604 | 4-byte file indices are memcpy'd over 8-byte output entries | file indices 0 and 1 with index 1 nonzero | widen each index into its own entry | high, not executed | DxrsLoader.IndicesAsWrittenPackPairs | DxrsLoader.LoadOfEncodedFile |
