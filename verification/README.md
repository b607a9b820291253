# node-ffi: a verified model

A Dafny model of the native core of node-ffi: the allocator behind every closure, the marshalling of
calls, the protocol that brings callbacks of foreign threads to the event loop, and the layout and
packing of arguments. `dafny verify dfyconfig.toml` checks everything.

## The allocator

`deps/libffi/src/dlmalloc.c`, in the configuration that `closures.c` sets up: 64-bit words, 8-byte
alignment, no footers, memory from `mmap` only, no directly mapped chunks.

Memory is a map from addresses to 64-bit words. `Heap.MallocState` has the fields of `malloc_state`
(maps, victim, top) and updates memory in place, as the macros and functions do. Ghost fields say
what the words mean: the chunks that tile each segment, the list of every small bin, the nodes and
rings of every trie, and the mappings made so far. `Valid()` ties the two together:

- chunks tile every segment exactly, up to the top chunk and its foot, or to the segment record and
  its fenceposts; no two free chunks touch; heads, feet and pin bits agree with the neighbours;
- small bins are well-linked lists of chunks of their own size; tree bins are bitwise tries with
  parent and child links and same-size rings, of which one member is in the trie; both maps mirror
  which bins are empty;
- every free chunk is in exactly one of its own bin, the victim and the top;
- segment records describe the segments, and every mapping has kept its offset.

Everything is built from small steps: rewriting tags of chunks in no bin (`Chunks`, `HeapOps`,
`HeapSteps`), rewriting bin links (`SmallBins`, `TreeBins`, `TreeOps`, `TreeMoves`, `HeapState`),
searching (`Bits`, `BinMaps`, `TreeSearch`, `BestFit`), handing out (`Carving`), taking back
(`Releasing`) and growing (`Mapping`, `Growing`). The main results:

- `Dlmalloc` and `Dlfree` keep the invariant and treat all other blocks as promised, with the exact
  condition for failure, the exact choice of chunk, and exactly what becomes of victim, top and segments:
  a new mapping extends the segment it follows, or else one it precedes, at equal offset, or else is
  a segment of its own.
- `Checks`: the debug checkers of the source (`do_check_malloc_state` and all that it calls), which
  read memory only, pass on every valid heap, apart from the bounds by `least_addr` and the footprints.
  They are the source's own statement of the invariant.
- `Client`: over all sequences of allocations, releases and writes, with whatever mappings the system
  makes, the heap refines a store of separate named blocks; each command succeeds exactly when it should,
  and both addresses of a block stay, and lead back to it, until it is released.
- `Closures`: code addresses, and exactly when release by either address works
  (`Closures.FreeAddressExactly`); `Client` shows that it does in every reachable heap.
- `Memalign`: `internal_memalign` always finds its aligned spot, and fails exactly when `dlmalloc` has no
  room for the larger request that it makes. Its rounding loop ends exactly for alignments up to 2^63
  (`Memalign.RoundingEnds`).

## Marshalling

`X64Classes`, `X64Leaves` and `X64Call` model `deps/libffi/src/x86/ffi64.c`. The sizing pass, the
sender and the receiver each have their own loop. The first two are proved to follow one cursor
(`X64Call.Before`); the receiver has a count of its own, which agrees with that cursor whenever the
sender succeeds (`X64Call.CursorsAgree`). All three are also held against the layout of `register_args`
and the fields of the types (`X64Call.Rightly`, `RightRegisters`): what goes in registers, in which, and
where the rest lies on the stack. `X64Call.RoundTrip` puts them together on byte level.
`classify_argument` counts eightbytes from the size alone; a nested struct that straddles an eightbyte
boundary loses a field, and the sender gives up (`X64Call.StraddlingIsRefused`). So the sender succeeds
exactly when every eightbyte in registers has a class, which `NoStraddle`, a property of the type alone,
guarantees. `X64Leaves.ClassifyIsMerge` compares the classification with section 3.2.3 of the System V
ABI, AMD64 supplement.

`S390` does the same for `deps/libffi/src/s390/ffi.c`, for both word sizes, where overflow words and
struct copies share one area from both ends. `Vfp` is the register allocator of
`deps/libffi/src/arm/ffi.c` with its test for candidates. `Raw` is `deps/libffi/src/raw_api.c` in both
byte orders. `Layout` is `initialize_aggregate` and the flattening of arrays in `lib/type.js`.

## Callbacks

`Callbacks` models `src/callback_info.cc` and `src/threaded_callback_invokation.cc` as a step relation
over any number of threads: a step is what happens between two points where another thread may
interfere. The allocator may reuse addresses of deleted invocations. Use of a deleted invocation and
misuse of a mutex are explicit faults. In every run: no fault, calls are dispatched in push order and
once each, results reach their own thread, no signal is lost, nobody is stuck before every call has
returned, and a call costs at most twenty steps. The condition variable is taken to wake
only when signalled. `Callbacks.EarlyWakeFaults` says when the code needs that: in any sound state, a
wake without a signal can lead to the use of a deleted invocation, unless the event loop already holds
the mutex to signal.

`Bridge` has the procedures themselves, `Invoke` and `WatcherCallback` with the methods of
`ThreadedCallbackInvokation`, on shared state that they update in place. Before every access the others
may do anything they can do. Each procedure is proved to be its own part of a run, to finish with what
it promises, and to stop short only where it waits for something that the others never give.

## Model

| member | source | states |
|---|---|---|
| Heap.MallocState.Dlmalloc | deps/libffi/src/dlmalloc.c:4123-4253 | keeps the invariant; a failed call changes nothing; a successful one hands out one 8-aligned block that was not live, whose chunk is less than 32 bytes larger than the padded request, and leaves every other live block as it was, its borrowed last word included; small and large requests take the smallest free binned chunk when one is preferred, else the victim, else the top, and a new mapping only when none of them fits, and victim, top and segments become exactly what that asks for; it fails exactly when only the system can help and that refuses or the size with its foot and a page wraps |
| Heap.MallocState.Dlfree | deps/libffi/src/dlmalloc.c:4255-4353 | keeps the invariant, takes back exactly the given block, and leaves every other live block as it was; victim and top become exactly what joining with the free neighbours makes of them; freeing null changes nothing |
| Checks.CheckMallocState | deps/libffi/src/dlmalloc.c:2851-2877 | every debug check of the source passes on every valid heap, apart from the bounds by least_addr and the footprints; the traversed total is at most what has been mapped |
| Client.Client.Run | deps/libffi/src/closures.c:532-570 | over every sequence of allocations, releases and writes, each command succeeds exactly when the heap has room or the system makes it, or the block is there, and does to the heap and the blocks what it does to an ideal store of separate blocks; until it is released a block keeps both its addresses |
| Client.AddressesStay | deps/libffi/src/closures.c:532-570 | over any part of a run, a block that is not released keeps both its addresses, stays live, and both addresses lead back to it |
| Closures.FreeAddressExactly | deps/libffi/src/closures.c:555-570 | both addresses of every possible block of every segment lead back to it if and only if the executable images are apart from each other and, unless they are the writable memory itself, from all writable memory |
| Memalign.InternalMemalign | deps/libffi/src/dlmalloc.c:3905-3988 | for every alignment up to 2^63: null exactly when nothing but a mapping would do for the request with its alignment, and that is refused or its size wraps; else a block at a multiple of the rounded alignment with room for the request is the only new one, no other block is disturbed, and the invariant holds |
| Heap.MallocState.InsertLargeChunk | deps/libffi/src/dlmalloc.c:3035-3084 | adds one chunk to the chunks that the trees hold, in a root, a leaf or a ring |
| Heap.MallocState.UnlinkLargeChunk | deps/libffi/src/dlmalloc.c:3103-3172 | removes one chunk from the chunks that the trees hold, whatever its position |
| Heap.MallocState.TmallocLarge | deps/libffi/src/dlmalloc.c:3721-3791 | hands out a smallest fit of the whole heap's bins; gives 0 only if nothing fits or the victim fits no worse |
| Heap.MallocState.SysAlloc | deps/libffi/src/dlmalloc.c:3421-3605 | fails exactly when the system refuses or the padded size wraps, and then changes nothing; else the mapping extends the segment it follows at equal offset, or else one it precedes at equal offset, or else becomes a segment of its own, and the request is served at exactly the place that this gives |
| X64Call.RoundTrip | deps/libffi/src/x86/ffi64.c:405-641 | the frame is what the sender leaves and the pointers what the receiver makes of it, and through them it finds every byte of every field, and the hidden pointer; the sender gives up exactly on an eightbyte in registers without a class, so never without straddling structs |
| X64Leaves.ClassifyIsMerge | deps/libffi/src/x86/ffi64.c:141-289 | without straddling structs each eightbyte has the class that the standard asks for: the merger over all fields in it (section 3.2.3 of the System V ABI, AMD64 supplement) |
| S390.RoundTrip | deps/libffi/src/s390/ffi.c:161-680 | for every signature and both word sizes, the frame is what the sender leaves and the addresses what the receiver computes, and at them is every argument, byte by byte, and the hidden pointer |
| S390.AreasApart | deps/libffi/src/s390/ffi.c:165-327 | overflow words growing up and struct copies growing down never meet, within the computed size, after any number of arguments |
| Callbacks.RunsAreSafe | src/callback_info.cc:86-98 | in no run, of any number of threads, is a freed invocation used, a mutex released by somebody else, or a held one destroyed; the invariant holds in every reachable state |
| Callbacks.FirstInFirstOut | src/callback_info.cc:89-95 | calls are dispatched in the order in which they were pushed, each at most once, and none is lost on the way |
| Callbacks.ResumesAfterDispatch | src/threaded_callback_invokation.cc:20-28 | a thread resumes only after the dispatch of its own call, with the result of it, and when the event loop has done with its invocation |
| Callbacks.StuckOnlyWhenQuiet | src/callback_info.cc:160-202 | nobody can go on if and only if every call has returned |
| Callbacks.RunsAreBounded | src/callback_info.cc:160-202 | every run takes at most twenty steps for each call in it, whatever the schedule |
| Callbacks.EveryCallReturns | src/callback_info.cc:160-202 | a run that cannot go on without new calls has pushed, dispatched once and returned from every call, with its own result |
| Callbacks.EarlyWakeFaults | src/threaded_callback_invokation.cc:26-28 | in every sound state, a wake without a signal can lead to the use of a deleted invocation if and only if the event loop has not already locked the mutex to signal |
| Bridge.CallbackQueue.Invoke | src/callback_info.cc:162-202 | whatever the others do between its actions, the procedure is part of a run; if it returns, it does so with the result that its own call was dispatched with, after exactly its own actions; if not, it is waiting for something that the others never give |
| Bridge.CallbackQueue.WatcherCallback | src/callback_info.cc:86-98 | whatever the others do between its actions, the drain is part of a run; when it ends the queue is empty and everything pushed has been dispatched, each with its own result; if it does not end, it is waiting for something that the others never give |
| Vfp.LayoutVfpArgs | deps/libffi/src/arm/ffi.c:741-756 | the fields of the cif are exactly what placing all candidates one after the other gives |
| Vfp.Backfills | deps/libffi/src/arm/ffi.c:703-739 | each run is the lowest free suitable place at that moment, below earlier ones if possible; none is given only if there is none (section 6.1.2 of the procedure call standard for ARM) |
| Raw.RawRoundTrip | deps/libffi/src/raw_api.c:34-179 | in both byte orders, for every signature: the buffer is what one conversion leaves, the pointers what the other finds, both use exactly the bytes of ffi_raw_size, and every argument is recovered |
| Layout.FlatteningIsFaithful | lib/type.js:74-108 | writing fixed-length arrays element by element gives the layout of arrays as blocks |
| Bits.ComputeTreeIndexCorrect | deps/libffi/src/dlmalloc.c:2309-2325 | the branch-free macro gives twice the floor logarithm of the size over 256 plus the next bit, capped at 31 |
| BinMaps.NextMarked | deps/libffi/src/dlmalloc.c:2387-2391 | with left_bits it finds the lowest marked index strictly above a given one, or tells that there is none |
| Heap.MallocState.constructor | deps/libffi/src/dlmalloc.c:2060-2084 | the zeroed static state satisfies the invariant |
| Heap.MallocState.Store | deps/libffi/src/dlmalloc.c:1591-1612 | a client write within a live block keeps the invariant and every other block |
| Heap.MallocState.UseMapping | deps/libffi/src/dlmalloc.c:3543-3606 | the mapping extends the segment it follows at equal offset, or else one it precedes at equal offset, or else becomes a segment of its own; the address returned, the victim and the top are exactly what this gives, and the request always fits |
| Heap.MallocState.Join | deps/libffi/src/dlmalloc.c:3548-3592 | which of the four ways of taking in a mapping is used: first use, append, prepend or new segment |
| Heap.MallocState.ServeBelow | deps/libffi/src/dlmalloc.c:3586-3590 | the request for which a block has been put below a segment is served at the start of that block |
| Heap.MallocState.FirstInit | deps/libffi/src/dlmalloc.c:3548-3561 | the first mapping becomes the only segment, all of it top |
| Heap.MallocState.Append | deps/libffi/src/dlmalloc.c:3568-3575 | a block that follows the top segment at equal offset becomes part of the top chunk |
| Heap.MallocState.TakeBelow | deps/libffi/src/dlmalloc.c:3582-3590 | a block that precedes a segment at equal offset is taken in below its first chunk, and the request is served from it |
| Heap.MallocState.PrependAlloc | deps/libffi/src/dlmalloc.c:3323-3363 | carves the request off the new block and joins the rest with top, victim or a free first chunk |
| Heap.MallocState.PrependRest | deps/libffi/src/dlmalloc.c:3348-3358 | the rest of a prepended block, joined with a free first chunk or not, ends up in exactly its own bin |
| Heap.MallocState.AddSegment | deps/libffi/src/dlmalloc.c:3366-3416 | a block that touches no segment becomes the new top segment; the old one ends in a record and fenceposts, and what is left of the old top is binned |
| Heap.MallocState.PlaceRecord | deps/libffi/src/dlmalloc.c:3367-3378 | the record goes to the foot of the old segment, or to the old top when that is too small to become a chunk |
| Heap.MallocState.WriteSegment | deps/libffi/src/dlmalloc.c:3382-3404 | tags of the new top, the record and the fenceposts, and nothing else |
| Heap.MallocState.PushRecord | deps/libffi/src/dlmalloc.c:3388-3392 | the embedded record moves into the heap and the list now starts with the new block, whose offset is read from its last word |
| Heap.MallocState.InsertFenceposts | deps/libffi/src/dlmalloc.c:3394-3403 | every fencepost from the record to the end of the old segment |
| Heap.MallocState.BinOldTop | deps/libffi/src/dlmalloc.c:3406-3413 | what is left of the old top, when there is any, is a free chunk in its own bin |
| Heap.MallocState.InitTop | deps/libffi/src/dlmalloc.c:3279-3291 | tag of the top and of its foot |
| Heap.MallocState.InitBins | deps/libffi/src/dlmalloc.c:3294-3301 | every small bin header points to itself, and no other word changes |
| Heap.MallocState.SetSegmentFlags | deps/libffi/src/dlmalloc.c:1957-1963 | the offset comes from the last word of the block, which is cleared |
| Heap.MallocState.SegmentEndingAt | deps/libffi/src/dlmalloc.c:3564-3567 | finds the record of the segment that ends at an address, if there is one |
| Heap.MallocState.SegmentStartingAt | deps/libffi/src/dlmalloc.c:3579-3581 | finds the record of the segment that starts at an address, if there is one |
| Heap.MallocState.SegmentHolding | deps/libffi/src/dlmalloc.c:2155-2163 | finds the record of the segment that holds an address, if there is one |
| Heap.MallocState.SmallRequest | deps/libffi/src/dlmalloc.c:4150-4203 | the preference of a small request among its own bin, the next one, the victim, higher bins and trees |
| Heap.MallocState.LargeRequest | deps/libffi/src/dlmalloc.c:4204-4212 | a large request takes the smallest fit of the trees unless the victim fits no worse |
| Heap.MallocState.TakeSmallBin | deps/libffi/src/dlmalloc.c:4157-4168 | a chunk of the bin of the request or the next is handed out whole |
| Heap.MallocState.SplitSmallBin | deps/libffi/src/dlmalloc.c:4170-4195 | the first chunk of the nearest higher bin is handed out whole or split, the rest becoming the victim |
| Heap.MallocState.TmallocSmall | deps/libffi/src/dlmalloc.c:3794-3830 | hands out the smallest chunk of all trees |
| Heap.MallocState.FindSmallest | deps/libffi/src/dlmalloc.c:3798-3810 | the walk of leftmost children from the lowest tree finds a smallest chunk |
| Heap.MallocState.WalkPath | deps/libffi/src/dlmalloc.c:3721-3750 | after the walk along the bits of the request, every fit is met, or ahead below the deepest right subtree passed over |
| Heap.MallocState.FindLarge | deps/libffi/src/dlmalloc.c:3721-3769 | both loops together find a smallest fit, or there is none |
| Heap.MallocState.UseVictim | deps/libffi/src/dlmalloc.c:4213-4231 | the victim is handed out whole or in part |
| Heap.MallocState.UseTop | deps/libffi/src/dlmalloc.c:4233-4243 | the lower part of the top is handed out |
| Heap.MallocState.CarveForVictim | deps/libffi/src/dlmalloc.c:3812-3824 | the lower part is handed out; the rest, if a chunk, becomes the victim and the old victim goes to its bin |
| Heap.MallocState.CarveForBin | deps/libffi/src/dlmalloc.c:3777-3785 | the lower part is handed out; the rest, if a chunk, goes to its own bin |
| Heap.MallocState.ReleaseForward | deps/libffi/src/dlmalloc.c:4306-4341 | joins with a free chunk above: top, victim or binned; the outcome is the top, the victim or in exactly its own bin, and victim and top are exactly what this gives |
| Heap.MallocState.ReleaseWithAbove | deps/libffi/src/dlmalloc.c:4325-4335 | joins with a binned chunk above; the result is the victim or in exactly its own bin |
| Heap.MallocState.ReleaseBackward | deps/libffi/src/dlmalloc.c:4274-4304 | joins with the free chunk below, taken out of its bin unless it is the victim |
| Heap.MallocState.InsertSmallChunk | deps/libffi/src/dlmalloc.c:2964-2980 | adds the chunk to the front of the list of its size and to nothing else |
| Heap.MallocState.UnlinkSmallChunk | deps/libffi/src/dlmalloc.c:2983-3000 | removes just that member of its list |
| Heap.MallocState.UnlinkFirstSmallChunk | deps/libffi/src/dlmalloc.c:3003-3017 | removes just the first member of a list |
| Heap.MallocState.ReplaceDv | deps/libffi/src/dlmalloc.c:3021-3030 | the old victim goes to its bin, the new one takes its place |
| Heap.MallocState.InsertBelow | deps/libffi/src/dlmalloc.c:3049-3082 | the walk ends at a free slot of the path or at a node of the same size |
| Heap.MallocState.DetachBelow | deps/libffi/src/dlmalloc.c:3117-3132 | finds and detaches a leaf below a node, or tells that the node is a leaf |
| Heap.MallocState.Relink | deps/libffi/src/dlmalloc.c:3133-3171 | puts the replacement, or nothing, in the place of the node |
| Heap.MallocState.Adopt | deps/libffi/src/dlmalloc.c:3147-3170 | hands parent and children on to the replacement |
| Heap.MallocState.InsertChunk | deps/libffi/src/dlmalloc.c:3176-3178 | inserts into the bin of the size |
| Heap.MallocState.UnlinkChunk | deps/libffi/src/dlmalloc.c:3180-3182 | removes from the bin of the size |
| SmallBins.InsertSmall | deps/libffi/src/dlmalloc.c:2964-2980 | small bins stay well-linked lists of chunks of their own size, maps mirror emptiness, with p in front |
| SmallBins.UnlinkSmall | deps/libffi/src/dlmalloc.c:2983-3017 | unlinking any member leaves exactly the others, in order, and clears the map bit iff it was the last |
| TreeBins.SamePosition | deps/libffi/src/dlmalloc.c:3049-3067 | two nodes at the same depth whose sizes share the decided bits are one node |
| TreeBins.Descend | deps/libffi/src/dlmalloc.c:3730-3749 | whatever lies below a node is reached through the child on the side of its next bit |
| TreeBins.AttachLeaf | deps/libffi/src/dlmalloc.c:3052-3062 | a new leaf in a free slot of its path keeps the trie order and links |
| TreeBins.DetachLeaf | deps/libffi/src/dlmalloc.c:3118-3127 | clearing the slot of a leaf keeps the trie order and links of the rest |
| TreeBins.Substitute | deps/libffi/src/dlmalloc.c:3133-3171 | any node with the same decided bits may take the place of a node |
| TreeOps.InsertRoot | deps/libffi/src/dlmalloc.c:3042-3047 | insertion into an empty bin |
| TreeOps.InsertLeaf | deps/libffi/src/dlmalloc.c:3052-3062 | insertion of a new size |
| TreeOps.InsertRing | deps/libffi/src/dlmalloc.c:3068-3076 | insertion of a size that the trie has: the ring grows by one, behind its head |
| TreeOps.UnlinkLeaf | deps/libffi/src/dlmalloc.c:3117-3144 | removal of a leaf without a ring |
| TreeOps.UnlinkInner | deps/libffi/src/dlmalloc.c:3117-3171 | removal of an inner node without a ring: the trees hold exactly the other chunks |
| TreeOps.UnlinkHead | deps/libffi/src/dlmalloc.c:3106-3171 | removal of the head of a ring: another member takes its place in the trie |
| TreeOps.UnlinkMember | deps/libffi/src/dlmalloc.c:3106-3114 | removal of a ring member that is not in the trie |
| TreeOps.RingsDisjoint | deps/libffi/src/dlmalloc.c:2698-2747 | rings have no member in common |
| TreeSearch.PathStep | deps/libffi/src/dlmalloc.c:3731-3749 | a fitting chunk below a node of the path is that node, below the next, or below the right child passed over |
| TreeSearch.PassedLarger | deps/libffi/src/dlmalloc.c:3742-3745 | everything in a passed right subtree is larger than the request and than all later nodes of the path |
| TreeSearch.PathPending | deps/libffi/src/dlmalloc.c:3731-3749 | one round of the walk keeps every fitting chunk met or still ahead |
| TreeSearch.LeftmostStep | deps/libffi/src/dlmalloc.c:3761-3768 | the leftmost child precedes all that is not below itself |
| TreeSearch.SearchStep | deps/libffi/src/dlmalloc.c:3051-3062 | one round of the walk of an insertion |
| BestFit.WalkDone | deps/libffi/src/dlmalloc.c:3731-3752 | what is ahead after the walk |
| BestFit.NextBin | deps/libffi/src/dlmalloc.c:3752-3760 | with no fit in the own bin, the smallest is below the root of the next non-empty one |
| BestFit.SearchDone | deps/libffi/src/dlmalloc.c:3761-3770 | the choice at the end is a smallest fit of the whole heap |
| BestFit.FirstOfBin | deps/libffi/src/dlmalloc.c:4170-4180 | the first chunk of the next non-empty small bin is a smallest fit of the whole heap |
| BestFit.VictimBetter | deps/libffi/src/dlmalloc.c:3771-3772 | the wrapped comparison turns the smallest fit down only for a victim that fits no worse |
| BestFit.NothingHuge | deps/libffi/src/dlmalloc.c:4204-4205 | no chunk serves a request of MAX_SIZE_T |
| Chunks.Decode | deps/libffi/src/dlmalloc.c:1716-1760 | size and both bits are read back from the head word |
| Chunks.Split | deps/libffi/src/dlmalloc.c:1747-1753 | cutting a held chunk keeps tiling and tags |
| Chunks.Merge | deps/libffi/src/dlmalloc.c:4276-4300 | joining held neighbours keeps tiling and tags |
| Chunks.Seal | deps/libffi/src/dlmalloc.c:1747-1753 | giving a held chunk its tags keeps tiling and tags, with the pin bit above |
| Chunks.Distinct | deps/libffi/src/dlmalloc.c:2820-2847 | chunks do not overlap |
| Mapping.FirstSegment | deps/libffi/src/dlmalloc.c:3548-3561 | tiling and tags of a heap of one segment |
| Mapping.ExtendTop | deps/libffi/src/dlmalloc.c:3573-3574 | tiling and tags when the top grows into an adjacent block |
| Mapping.Prepend | deps/libffi/src/dlmalloc.c:3586-3588 | tiling and tags when a block is put below a segment's first chunk |
| Mapping.Push | deps/libffi/src/dlmalloc.c:3366-3412 | tiling and tags when a new top segment is added and the old top turns into chunk, record and fenceposts |
| Mapping.InsideSegment | deps/libffi/src/dlmalloc.c:2820-2847 | every chunk, with all that it accounts for, lies in its segment |
| HeapState.BinStepTags | deps/libffi/src/dlmalloc.c:2964-3172 | rewriting bin links disturbs neither tags nor segment records |
| HeapState.PayloadNotBin | deps/libffi/src/dlmalloc.c:1591-1612 | no word of a live block, its borrowed one included, is ever a bin link |
| HeapState.SmallNotTree | deps/libffi/src/dlmalloc.c:2964-3172 | no word is a link of both a list and a tree |
| Growing.FirstCore | deps/libffi/src/dlmalloc.c:3548-3561 | the whole invariant after the first mapping |
| Growing.AppendCore | deps/libffi/src/dlmalloc.c:3573-3574 | the whole invariant after appending |
| Growing.PrependCore | deps/libffi/src/dlmalloc.c:3586-3588 | the whole invariant after prepending, with the block held |
| Growing.AddCore | deps/libffi/src/dlmalloc.c:3366-3412 | the whole invariant after adding a segment, with the old top held |
| Growing.ImagesGrow | deps/libffi/src/dlmalloc.c:1943-1965 | segments that only grow keep their images: merges need equal offsets |
| Words.Request2SizeFits | deps/libffi/src/dlmalloc.c:1697-1703 | the padded size is the least legal chunk size with room for the request |
| Words.MapSizeFits | deps/libffi/src/dlmalloc.c:3511-3522 | the test for wrap-around accepts exactly the sizes that do not wrap, and then request, non-empty top and foot fit, and at most a page more is asked for |
| Words.FootSizes | deps/libffi/src/dlmalloc.c:2183-2189 | the foot of a top segment has room for a padded segment record and a least chunk |
| Bits.TreeIndexBounds | deps/libffi/src/dlmalloc.c:2338-2340 | every large size lies between the least sizes of its bin and the next |
| Bits.TreeIndexMonotone | deps/libffi/src/dlmalloc.c:2309-2340 | sizes of a higher bin are larger |
| Bits.AlignedSignBit | deps/libffi/src/dlmalloc.c:2333-2335 | leftshift_for_tree_index puts the first undecided bit on top, and each shift the next |
| Bits.PfxStep | deps/libffi/src/dlmalloc.c:3049-3058 | one level of a trie decides one more bit |
| BinMaps.MarkClear | deps/libffi/src/dlmalloc.c:2346-2355 | marking and clearing change one index only |
| BinMaps.Bit2IdxInverse | deps/libffi/src/dlmalloc.c:2372-2383 | compute_bit2idx inverts idx2bit |
| BinMaps.LowestMarked | deps/libffi/src/dlmalloc.c:2387-2388 | least_bit then compute_bit2idx finds the lowest marked index |
| BinMaps.NextMarkedShifted | deps/libffi/src/dlmalloc.c:4175-4177 | the same for the shifted map that dlmalloc uses |
| BinMaps.ShiftedLowBits | deps/libffi/src/dlmalloc.c:4155-4159 | the two low bits tell which of the two bins is used |
| Checks.TraverseAndCheck | deps/libffi/src/dlmalloc.c:2820-2847 | the walk over all chunks of all segments ends, and passes |
| Checks.CheckSegment | deps/libffi/src/dlmalloc.c:2826-2843 | one segment: the chunks add up to exactly the top segment, or to less than another one |
| Checks.CheckTree | deps/libffi/src/dlmalloc.c:2698-2746 | do_check_tree passes at every node |
| Checks.CheckTreeBin | deps/libffi/src/dlmalloc.c:2749-2757 | do_check_treebin passes |
| Checks.CheckSmallBin | deps/libffi/src/dlmalloc.c:2760-2781 | do_check_smallbin passes |
| Checks.BinFind | deps/libffi/src/dlmalloc.c:2784-2817 | finds a chunk exactly if it is in a bin |
| Checks.SmallFind | deps/libffi/src/dlmalloc.c:2787-2797 | the same for a list |
| Checks.LargeFind | deps/libffi/src/dlmalloc.c:2799-2815 | the same for a trie, by the bits of its size |
| Checks.RingFind | deps/libffi/src/dlmalloc.c:2807-2813 | the same for a ring |
| Checks.FreePasses | deps/libffi/src/dlmalloc.c:2661-2681 | do_check_free_chunk passes on every binned chunk and the victim |
| Checks.InUsePasses | deps/libffi/src/dlmalloc.c:2650-2658 | do_check_inuse_chunk passes on every block and record |
| Checks.MallocedPasses | deps/libffi/src/dlmalloc.c:2684-2694 | do_check_malloced_chunk passes exactly for requests that fit with less than 32 bytes to spare |
| Checks.TopPasses | deps/libffi/src/dlmalloc.c:2622-2633 | do_check_top_chunk passes |
| Client.AddressesLeadBack | deps/libffi/src/closures.c:555-570 | at every moment both addresses of every block of the client lead back to it |
| Client.Client.Allocate | deps/libffi/src/closures.c:532-553 | succeeds exactly when the name is free and the heap has room or the system makes it; adds one block, and changes no other and no other address |
| Client.Client.Free | deps/libffi/src/closures.c:555-570 | by its writable address, or by its executable one if the build allows it: succeeds exactly when there is such a block, removes it, and changes no other |
| Client.Client.Write | deps/libffi/src/closures.c:532-553 | succeeds exactly within a block, and changes one word of it |
| Client.Client.Read | deps/libffi/src/closures.c:532-553 | a read gives what was last written |
| Client.StillServed | deps/libffi/src/closures.c:532-570 | whatever does not touch a block leaves its words and its code address |
| Closures.FfiClosureAlloc | deps/libffi/src/closures.c:532-553 | null exactly when no place for the code address is given or nothing but a refused mapping would do; else a new block, whose code address is its address plus the offset of the segment that holds it |
| Closures.FfiClosureFree | deps/libffi/src/closures.c:555-570 | releases the block, given by its writable or, where the build allows, its executable address |
| Closures.SegmentHoldingCode | deps/libffi/src/closures.c:515-527 | finds the first segment of the list whose image holds an address |
| Closures.FreeAddressWorks | deps/libffi/src/closures.c:560-570 | when images are apart, both addresses of a block lead back to it |
| Closures.SharedImageMisleads | deps/libffi/src/closures.c:514-527 | two images at one place: release by code address would release the wrong block |
| Closures.ImagesStayApart | deps/libffi/src/closures.c:387-442 | images stay apart when the heap grows by a mapping placed apart from all others |
| Closures.HomeUnique | deps/libffi/src/closures.c:545-550 | a block lies in one segment only |
| Growing.ImageOfBlock | deps/libffi/src/closures.c:437-437 | the mapping that holds a byte of a block has the offset that the block's segment records, through all merges |
| Memalign.RoundAlignment | deps/libffi/src/dlmalloc.c:3908-3914 | the alignment used is the least power of two that is at least the request and 32 |
| Memalign.RoundingEnds | deps/libffi/src/dlmalloc.c:3910-3914 | the rounding loop ends if and only if the alignment is at most 2^63 |
| Memalign.PowerTest | deps/libffi/src/dlmalloc.c:3910-3910 | a & (a - 1) is zero exactly for powers of two |
| Memalign.SpotFits | deps/libffi/src/dlmalloc.c:3931-3949 | there is always an aligned spot whose leader is empty or at least 32 bytes and whose rest has room for the request |
| Memalign.SkipLeader | deps/libffi/src/dlmalloc.c:3931-3960 | the front of a misaligned block is cut off as a block of its own |
| Memalign.CutTrailer | deps/libffi/src/dlmalloc.c:3962-3972 | spare room behind the request is cut off as a block of its own |
| Memalign.GiveBack | deps/libffi/src/dlmalloc.c:3974-3984 | leader and trailer are released and only the aligned block remains |
| Memalign.CutCore | deps/libffi/src/dlmalloc.c:3955-3957 | cutting a live block in two keeps the whole invariant |
| Layout.InitializeAggregate | deps/libffi/src/prep_cif.c:37-83 | on every type tree: fails exactly if some struct in it is empty, and otherwise gives the size and alignment of the layout function |
| Layout.OffsetsOrdered | deps/libffi/src/prep_cif.c:48-64 | every element is aligned, starts less than its alignment behind the end of the one before, and ends before the next |
| Layout.MaxAlignmentIs | deps/libffi/src/prep_cif.c:60-62 | the alignment of a struct is the largest of its elements' |
| Layout.SizeLeast | deps/libffi/src/prep_cif.c:66-77 | the size is the least multiple of the alignment that holds all elements |
| Layout.SizePositive | deps/libffi/src/prep_cif.c:78-82 | sizes are positive multiples of the alignment |
| Layout.EndOfCopies | lib/type.js:95-100 | copies of one type follow each other without gaps |
| Layout.AlignLeast | deps/libffi/src/prep_cif.c:37-83 | rounding up gives the least multiple |
| X64Classes.MergeIsJoin | deps/libffi/src/x86/ffi64.c:93-131 | without x87 classes merging is commutative, associative and idempotent with a neutral and an absorbing element |
| X64Classes.MergeUpper | deps/libffi/src/x86/ffi64.c:93-131 | and gives least upper bounds |
| X64Classes.MergeAssociates | deps/libffi/src/x86/ffi64.c:93-131 | over all classes, exactly when the merge associates: unless an integer class meets two others that clash |
| X64Classes.MergeNotAssociative | deps/libffi/src/x86/ffi64.c:111-127 | an instance: the order of fields decides between memory and INTEGER |
| X64Classes.ClassifyArgument | deps/libffi/src/x86/ffi64.c:141-289 | the loops compute the classification, memory included |
| X64Classes.ExamineArgument | deps/libffi/src/x86/ffi64.c:295-333 | register counts of an argument, or memory |
| X64Leaves.ClassifyKept | deps/libffi/src/x86/ffi64.c:141-289 | every class of a struct of at most 16 bytes is due to a field that starts in that eightbyte |
| X64Leaves.LargeInMemory | deps/libffi/src/x86/ffi64.c:239-251 | every struct over 16 bytes goes to memory |
| X64Leaves.LongDoubleInMemory | deps/libffi/src/x86/ffi64.c:295-333 | everything with a long double goes to memory as an argument |
| X64Leaves.NotRejected | deps/libffi/src/x86/ffi64.c:141-289 | no type of up to 16 bytes without a long double is rejected, wherever it starts in its eightbyte |
| X64Leaves.NoneLost | deps/libffi/src/x86/ffi64.c:199-234 | without straddling structs no eightbyte in registers is left without a class |
| X64Leaves.SseExactly | deps/libffi/src/x86/ffi64.c:141-289 | without straddling structs, just the eightbytes of floats and doubles are of an SSE class |
| X64Call.StraddlingIsRefused | deps/libffi/src/x86/ffi64.c:199-234 | the smallest struct that straddles an eightbyte boundary loses a field, and the sender gives up on it |
| X64Call.PrepCifMachdep | deps/libffi/src/x86/ffi64.c:337-403 | the stack size is where the sender's cursor ends; bit 11 is set exactly if some SSE register is used; the low byte is 0 exactly for no result or one in memory, which is one over 16 bytes, and else the type; a struct's size is above bit 12; without straddling structs bits 8, 9 and 10 say whether only the first, only the second or both eightbytes hold nothing but floats and doubles |
| X64Call.MemoryReturn | deps/libffi/src/x86/ffi64.c:351-360 | a result is in memory exactly if it has more than 16 bytes |
| X64Call.ReturnedClasses | deps/libffi/src/x86/ffi64.c:361-370 | for a struct in registers, which eightbytes are looked for in SSE registers, by its fields |
| X64Call.TypeCodesDiffer | deps/libffi/include/ffi.h.in:444-462 | the low byte tells every scalar type from every other, from structs and from no result |
| X64Call.FfiCall | deps/libffi/src/x86/ffi64.c:405-494 | for every signature: succeeds exactly if no argument in registers has an eightbyte without a class, stays within the prepared size, and leaves every argument, zero-extended in its registers, where the cursor says; by the layout of register_args this is in registers exactly if it has at most 16 bytes, no long double, and still fits there |
| X64Call.RegisterArgs | deps/libffi/src/x86/ffi64.c:46-52 | the frame: six general registers, eight SSE registers and then the stack |
| X64Call.AlwaysRightly | deps/libffi/src/x86/ffi64.c:446-457 | an argument is in registers exactly if it may be and all of it still fits into the frame's registers, and else at the least suitable place behind the stack so far |
| X64Call.SmallInRegisters | deps/libffi/src/x86/ffi64.c:295-333 | what may go in registers: what has at most 16 bytes and no long double |
| X64Call.AlwaysRightRegisters | deps/libffi/src/x86/ffi64.c:459-489 | an eightbyte of floats and doubles goes in an SSE register, and any other in a general one |
| X64Call.RegistersFilled | deps/libffi/src/x86/ffi64.c:459-489 | no register is skipped: each between the cursors of an argument holds one of its eightbytes |
| X64Call.StackTight | deps/libffi/src/x86/ffi64.c:450-457 | stack arguments follow each other with no more between them than alignment asks for |
| X64Call.SendArgument | deps/libffi/src/x86/ffi64.c:441-490 | one argument goes to registers or the stack without touching what earlier ones use |
| X64Call.SendInRegisters | deps/libffi/src/x86/ffi64.c:459-489 | each eightbyte goes to the next register of its kind |
| X64Call.SendWord | deps/libffi/src/x86/ffi64.c:462-487 | one eightbyte: at most the bytes of the argument are read |
| X64Call.FfiClosureInner | deps/libffi/src/x86/ffi64.c:537-641 | for every signature the receiver's pointers follow its own count of registers, within the frame, classless eightbytes included; by the layout of register_args it looks in registers exactly for what has at most 16 bytes, no long double, and still fits there |
| X64Call.CursorsAgree | deps/libffi/src/x86/ffi64.c:441-634 | when the sender does not give up, the receiver's count of registers is the sender's, argument by argument |
| X64Call.ReceiveArgument | deps/libffi/src/x86/ffi64.c:577-634 | one argument is found where the cursor says |
| X64Call.ReceiveFromRegisters | deps/libffi/src/x86/ffi64.c:600-634 | in place when the registers are contiguous, else in a copy |
| X64Call.GatherWords | deps/libffi/src/x86/ffi64.c:614-633 | two eightbytes from different register files are made consecutive |
| X64Call.WithinRegisters | deps/libffi/src/x86/ffi64.c:377-400 | at most six general and eight SSE registers are ever used |
| X64Call.CursorGrows | deps/libffi/src/x86/ffi64.c:377-400 | the cursor never goes back |
| X64Call.StackBounded | deps/libffi/src/x86/ffi64.c:383-400 | stack arguments end within the prepared size |
| X64Call.FieldArrives | deps/libffi/src/x86/ffi64.c:441-634 | each byte of each field that was sent is received |
| X64Call.CopyWithin | deps/libffi/src/x86/ffi64.c:462-487 | no register copy reads beyond the argument |
| X64Call.StraddleFreePassable | deps/libffi/src/x86/ffi64.c:462-487 | without straddling structs the sender never aborts |
| S390.FfiCheckStructType | deps/libffi/src/s390/ffi.c:107-146 | the register kind of a struct, by its size and its only innermost element |
| S390.PrepCifMachdep | deps/libffi/src/s390/ffi.c:339-488 | the size is that of all overflow words, rounded up to 16, plus all struct copies; the flags say what the result is and how far an integer is extended |
| S390.PrepArgs | deps/libffi/src/s390/ffi.c:161-327 | for every signature, every argument is stored where the cursor says, integers by value, sign- or zero-extended to whole words, and floats at the left of their registers; arguments take the next registers of their sort as long as there are enough, of five general and four or two floating ones, and else the next overflow words |
| S390.SendArgument | deps/libffi/src/s390/ffi.c:205-326 | one argument goes to places that no earlier one uses |
| S390.StoreScalar | deps/libffi/src/s390/ffi.c:235-325 | the whole register or overflow word holds the scalar by value: sign- or zero-extended, or a float from the left |
| S390.AlwaysRightly | deps/libffi/src/s390/ffi.c:339-488 | a scalar takes the next register of its sort, or two for a pair, exactly if there are still enough, and else the next overflow words; a pair spoils the last register |
| S390.AlwaysPassedRightly | deps/libffi/src/s390/ffi.c:107-146 | structs of other sizes than 1, 2, 4 and 8 go by pointer, to a copy as high as it can be at a multiple of 16; the others as unsigned integers, or as their only float or double |
| Bytes.WidenValue | deps/libffi/src/s390/ffi.c:278-325 | widening an integer to a word keeps its value, modulo the range of the word |
| S390.ClosureHelper | deps/libffi/src/s390/ffi.c:545-680 | for every signature the receiver's pointers follow the same cursor, which gives out registers and overflow words as the layout asks for |
| S390.ReceiveArgument | deps/libffi/src/s390/ffi.c:577-680 | one argument is found where the cursor says; the pointer of a copied struct is followed |
| S390.LocateScalar | deps/libffi/src/s390/ffi.c:607-672 | the low-order bytes of the word of a scalar |
| S390.Arrives | deps/libffi/src/s390/ffi.c:545-680 | the address received holds the bytes that were sent |
| S390.WithinRegisters | deps/libffi/src/s390/ffi.c:339-488 | at most five general and four (two on 31-bit machines) floating registers are used, and copies stay 16-aligned |
| Vfp.RecVfpTypeP | deps/libffi/src/arm/ffi.c:640-682 | accepts exactly the types with one to four fields, all floats or all doubles, and counts them |
| Vfp.RecStruct | deps/libffi/src/arm/ffi.c:660-678 | the same for the loop over the elements of a struct, with its three tests |
| Vfp.VfpTypeP | deps/libffi/src/arm/ffi.c:684-701 | the rewritten type has the same shape, and later passes decide the same about it |
| Vfp.HomogeneousSize | deps/libffi/src/arm/ffi.c:650-658 | such a type has no padding: its size tells the number of fields |
| Vfp.NeedsLayout | deps/libffi/src/arm/ffi.c:703-712 | a candidate needs registers for exactly its bytes, from an even one on for doubles; eight doubles fill all of them |
| Vfp.PlacedApart | deps/libffi/src/arm/ffi.c:703-739 | all register runs lie in 0..15 and no two overlap, for every argument list |
| Vfp.AtMostSixteen | deps/libffi/src/arm/ffi.c:725-727 | there are never more entries than places in vfp_args |
| Vfp.Cif.PlaceVfpArg | deps/libffi/src/arm/ffi.c:703-739 | adds the run that first fit gives, and nothing else; vfp_used is the union of all runs and vfp_reg_free the least free register |
| Vfp.Cif.FindPlace | deps/libffi/src/arm/ffi.c:703-739 | finds the lowest place that suits, or there is none |
| Vfp.Cif.Scan | deps/libffi/src/arm/ffi.c:714-723 | tells whether all registers of a place are free |
| Vfp.Cif.Settle | deps/libffi/src/arm/ffi.c:724-735 | records the run and moves vfp_reg_free on |
| Raw.FfiRawSize | deps/libffi/src/raw_api.c:34-53 | the sum over all arguments of the words each takes |
| Raw.RawBytesLeast | deps/libffi/src/raw_api.c:41-50 | an argument takes the least number of words that hold it, or the address of a struct |
| Raw.PtrArrayToRaw | deps/libffi/src/raw_api.c:128-179 | every argument is stored at its own offset, integers by value, sign- or zero-extended to whole words, using exactly the bytes of ffi_raw_size |
| Raw.RawToPtrArray | deps/libffi/src/raw_api.c:56-126 | every pointer leads to the offset of its argument, using exactly those bytes |
| Raw.WordRoundTrip | deps/libffi/src/raw_api.c:165-169 | an address stored in a word is read back |
| Callbacks.SignalsArrive | src/threaded_callback_invokation.cc:20-24 | every signal is given while the right thread waits, and wakes it |
| Callbacks.QueueIsNoticed | src/callback_info.cc:160-202 | a non-empty queue has a wake pending, a drain running, or a pusher about to send |
| Callbacks.NoLockCycle | src/callback_info.cc:86-98 | while the event loop waits for the mutex of an invocation, its holder never waits for the queue |
| Callbacks.StepKeeps | src/callback_info.cc:86-98 | every single step keeps the invariant |
| Callbacks.WaiterWaits | src/threaded_callback_invokation.cc:20-24 | when the event loop holds the mutex of an invocation to signal, its thread waits, and no other does |
| Callbacks.SpuriousWakeupFaults | src/threaded_callback_invokation.cc:26-28 | such a state is reached by the first call: the thread waits, and the event loop has not begun |
| Bridge.CallbackQueue.constructor | src/callback_info.cc:208-222 | no invocation, nothing queued or pending, nobody holds a mutex |
| Bridge.CallbackQueue.WaitForExecution | src/threaded_callback_invokation.cc:26-28 | gives the mutex up, and has it again when it returns, after a signal |
| Bridge.CallbackQueue.Delete | src/threaded_callback_invokation.cc:14-18 | the destructor: the invocation is gone, and the result is the one dispatched |
| Bridge.CallbackQueue.SignalDoneExecuting | src/threaded_callback_invokation.cc:20-24 | locks, signals and unlocks the invocation in hand, and leaves the queue alone |

## Left out

- Heap.MallocState.Dlfree: never returns memory to the system; `sys_trim` and `release_unused_segments`, which follow when the top exceeds two megabytes, are not part of this model.
- Heap.MallocState.SysAlloc: the system call is a parameter, a refusal or a block that is fresh, page-sized and disjoint from all segments; `mmap_alloc` for a request of MAX_SIZE_T always fails by wrap-around and is skipped.
- Heap.MallocState.SetSegmentFlags: the comparison of the offset word with its copy in the executable image, which aborts on a mismatch, is left out, as both are one page of one file.
- Heap.MallocState.InsertLargeChunk: the index field is written as a whole word; the source writes its lower half.
- Heap.MallocState.Store: memory is addressed by words, so clients write whole words.
- Memalign.InternalMemalign: asks for an alignment of at most 2^63, as the rounding loop may not end for others.
- Client.Client.Run: mappings that would lie over an earlier one, or whose image would, are refused, as the system never makes them.
- Checks.CheckMallocState: `least_addr` and the two footprints are not fields of the model, so the assertions that compare with them are left out.
- Memalign.RoundAlignment: asks for an alignment of at most 2^63, as its loop ends for no other (`Memalign.RoundingEnds`).
- X64Call.RoundTrip: the assembly stubs are the identity on registers and stack; floats are bytes; returning results, x87 included, is not modelled.
- S390.RoundTrip: the assembly stubs are the identity on the save areas; the conversion of results is not modelled.
- Vfp.LayoutVfpArgs: `ffi_type` objects are values, so an object shared by several arguments is not rewritten in all places at once; `VfpTypeP` shows that this makes no difference. `vfp_used` is the set of its bits. Later arguments may still get registers after one did not fit, as in the source; pairing with the closure side is left out.
- Raw.RawRoundTrip: words and pointers have the same size, as the little-endian conversion assumes.
- Callbacks.RunsAreSafe: JS callbacks terminate; `uv_async_send` is one step; `uv_ref` and `uv_unref` do not appear.
- Layout.InitializeAggregate: types are finite trees, and a type object is laid out once; scalar sizes are those of x86-64.
- `internal_realloc`, `ialloc`, `mspace` functions, statistics, `least_addr`, footprints: they would add members, not harder properties.
- Locks of the allocator: every call is atomic.
- Run-time corruption checks and their abort branches: they cannot be taken in a valid heap.
- GNU and i386 assembly variants of the index macros: the portable ones are modelled.
- `ffi_prep_cif_core`: it only calls what is modelled.
- Direct dispatch of a callback on the main thread: it touches no shared state.
- The other back ends, the JS wrappers, the variadic cache, trampolines and cache flushing.
