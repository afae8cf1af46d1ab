# The IOP kernel and its build tools: models and proofs

This Dafny project models the parts of the IOP kernel, and of the tools that build its images, that hold
state, relink lists, interleave or rewrite data that must keep its meaning, and proves what they promise.
One module stands for one source file or protocol; `dafny verify dfyconfig.toml` checks everything.

- `HeapTiles`, `HeapArena`, `Heap`, `HeapObject`: HEAPLIB. The first is the abstract arena (a row of live and
  free blocks, a rover, next fit, coalescing) and its laws over every run. The second is the arena as headers in
  memory, with the pointer walks proved to compute the abstract steps and to write nothing else. The third is
  the heap that grows by arenas granted by SYSMEM, as a list of such rows, and its laws over every run; SYSMEM is
  represented by the grant it answers: whole units of 0x100 bytes, never fewer than asked. The fourth is that heap
  in one memory, with the chunk list linked through it and a pointer's owner found by the word before it.
- `Relocation`: the reordering of REL entries by mkirx and the loader's single-slot relocation
  (System V ABI MIPS Processor Supplement, chapter 4), joined by the theorem that loading the reordered
  stream does what the linker's runs meant.
- `Lists`, `Registry`: lists threaded through one word, and on them LOADCORE's registration, supersession and
  binding. The invariants that no single function states are `Registry.Generations` (along the registry, minors
  of one identity decrease behind a versioned table) and `Registry.GivenUp` (a table behind a versioned one of its
  identity has no unpinned client left).
- `Common`: the optional answer and the machine word.
- `Sio2`: SIO2MAN's event-flag handshake as a state machine over atomic steps of two clients, the service
  thread and the interrupt. Event flags stay set until cleared.
- `Sifman`, `SifStream`, `SifRpc`: the SIF sending ring, the framed byte stream as the EE's channel decodes
  it, and the RPC queue between the receiving interrupt and a server thread. Wakeups count.
- `Excepman`: handler chains compiled into `next` words. What was registered is kept as a log, and the words
  are proved to visit the log's order.
- `DmaDispatch`: INTRMAN's DMA dispatcher over write-one-to-clear flags, with hardware that may raise a flag
  before any register access and handlers that may call the enabling functions in any order. A 32-bit
  register is the set of its one bits. The hardware raises finitely many flags in all (`budget`), which is
  what the dispatcher's termination rests on.
- `Liveness`: the register liveness fixed point of the EE ABI inference.
- `SegmentSender`: LOADFILE's ELF loader, unaligned segments sent as aligned quadwords with a carried block. How
  full SIFMAN's ring is at each transfer is a function of the transfer's number (`queued`), which the environment
  chooses; a full ring refuses, as `Sifman.Sender.Enqueue` does.
- `Disc`: CDVDMAN's `cdrom` device over ECMA-119 directory records (sections 8.4 and 9.1).
- `RomArchive`: the ROM archive's builder and its two readers.

Code that changes state in place is a class whose methods are proved against functions of the state before
(`Allocate`, `Release`, `AllocHeap`, `Superseded`, `AnswerRun`, `Order`, `Load`, ...); the laws of those functions
are the lemmas. Reads, drives and environments that may fail are unconstrained choices inside methods.

What a reader of bytes promises is stated against an encoder written from the format, which it is proved to invert for
all values: ELF headers and program headers in `SegmentSender`, ECMA-119 directory records in `Disc`, table rows in
`RomArchive`. What rewriting makes of a word (a relocated word, a bound stub, an enabled channel) is stated as arithmetic
on the old word.

Seven promises turned out to need a condition. Each is stated exactly, for every input, with the failing
side shown:

- The allocation retried in a fresh chunk has room for what was asked exactly when `size + 0x28` does not wrap; it
  answers null exactly for sizes from 2^32 - 0x28 to 2^32 - 8, and for the last seven sizes, whose rounding wraps
  too, a block with an empty payload (`Heap.FreshChunkServes`).
- An allocation leaves a grown chunk with nothing live in it exactly when such a size grows the heap
  (`Heap.StrandsIff`); without one, a heap with nothing live has given every chunk back (`Heap.DrainedReturnsAll`).
- A payload covers its request exactly up to 2^32 - 8 bytes (`HeapTiles.PayloadCoversRequest`).
- A seek is the sum clamped to the file exactly when, below 2^31 bytes, the sum is below 2^31 and, from 2^31 bytes
  on, the sum is no less than the size (`Disc.SeekIsClampIff`; `Disc.SeekPastTheEnd` and `Disc.SeekInLargeFile` are
  failing inputs of either kind).
- A second call to a server leaves its queue's pending list a list exactly when the first has been taken off it;
  otherwise the server is linked to itself (`SifRpc.Append`).
- A call is answered under its own ids when no other call to its server came in between its being taken and its
  function's return; otherwise the END carries the later call's (`SifRpc.RpcQueue.AnswerCall`, `SifRpc.AnswerOvertaken`).
- A load that answers success has placed the image exactly when each byte of it arrives or was there before
  (`SegmentSender.PlacedIff`). Byte `a` of a loaded segment `s` goes with transfer `(a - Down(s.paddr)) / CHUNK` of
  that segment's, counted after the transfers of the segments before it, and again with the first transfer of each
  later segment that begins in its block; it arrives when SIFMAN's ring has room at one of them, and otherwise what was
  there is left, or an earlier segment's zero padding (`SegmentSender.ImageByte`). All of it can be read off the
  headers, the ring and the memory before the load. `SegmentSender.LoadIntoFullRing` loads an executable with success
  and writes none of it.

## Model

| member | source | states |
|---|---|---|
| `HeapTiles.PayloadCoversRequest` | src/iop/heaplib.cpp:157-158 | the unit count covers the request for every size up to 2^32 - 8, and for no larger one: above that the rounding wraps |
| `HeapTiles.TileOfUnit` | src/iop/heaplib.cpp:53-60 | live and free blocks tile the arena: every unit belongs to exactly one block |
| `HeapTiles.AllocateRefusesIff` | src/iop/heaplib.cpp:152-181 | a search answers null exactly when every free block is smaller than the units asked for |
| `HeapTiles.AllocateValid` | src/iop/heaplib.cpp:152-181 | a split or an exact fit keeps the arena tiled, ordered and free of adjacent free blocks, and adds exactly the block's units to the live sum |
| `HeapTiles.ReleaseValid` | src/iop/heaplib.cpp:186-252 | coalescing on either side keeps the same invariant and takes exactly the freed block's units off the live sum |
| `HeapTiles.AllocateIssues` | src/iop/heaplib.cpp:152-181 | what is answered is a live block of exactly the units asked, not live before; every block live before stays with its size, and none of them touches the new one |
| `HeapTiles.NextFit` | src/iop/heaplib.cpp:152-181 | of the free blocks large enough the first one met going up from the rover and round is served, from its top end, and the rover is left on the free block or sentinel next before it in the ring |
| `HeapTiles.ReleaseFrees` | src/iop/heaplib.cpp:186-252 | the block released is gone, and every other block stays live with its size, whatever was merged |
| `HeapTiles.ReleaseRover` | src/iop/heaplib.cpp:203-251 | a release leaves the rover on the free block, or the sentinel, next before the released one in the ring |
| `HeapTiles.Run` | src/iop/heaplib.cpp:122-252 | over every sequence of allocations and frees the arena stays well formed between the same bounds |
| `HeapTiles.StepValid` | src/iop/heaplib.cpp:122-252 | every single call keeps the invariant |
| `HeapTiles.AllFreedIsFresh` | src/iop/heaplib.cpp:186-252 | however the blocks are freed, an arena with nothing live is one free block of the original size again |
| `HeapArena.Arena.constructor` | src/iop/heaplib.cpp:105-107 | memory that carries no arena tag is a valid unprepared arena |
| `HeapArena.Arena.HeapPrepare` | src/iop/heaplib.cpp:122-138 | sizes below 0x29 leave memory and everything known of the arena as it was; otherwise the arena is one free block of all the memory given but header and sentinel, word by word, and nothing beyond its units is written |
| `HeapArena.AllocIn` | src/iop/heaplib.cpp:152-181 | the pointer walk from the rover ends, the memory it leaves holds exactly the next-fit allocation of the abstract arena, and only the count, free headers and the new header are written: no live block, and nothing outside the arena |
| `HeapArena.FreeIn` | src/iop/heaplib.cpp:186-252 | the bracketing walk ends, unlinking, coalescing and the rover land memory exactly on the abstract release, and only the count, free headers and the freed header are written; a refusal writes nothing |
| `HeapArena.PrepareIn` | src/iop/heaplib.cpp:122-138 | the header, free block and sentinel written over any memory are a fresh arena |
| `HeapArena.CarveWrites` | src/iop/heaplib.cpp:163-174 | a carve confines its writes: no other live block and nothing outside the arena |
| `HeapArena.FreeWrites` | src/iop/heaplib.cpp:235-250 | so does a release, whichever neighbours it merges with |
| `HeapArena.WrittenIsConfined` | src/iop/heaplib.cpp:152-250 | writes to free headers and the count reach no live block |
| `HeapArena.Take` | src/iop/heaplib.cpp:163-174 | an exact fit is unlinked, a larger block split from its tail, and the result tagged and counted |
| `HeapArena.Splice` | src/iop/heaplib.cpp:235-250 | the six writes of a release: count, both merges, links and rover |
| `HeapArena.Arena.HeapAlloc` | src/iop/heaplib.cpp:152-181 | a call on memory equals the next-fit step of the abstract arena, answering a new block of the units asked beside those held, and leaving every live block's units and all memory outside the arena; null leaves memory unchanged |
| `HeapArena.Arena.HeapFree` | src/iop/heaplib.cpp:186-252 | a live pointer is released and no other block with it, every other live block and all memory outside the arena untouched; a freed and not reissued one answers -1, one out of range its own code, and neither changes memory |
| `HeapArena.Arena.HeapIsEmpty` | src/iop/heaplib.cpp:141-147 | one exactly when no block is live |
| `HeapArena.Arena.HeapChunkSize` | src/iop/heaplib.cpp:256-260 | `(size - used) * 8` is exactly the bytes of the free blocks |
| `HeapArena.Arena.WritePayload` | src/iop/heaplib.cpp:165-181 | whatever a client writes inside a block it holds, no header the allocator reads changes |
| `Heap.FreshChunkServes` | src/iop/heaplib.cpp:306-346 | the retry in a freshly grown chunk is served if and only if the size is not among those whose floor wraps while the block asked for does not; it is served with room for what was asked if and only if `size + 0x28` does not wrap |
| `Heap.AllocHeapRefusesIff` | src/iop/heaplib.cpp:306-346 | null exactly when no arena has a block large enough and growth is off, refused, or wrapped |
| `Heap.AllocHeapOrder` | src/iop/heaplib.cpp:302-346 | the newest chunk with room serves, the home arena only when no chunk has room, and only when none has is a chunk grown, in front of the others and from all that was granted; nothing else of the heap changes |
| `Heap.AllocHeapValid` | src/iop/heaplib.cpp:306-346 | an allocation keeps chunks well formed and apart, the balance with SYSMEM, and every grown chunk busy unless the size wraps |
| `Heap.FreeHeapValid` | src/iop/heaplib.cpp:352-381 | so does a release, an emptied grown chunk leaving the list |
| `Heap.AllocHeapIssues` | src/iop/heaplib.cpp:306-346 | over the whole heap, what is answered is a new live block of the units asked, apart from every block held in any arena, all of which stay |
| `Heap.FreeHeapFrees` | src/iop/heaplib.cpp:352-381 | over the whole heap, exactly the block released is gone, whether or not its chunk goes back |
| `Heap.RunKeeps` | src/iop/heaplib.cpp:306-381 | over every run, chunks stay apart and well formed, SYSMEM is owed exactly what is held, and without wrapping sizes every grown chunk holds a live block |
| `Heap.DrainedReturnsAll` | src/iop/heaplib.cpp:352-381 | once nothing is live, every grown chunk has gone back to SYSMEM exactly once |
| `Heap.DeleteReturnsAll` | src/iop/heaplib.cpp:288-300 | after any run, deleteHeap has returned every grant exactly once |
| `Heap.StrandsIff` | src/iop/heaplib.cpp:324-345 | one allocation leaves a grown chunk with nothing live if and only if the size wraps, growth is on and granted, and no arena has a block large enough |
| `HeapObject.LinkThreads` | src/iop/heaplib.cpp:338-342 | the three writes put the new node right after the sentinel of the doubly linked list, touching no other word |
| `HeapObject.UnlinkThreads` | src/iop/heaplib.cpp:370-371 | the two writes take a node off the list, wherever it is |
| `HeapObject.CreateIn` | src/iop/heaplib.cpp:268-284 | the heap object written over any granted block is an empty heap; from a rounded size of 0x39 on its home arena begins at `base + 4` and is one free block of `(rounded - 0x20) / 8 - 1` units, and below that there is none |
| `HeapObject.CreatedServes` | src/iop/heaplib.cpp:268-284 | a created heap has exactly its home arena's units free; an allocation is served without growing exactly when the units for its size are at most those |
| `HeapObject.FreeSizeAtFirst` | src/iop/heaplib.cpp:385-400 | the free size of a created heap is `8 * ((rounded - 0x20) / 8 - 1)` |
| `HeapObject.AllocOver` | src/iop/heaplib.cpp:306-346 | the walk over the chunk nodes in memory, the home arena and the growth path leave memory holding exactly the abstract heap's allocation; no live block is written, nor anything outside the heap and the block granted |
| `HeapObject.GrowOver` | src/iop/heaplib.cpp:323-345 | linking, preparing and retrying: memory holds the heap with the new chunk, every other arena untouched |
| `HeapObject.FreeOver` | src/iop/heaplib.cpp:352-381 | the word before the pointer, read from memory, picks the arena; memory then holds exactly the abstract release, or is unchanged with the exact error code |
| `HeapObject.GiveBackEmpty` | src/iop/heaplib.cpp:362-373 | a used count of zero in memory means the chunk holds nothing live, and unlinking it leaves the heap without it |
| `HeapObject.OwnershipTag` | src/iop/heaplib.cpp:360-365 | before any pointer into the heap's arenas, live, freed or never carved, the word names an arena if and only if the pointer is live in that arena |
| `HeapObject.StaleRefused` | src/iop/heaplib.cpp:348-351 | so a freed pointer whose space was not handed out again answers -1 |
| `HeapObject.FreedTag` | src/iop/heaplib.cpp:348-373 | a block just freed is refused with -1 if freed again, even when its chunk went back to SYSMEM with it |
| `HeapObject.HandedOutIsKnown` | src/iop/heaplib.cpp:352-381 | a pointer that is live, or was freed and not issued again, is one the release may be given |
| `HeapObject.PayloadKept` | src/iop/heaplib.cpp:59-70 | whatever a client writes inside a block it holds, no arena, node or list word the heap reads changes |
| `HeapObject.ReleaseAll` | src/iop/heaplib.cpp:288-300 | the walk gives back every chunk, newest first, and then the heap object, each once |
| `HeapObject.GrowableHeap.constructor` | src/iop/heaplib.cpp:268-284 | a created heap owes SYSMEM its own block, has the home arena its rounded size leaves room for, all of it free, the magic and growth words it was asked for, and writes nothing outside its block |
| `HeapObject.GrowableHeap.AllocHeapMemory` | src/iop/heaplib.cpp:306-346 | on memory it is the abstract allocation; what is answered is a new live block beside all held, live blocks and memory outside the heap are untouched, freed pointers are forgotten only where space is issued again, and every grown chunk stays busy unless the size wraps |
| `HeapObject.GrowableHeap.FreeHeapMemory` | src/iop/heaplib.cpp:352-381 | any pointer handed out may be given: on memory it is the abstract release, taking exactly that block; null, stale and foreign pointers change nothing and answer the exact code |
| `HeapObject.GrowableHeap.DeleteHeap` | src/iop/heaplib.cpp:288-300 | what was granted equals what was returned |
| `HeapObject.GrowableHeap.HeapTotalFreeSize` | src/iop/heaplib.cpp:385-400 | the sum of the free bytes of every arena; a home arena never prepared adds whatever its words say |
| `HeapObject.GrowableHeap.WritePayload` | src/iop/heaplib.cpp:59-70 | a client's write inside its block keeps the heap |
| `Relocation.PairNames` | src/iop/loader.hpp:205-247 | after rebasing, a HI16 and the sign-extended LO16 name the original address plus the base, the carry right, for every word and base |
| `Relocation.Relocate` | src/iop/loader.hpp:257-275 | the entry loop is the fold of one relocation over the section, with a single held HI16 |
| `Relocation.FindRuns` | tools/mkirx.py:159-182 | run detection succeeds exactly when every HI16 run ends at a LO16 of its symbol, and records that LO16's key |
| `Relocation.CloseRun` | tools/mkirx.py:163-175 | the entry after a run accepts it exactly when it is a LO16 of each HI16's symbol |
| `Relocation.ListLos` | tools/mkirx.py:184-188 | the LO16s by key, in stream order |
| `Relocation.Assign` | tools/mkirx.py:189-201 | each HI16 gets its own LO16 in order, or some HI16 has none left |
| `Relocation.ServedIffEnough` | tools/mkirx.py:184-201 | handing LO16s out first come first served fails for some HI16 exactly when a key has fewer LO16s than HI16s |
| `Relocation.PairableIff` | tools/mkirx.py:144-211 | a section can be paired exactly when its kinds are the four known ones, each run of HI16 is closed by a LO16 of its symbol, and each key has as many LO16s as HI16s want it |
| `Relocation.ReadSection` | tools/mkirx.py:144-211 | a section is accepted exactly when it is pairable, and its output is the reordered stream |
| `Relocation.NoStrayIff` | tools/mkirx.py:207-215 | checking only the left-over LO16s is as good as checking that every LO16 shares its key with some HI16 |
| `Relocation.ReadRelocations` | tools/mkirx.py:104-216 | the tool accepts a module exactly when its streams meet the requirements, and writes their reordering |
| `Relocation.EmittedIsPermutation` | tools/mkirx.py:203-211 | the output is a permutation: each entry once, as it came in |
| `Relocation.EmittedAlternates` | tools/mkirx.py:119-136 | every HI16 of the output is immediately followed by a LO16 |
| `Relocation.LoadPair` | src/iop/loader.hpp:205-247 | a HI16 and its own LO16 leave both words as the linker's run means them, nothing held |
| `Relocation.LoaderMeetsLinker` | src/iop/loader.hpp:187-275 | at every base the single-slot loader over the reordered section leaves each word as resolving each HI16 by the LO16 ending its run would, and no other word moved (what that makes of each kind of word is LoadedWord and LoadedPair) |
| `Relocation.PipelineCorrect` | src/iop/loader.hpp:187-275 | the same for a whole accepted module, section after section |
| `Relocation.LoadedWord` | src/iop/loader.hpp:187-275 | after loading an accepted module at any base an R_32 word is the old one plus the base modulo 2^32; an R_26 word keeps its operation and, at an aligned base, names the old target plus the base modulo 2^28; HI16 and LO16 words keep their upper halves |
| `Relocation.LoadedPair` | src/iop/loader.hpp:205-247 | each HI16 of a run, read with any LO16 of the key that closes the run, names the old address plus the base modulo 2^32 |
| `Relocation.LoadedElsewhere` | src/iop/loader.hpp:257-275 | no word that is not a relocation's moves |
| `Relocation.EveryLoIsWanted` | tools/mkirx.py:212-216 | in an accepted module each LO16, taken or repeated, shares its key with a HI16 |
| `Relocation.EveryAddressMoves` | src/iop/loader.hpp:205-247 | hence after loading each HI16 and any LO16 of its key name their old address plus the base |
| `Registry.BoundStubJumps` | src/iop/loader.hpp:331-360 | binding leaves the second word alone and rewrites only stubs (the second word is an `addiu`); read back as a MIPS instruction, the first word is then `j` to the entry of its ordinal, or `jr $ra` past the last entry |
| `Registry.BindTable` | src/iop/loader.hpp:331-360 | the stub loop rewrites exactly the stubs before the terminator |
| `Registry.DetachUnpinned` | src/iop/loadcore.cpp:106-128 | the walk keeps the pinned clients in order on the table and stacks the others, touching no other list |
| `Registry.AdoptClients` | src/iop/loadcore.cpp:132-141 | each taken client is rebound and pushed on the new table, touching no other list |
| `Registry.WalkGenerations` | src/iop/loadcore.cpp:153-185 | the detaching loop ends in a refusal with every word as it was, or with every older generation relieved |
| `Registry.RefusalFindsNothing` | src/iop/loadcore.cpp:153-175 | because minors decrease along the registry, a generation the loop has passed before it refuses has no clients left to detach |
| `Registry.GatheredConserves` | src/iop/loadcore.cpp:153-185 | the clients gathered are exactly the unpinned clients of the older generations, each as often as it was listed |
| `Registry.GatheredDistinct` | src/iop/loadcore.cpp:153-185 | no client is gathered twice |
| `Registry.SupersededShaped` | src/iop/loadcore.cpp:146-194 | after a supersession lists are still distinct and disjoint, and pinned tables have none |
| `Registry.SupersededGenerations` | src/iop/loadcore.cpp:146-194 | and minors of one identity still decrease along the registry |
| `Registry.SupersededGivenUp` | src/iop/loadcore.cpp:153-185 | and no table behind a versioned one of its identity has an unpinned client |
| `Registry.PinnedGivenUp` | src/iop/loadcore.cpp:198-205 | a pinned registration keeps that |
| `Registry.BindGivenUp` | src/iop/loader.hpp:364-398 | so does a bind, because the first linkable exporter has no versioned table of its identity before it |
| `Registry.RelievedAt` | src/iop/loadcore.cpp:106-128 | a table of the identity keeps just its pinned clients in order; other tables keep everything |
| `Registry.FirstIsNewest` | src/iop/loadcore.cpp:146-194 | the first unpinned table of an identity has the greatest minor |
| `Registry.ExporterIsNewest` | src/iop/loader.hpp:364-398 | what bind links to exists exactly when some table may be linked, and has the greatest minor of them |
| `Registry.Loadcore.constructor` | src/iop/loadcore.cpp:567-576 | SYSMEM's table, its magic overwritten with a null link, is a valid registry of one |
| `Registry.Loadcore.RegisterVersioned` | src/iop/loadcore.cpp:146-194 | accepted exactly when newer than every table of its identity; then it holds all their unpinned clients with their stubs rebound; refused, not a word has changed |
| `Registry.Loadcore.RegisterPinned` | src/iop/loadcore.cpp:198-205 | no comparison, no clients, and every invariant kept |
| `Registry.Loadcore.Bind` | src/iop/loader.hpp:364-398 | one import table goes to the front of the newest linkable exporter's list with its stubs bound, or is counted unbound |
| `Registry.Loadcore.BindText` | src/iop/loader.hpp:364-398 | the scan of a module's text binds each import table whose magic it meets, in address order, and answers how many found no exporter |
| `Registry.BoundAllLists` | src/iop/loader.hpp:364-398 | after the scan each table found hangs in front of its exporter's clients, the last met first, and no other list has moved |
| `Registry.FoundIff` | src/iop/loader.hpp:364-398 | the scan meets exactly the import tables a whole number of words from the text's start and before its end |
| `Registry.FoundAscends` | src/iop/loader.hpp:364-398 | each once, in address order |
| `Registry.StubsAllAt` | src/iop/loader.hpp:364-398 | after the scan each table it met that has an exporter holds its old stubs bound to that exporter's entries, and no other stub has changed |
| `Registry.MissingCounts` | src/iop/loader.hpp:364-398 | the count answered is of the tables met that are for the binder and that no table on the registry may be linked to |
| `Registry.Loadcore.PinClient` | src/iop/loadcore.cpp:88-91 | a module may set the pin bit of a bound import table of its own: every invariant is kept |
| `Registry.ClientPinned` | src/iop/loadcore.cpp:106-128 | a client pinned after it was bound changes no table, and no superseded table gains an unpinned client |
| `Sio2.RunKeeps` | src/iop/sio2man.cpp:189-249 | the handshake invariant holds in every state reached by any interleaving |
| `Sio2.OneClientInside` | src/iop/sio2man.cpp:196-231 | never both clients between acknowledgement and release; the service thread never exits |
| `Sio2.OwnDescriptor` | src/iop/sio2man.cpp:241-249 | the descriptor pushed and the one harvested is the waiting client's own |
| `Sio2.EachServedOnce` | src/iop/sio2man.cpp:196-249 | each request is harvested once, in order |
| `Sio2.PadComesFirst` | src/iop/sio2man.cpp:189-231 | whatever the clients and the interrupt do between the thread's wait and its choice, the pad client is served if it was asking at the wait and the card client otherwise; only the chosen request is withdrawn |
| `Sio2.NeverStuck` | src/iop/sio2man.cpp:189-249 | whenever a client waits, some step is enabled |
| `Sio2.LeftShrinks` | src/iop/sio2man.cpp:189-249 | every step that is not a new request lowers a bound on the work left |
| `Sio2.RoundsEnd` | src/iop/sio2man.cpp:189-249 | so with no new requests every run is bounded |
| `Sifman.BlockReadsBack` | src/iop/sifman.cpp:144-151 | a block carries source, padded length, destination, the end-of-run mark and the stop bit, each readable back |
| `Sifman.Sender.StartHead` | src/iop/sifman.cpp:154-161 | the channel starts on the head group |
| `Sifman.Sender.Enqueue` | src/iop/sifman.cpp:166-184 | refused only when empty, too long or 32 groups are queued; otherwise last in acceptance order, no queued group overwritten |
| `Sifman.Sender.QueueTransfers` | src/iop/sifman.cpp:211-226 | the same for a caller's descriptors |
| `Sifman.Sender.Retire` | src/iop/sifman.cpp:189-201 | the head group leaves the ring, the next one starts, and its callback falls due once |
| `Sifman.Sender.RunCallback` | src/iop/sifman.cpp:202-204 | exactly the sends of the callback that the ring has room for are queued, in turn |
| `Sifman.Sender.SendFinished` | src/iop/sifman.cpp:189-206 | the head group finishes, the next starts, its callback fires once, and exactly the sends of the callback that the ring has room for are queued behind |
| `Sifman.Sender.SifDmaStat` | src/iop/sifman.cpp:240-242 | negative exactly when every accepted run has finished |
| `SifStream.WordsReadBack` | tools/ps2sim.py:318-320 | a word survives little-endian framing |
| `SifStream.IopSend` | tools/ps2sim.py:394-411 | the block walk writes the framed packets of the run in order |
| `SifStream.HeadDecodes` | tools/ps2sim.py:316-324 | the EE reads back exactly the first packet's tag, destination and data |
| `SifStream.RunLands` | tools/ps2sim.py:299-326 | a whole run is taken in one go and, byte by byte, the last descriptor to reach a byte of EE memory puts its own source byte there, sizes rounded up to quadwords; no other byte changes, and the channel is stopped exactly by a last descriptor that asks for it |
| `SifStream.EeChannel.constructor` | tools/ps2sim.py:212-220 | an empty FIFO and untouched memory |
| `SifStream.EeChannel.Push` | tools/ps2sim.py:394-411 | a run queues its packets, source bytes as they are when it starts |
| `SifStream.EeChannel.Receive` | tools/ps2sim.py:299-326 | packets land in order up to and including the first that asks the channel to stop; memory equals applying them in order |
| `SifStream.EeChannel.Arm` | tools/ps2sim.py:238-241 | starting the channel serves what has arrived |
| `SifStream.EeChannel.Service` | tools/ps2sim.py:256-263 | a stopped channel takes nothing, an armed one stops exactly after a packet that asks for it, and nothing is lost or reordered |
| `SifRpc.EndIffAsked` | src/iop/sifcmd.cpp:349-375 | with the client known, one END goes out if and only if the mode asks, with the call's own ids, after any data, and the last block alone stops the channel |
| `SifRpc.AnswerIffWanted` | src/iop/sifcmd.cpp:349-364 | the run holds an answer exactly when the client is known and result, receive buffer and size are not zero: the first block and the only answer, from where the function left it to the client's buffer, in the whole words that cover the size; without an END it stops the channel |
| `SifRpc.LastPending` | src/iop/sifcmd.cpp:337-341 | the walk ends at the last pending server |
| `SifRpc.Append` | src/iop/sifcmd.cpp:333-342 | the pending list gains the server at its end; it is still a list if and only if the server was not pending already, otherwise the server is linked to itself |
| `SifRpc.Park` | src/iop/sifcmd.cpp:318-342 | the request's fields are kept on the server, and the server is the last one pending |
| `SifRpc.TakeFirst` | src/iop/sifcmd.cpp:270-276 | the first server leaves the list |
| `SifRpc.TakeOff` | src/iop/sifcmd.cpp:234-243 | the unlinking walk removes exactly the server, wherever it is |
| `SifRpc.RpcQueue.constructor` | src/iop/sifcmd.cpp:194-200 | a registered queue is empty |
| `SifRpc.RpcQueue.NameClient` | src/iop/sifcmd.cpp:546-557 | the client is known exactly when its address is not zero |
| `SifRpc.RpcQueue.ServeCall` | src/iop/sifcmd.cpp:318-344 | the call is appended first-in-first-out and a sleeping thread runs again; a call for the server being answered overwrites the fields under the answer |
| `SifRpc.RpcQueue.Take` | src/iop/sifcmd.cpp:268-277 | the oldest pending server is taken with its own call's fields, or none is pending |
| `SifRpc.RpcQueue.Sleep` | src/iop/sifcmd.cpp:277-281 | the thread sleeps only with nothing pending and every accepted call served |
| `SifRpc.RpcQueue.AnswerCall` | src/iop/sifcmd.cpp:349-375 | one invocation per accepted call in acceptance order; the run (AnswerIffWanted, EndIffAsked) is that call's own if no other call for the server came in since it was taken, and otherwise carries the later call's ids, which that call will be answered with again |
| `SifRpc.AnswerOvertaken` | src/iop/sifcmd.cpp:318-375 | a call taken and overtaken by another to its server is answered with the later one's ids |
| `SifRpc.RpcQueue.Withdraw` | src/iop/sifcmd.cpp:230-245 | a server taken back leaves the list and its call is withdrawn; the others keep their order |
| `Excepman.OrderHolds` | src/iop/excepman.cpp:93-111 | a cause's visiting order holds exactly its registrations |
| `Excepman.OrderMeaning` | src/iop/excepman.cpp:113-138 | a higher priority before a lower one, the older first among equals |
| `Excepman.OrderInsert` | src/iop/excepman.cpp:130-135 | the insertion walk's place is the newcomer's place in that order |
| `Excepman.WithoutOrder` | src/iop/excepman.cpp:157-174 | dropping a handler leaves the order of the rest |
| `Excepman.VisitsOnly` | src/iop/excepman.cpp:86-111 | the `next` words leave no choice of what an exception visits |
| `Excepman.FreeNodes` | src/iop/excepman.cpp:78-83 | the loop threads all 32 nodes, lowest first |
| `Excepman.PreparePool` | src/iop/excepman.cpp:74-84 | 32 free nodes and empty chains |
| `Excepman.Insert` | src/iop/excepman.cpp:124-135 | one node moves from the free list to its place in the chain; every other list is untouched |
| `Excepman.Extract` | src/iop/excepman.cpp:162-172 | found exactly when registered for that cause; its node goes back to the free list |
| `Excepman.RebuildCause` | src/iop/excepman.cpp:98-110 | following one cause's words visits its handlers and then the defaults |
| `Excepman.Rebuild` | src/iop/excepman.cpp:93-111 | after a rebuild every cause visits its handlers in order, then the default handlers, then the stop |
| `Excepman.InsertAndRebuild` | src/iop/excepman.cpp:124-137 | placing the node and rewriting the words keeps pool, log and compiled form in step |
| `Excepman.UnlinkedIsAbsent` | src/iop/excepman.cpp:118-120 | a handler whose word is null is on no chain, so none is linked twice |
| `Excepman.ExceptionManager.constructor` | src/iop/excepman.cpp:278-300 | at start every cause falls through to the stop |
| `Excepman.ExceptionManager.RegisterPriority` | src/iop/excepman.cpp:113-138 | the exact answer in every case; on success the registration is the newest, and free plus used nodes stay 32 |
| `Excepman.ExceptionManager.RegisterDefault` | src/iop/excepman.cpp:144-155 | the default chain grows at its head unless the handler is linked; the words of handlers on no chain stay |
| `Excepman.ExceptionManager.ReleaseHandler` | src/iop/excepman.cpp:157-174 | succeeds exactly when registered, its word is null again, and the words of handlers that were on no chain stay |
| `Excepman.ExceptionManager.ReleaseDefault` | src/iop/excepman.cpp:176-188 | only the newest default handler can be released; the words of handlers on no chain stay |
| `DmaDispatch.DmaController.constructor` | src/iop/intrman.cpp:85-90 | no flag set, every gate open |
| `DmaDispatch.DmaController.Configure` | tools/iopsim.py:139-141 | a write with zeroes in the flags changes the configuration and clears no flag |
| `DmaDispatch.DmaController.Modify` | src/iop/intrman.cpp:43-46 | a configuring read-modify-write clears no flag, also one raised between the read and the write |
| `DmaDispatch.DmaController.EnableIntr` | src/iop/intrman.cpp:251-290 | the exact new configuration, with no flag cleared |
| `DmaDispatch.DmaController.DisableIntr` | src/iop/intrman.cpp:296-348 | the exact new configuration, interrupt mask and restore argument, with no flag cleared |
| `DmaDispatch.ReenableRestores` | src/iop/intrman.cpp:292-348 | enabling with what disabling answered restores every configuration bit of both registers, and sets the master |
| `DmaDispatch.LinesAre` | src/iop/intrman.cpp:264-290 | the lines that are DMA channels, and the register and bit each one's flag is |
| `DmaDispatch.EnabledBits` | src/iop/intrman.cpp:251-290 | bit by bit what enabling makes of both registers, the two low bits set exactly when the argument's value has 0x100 and 0x200 |
| `DmaDispatch.DisabledBits` | src/iop/intrman.cpp:310-348 | disabling clears the channel's enable bit in its own register and no other configuration bit |
| `DmaDispatch.RestoreBits` | src/iop/intrman.cpp:310-348 | the argument answered carries 0x100 and 0x200 exactly when the channel's low bits were found set, and nothing else above the line |
| `DmaDispatch.DmaController.DisableDispatchIntr` | src/iop/intrman.cpp:353-362 | closes one gate or masks one line, and nothing else |
| `DmaDispatch.DmaController.EnableDispatchIntr` | src/iop/intrman.cpp:364-373 | opens one gate or unmasks one line, and nothing else |
| `DmaDispatch.DmaController.CallRegistered` | src/iop/intrman.cpp:377-383 | whatever a handler does through the four calls, no flag is cleared and no gate it must leave shut opens |
| `DmaDispatch.DmaController.Acknowledge` | src/iop/intrman.cpp:408-409 | exactly one flag is cleared, and the configuration bits of both registers stay as they were |
| `DmaDispatch.DmaController.Serve` | src/iop/intrman.cpp:408-411 | exactly one flag is cleared and its slot called next |
| `DmaDispatch.DmaController.ServeBank` | src/iop/intrman.cpp:401-413 | every flag its gate lets through is cleared and its slot called, lower channels first, gated ones are kept, and a bank with work lowers the work left |
| `DmaDispatch.DmaController.DispatchRound` | src/iop/intrman.cpp:429-440 | a round with something to serve lowers the work left, and calls the force slot when the force bit asked for it |
| `DmaDispatch.DmaController.DmaDispatchHandler` | src/iop/intrman.cpp:420-450 | it ends once the hardware stops raising, the wait for the master's clear included; gated channels keep their flags, a flag left set has risen since the last look, a force bit set at the start has had its slot called, and at the end that bit is clear and the master set |
| `DmaDispatch.EachRaiseAnsweredOnce` | src/iop/intrman.cpp:401-450 | each rise of a flag is answered by exactly one call, made right after its clearing, or is still set |
| `Liveness.LiveOut` | tools/eeabi.py:407-409 | the union over the successors, a missing node counting as empty |
| `Liveness.InSound` | tools/eeabi.py:410-411 | the node equation only yields registers that reach a use |
| `Liveness.FixedComplete` | tools/eeabi.py:402-414 | at a fixed point every path to a use shows in its first node |
| `Liveness.FixedIsLiveness` | tools/eeabi.py:402-414 | a sound fixed point is exactly liveness, so there is only one |
| `Liveness.RoomBound` | tools/eeabi.py:402-414 | the growth left is at most registers times nodes |
| `Liveness.Pass` | tools/eeabi.py:406-414 | a pass only adds registers, and either grows what is live or leaves it, having found the fixed point |
| `Liveness.Solve` | tools/eeabi.py:402-414 | the loop ends within registers times nodes passes and one more, and a register is in `live_in` of a node exactly when some path from it reaches a use with no earlier definition |
| `SegmentSender.Loader.constructor` | src/iop/loadfile.cpp:118-121 | nothing carried |
| `SegmentSender.Loader.ReadInto` | src/iop/loadfile.cpp:162-165 | a successful read is the file's bytes, and the lead bytes survive |
| `SegmentSender.Loader.FillLead` | src/iop/loadfile.cpp:145-151 | the carried block's bytes when the segment begins in it, zeros otherwise |
| `SegmentSender.Loader.FillImage` | src/iop/loadfile.cpp:152-171 | image bytes from the file as far as it goes, then zeros to the end of the block |
| `SegmentSender.Loader.SendToEe` | src/iop/loadfile.cpp:126-135 | exactly the quadwords sent change, and none when SIFMAN's ring is full |
| `SegmentSender.Loader.KeepBlock` | src/iop/loadfile.cpp:173-176 | the carried block is the last one of the chunk |
| `SegmentSender.Loader.Transmit` | src/iop/loadfile.cpp:172-177 | whole blocks are sent once, and the carried block is the last one sent |
| `SegmentSender.Loader.SendNext` | src/iop/loadfile.cpp:144-179 | one round and one transfer: carried lead bytes, image bytes, zero padding, landing if the ring has room |
| `SegmentSender.Loader.SendSegment` | src/iop/loadfile.cpp:140-182 | a segment at any address is sent as its file bytes then zeros, a transfer for each chunk from its first block on; each accepted transfer lands what was sent, each refused one leaves memory as it was, and nothing else changes |
| `SegmentSender.Loader.LoadElf` | src/iop/loadfile.cpp:185-214 | a short or failed header read answers the error; a load that succeeds makes exactly the transfers the headers imply and leaves each byte of EE memory as the schedule says, so with ascending disjoint segments the image is in place if and only if each byte of it arrives or was there; it succeeds when every read can |
| `SegmentSender.ImageByte` | src/iop/loadfile.cpp:126-182 | after a load each byte of a segment's image is its own if one of the transfers that carry it, its own or those of later segments beginning in its block, found room, and otherwise an earlier segment's padding or what was there |
| `SegmentSender.MeantStays` | src/iop/loadfile.cpp:114-121 | a segment that begins in an earlier one's last block sends the earlier bytes again as they were |
| `SegmentSender.LastHolds` | src/iop/loadfile.cpp:114-121 | the block kept is the one a later segment begins in, whenever that block holds a byte of an earlier one |
| `SegmentSender.PlacedIff` | src/iop/loadfile.cpp:126-214 | the whole image is in place if and only if every byte of it arrives or equals what was there before, a condition on the headers, the ring's fill at each transfer and the memory before the load |
| `SegmentSender.RoomPlaces` | src/iop/loadfile.cpp:126-214 | so it is whenever the ring has room at each of the load's transfers |
| `SegmentSender.ChunksNeeded` | src/iop/loadfile.cpp:140-181 | a segment takes as many transfers of at most 0x1000 bytes as the quadwords that cover it need |
| `SegmentSender.HeaderReads` | src/iop/loadfile.cpp:71-93 | an ELF header of arbitrary fields, encoded as the format lays them out, is read back field by field, and accepted exactly when it is whole, of an executable, and its program headers end inside the buffer |
| `SegmentSender.NoMagicRefused` | src/iop/loadfile.cpp:191-196 | a file that does not begin with the ELF magic is refused |
| `SegmentSender.SegmentReads` | src/iop/loadfile.cpp:85-94 | a program header of arbitrary fields encoded at `e_phoff + i * e_phentsize` is read as the segment with exactly those fields |
| `SegmentSender.ImageLoads` | src/iop/loadfile.cpp:140-214 | with room at each transfer and ascending segments, the bytes from p_paddr on are the file's from p_offset for p_filesz bytes, and zeros from there to p_memsz |
| `SegmentSender.LoadIntoFullRing` | src/iop/loadfile.cpp:126-135 | a sound executable loaded while the ring is full answers success with its segment unwritten |
| `Disc.Driver.constructor` | src/iop/cdvdman.cpp:418-431 | no handle in use and nothing cached |
| `Disc.Driver.ReadSectorBlocking` | src/iop/cdvdman.cpp:223-231 | success means the sector is in the buffer; failure promises nothing about it |
| `Disc.Driver.SectorCached` | src/iop/cdvdman.cpp:236-247 | a valid cache always equals the sector it names, whatever fails |
| `Disc.ComponentMatches` | src/iop/cdvdman.cpp:297-324 | a component names an identifier exactly, or its base name when it carries no version |
| `Disc.NamesIsCalled` | src/iop/cdvdman.cpp:297-324 | the two ways of calling a file, by its whole identifier or without the version, as the recorded bytes say |
| `Disc.RecordReads` | src/iop/cdvdman.cpp:280-346 | a directory record of arbitrary identifier, location, length and flags, encoded as ECMA-119 section 9.1 lays it out, is read back as exactly those |
| `Disc.DirectoryReads` | src/iop/cdvdman.cpp:327-356 | a directory extent laid out sector by sector from a list of such records is read as that list |
| `Disc.DirectoryFinds` | src/iop/cdvdman.cpp:327-356 | a component finds the first record it calls, with the location, length and kind recorded, and nothing when no record is called that |
| `Disc.LookupFinds` | src/iop/cdvdman.cpp:372-399 | a chain of directories leads to the file at its end with the location and length it was recorded with |
| `Disc.VolumeReads` | src/iop/cdvdman.cpp:360-370 | the root directory's record in the volume descriptor is read back as it was recorded |
| `Disc.ResolveFinds` | src/iop/cdvdman.cpp:360-399 | from the volume descriptor down, a path of up to eight components names the file recorded there |
| `Disc.LookupMisses` | src/iop/cdvdman.cpp:372-399 | a name no record has, a directory at the end of the path and a file on the way are not found |
| `Disc.ResolveRefuses` | src/iop/cdvdman.cpp:360-367 | nor anything on a path that does not begin with a backslash or is deeper than eight, or on a volume without the standard identifier |
| `Disc.EmptyComponent` | src/iop/cdvdman.cpp:372-380 | nor anything on a path with an empty component |
| `Disc.FileByteIs` | src/iop/cdvdman.cpp:497-512 | byte `p` of a file is byte `p % 2048` of sector `lba + p / 2048` |
| `Disc.ScanSector` | src/iop/cdvdman.cpp:335-352 | the first matching record of a sector, up to the padding (what a record means is RecordReads) |
| `Disc.Driver.FindInDirectory` | src/iop/cdvdman.cpp:327-356 | whatever it finds is the directory's first match, and with no failed read it misses nothing (what the directory holds is DirectoryReads and DirectoryFinds) |
| `Disc.Driver.ResolvePath` | src/iop/cdvdman.cpp:360-399 | agrees with a plain lookup in the directory tree to eight levels, whose meaning is ResolveFinds and LookupMisses; a failed read can only lose a file, never find a wrong one |
| `Disc.Driver.Open` | src/iop/cdvdman.cpp:445-469 | the first free handle at position zero of the file named, with its recorded location and length, or the exact error |
| `Disc.Driver.Close` | src/iop/cdvdman.cpp:479-486 | the handle is free again |
| `Disc.Driver.Read` | src/iop/cdvdman.cpp:488-520 | an exact prefix of the file at the position, the whole of it when no read fails, and the position moves by exactly that |
| `Disc.CopyOut` | src/iop/cdvdman.cpp:510-512 | exactly the bytes asked for are copied, the rest of the buffer kept |
| `Disc.Driver.Lseek` | src/iop/cdvdman.cpp:522-550 | the exact answer, and the position stays within the size |
| `Disc.SeekIsClampIff` | src/iop/cdvdman.cpp:522-550 | below 2^31 bytes a seek is the clamped sum if and only if the sum is below 2^31, and lands on the start otherwise; from 2^31 bytes on it always lands on the end, so it is the clamped sum if and only if that is the end |
| `Disc.SeekPastTheEnd` | src/iop/cdvdman.cpp:522-550 | one byte past the end of a file of 2^31 - 1 bytes is its start, from the end or from a position |
| `Disc.SeekInLargeFile` | src/iop/cdvdman.cpp:522-550 | in a file of 2^31 bytes a seek to the start lands on the end |
| `RomArchive.RenderTable` | tools/mkromdir.py:146-152 | the rows and the terminator, in the size the manifest predicts |
| `RomArchive.Assemble` | tools/mkromdir.py:155-178 | the entries back to back, padded but for the last, zero-filled to the size asked for or refused |
| `RomArchive.ImageHolds` | tools/mkromdir.py:155-178 | every entry's bytes lie in the image at its implied offset |
| `RomArchive.ImageMeans` | tools/mkromdir.py:155-178 | at its offset a file's entry is the file, a pad is zeros, and the table and the metadata stand where they are named |
| `RomArchive.ImageRest` | tools/mkromdir.py:161-178 | the image is as long as asked, or ends at the last entry's last byte; it is refused exactly when the entries do not fit; past the last entry are zeros |
| `RomArchive.PaddingIsZero` | tools/mkromdir.py:164-171 | between one entry's bytes and the next entry are zeros |
| `RomArchive.RowBytes` | tools/mkromdir.py:146-152 | a row byte by byte: the name and zeros to ten bytes, two bytes of metadata size and four of size, lowest first |
| `RomArchive.TableRows` | tools/mkromdir.py:146-152 | row `k` of the table is the manifest's entry `k`, and after the last is a row of zeros |
| `RomArchive.ExtSlice` | tools/mkromdir.py:155-157 | in the metadata entry each entry's slice stands at the sum of the slices before it |
| `RomArchive.ExtReads` | tools/romdir.py:80-95 | in the image, where the parser's offsets point inside the metadata entry stands each entry's own slice |
| `RomArchive.CandidateMeans` | src/boot/archive.hpp:88-112 | the bytes the boot code's scan takes for a table, and those it takes for its end |
| `RomArchive.AcceptsMeans` | tools/romdir.py:60-77 | the bytes the parser takes for a table |
| `RomArchive.RStripIs` | tools/romdir.py:68-88 | what is stripped off a name is zeros, and all of them at its end |
| `RomArchive.RowReads` | tools/mkromdir.py:146-152 | a row reads back as the name, metadata size and size it was made from |
| `RomArchive.ArchiveFind` | src/boot/archive.hpp:107-127 | the nested scan is the first candidate's walk |
| `RomArchive.WalkFinds` | src/boot/archive.hpp:118-124 | from any row on, the walk reaches the name with the offset the rows before it imply |
| `RomArchive.FindRecovers` | src/boot/archive.hpp:107-127 | with no earlier false candidate, each name's first entry is found at the offset, with the size and bytes, it was built with |
| `RomArchive.FindMisses` | src/boot/archive.hpp:107-127 | a name the manifest lacks is not found |
| `RomArchive.FindTable` | tools/romdir.py:60-77 | the first place that opens RESET, ROMDIR with a whole number of rows |
| `RomArchive.TableFound` | tools/romdir.py:60-77 | with no false table before it, that is the real one |
| `RomArchive.ParseEntries` | tools/romdir.py:80-95 | the row loop with its running offsets |
| `RomArchive.ParseLists` | tools/romdir.py:80-95 | from any row on, the parser lists the rest of the manifest |
| `RomArchive.EntryMap` | tools/romdir.py:98-105 | the first entry of each name, padding left out |
| `RomArchive.ParserRecovers` | tools/romdir.py:60-105 | the parser lists every entry with the offsets it was built with, and lookup by name gives the same entry |
| `RomArchive.PartialOffset` | tools/mkromdir.py:203-226 | leaving out the bytes from the target on does not move the target |
| `RomArchive.EntryOffsets` | tools/mkromdir.py:181-189 | each name's last entry by the running sum |
| `RomArchive.OffsetOf` | tools/mkromdir.py:181-226 | the target's offset in the partial layout is its offset in the finished image, when its name is its own |

## Left out

- Memory as an array: the arena's memory, link words and registers are fields of type `seq` or `map`, which the methods reassign; addresses in HEAPLIB are counted in eight-byte units. LOADFILE's buffers are arrays.
- The SYSMEM calls of the growable heap: the grant is a parameter and what is given back an answer; `sysmem.cpp` is not part of this model. The heap's magic word is written but not checked, since every call is on a heap that was created, and the growth size is a constant beside the memory rather than read from it.
- HeapArena.Arena.HeapFree: pointers are ones the arena handed out (live or freed since) or outside it; forged pointers into live payload are caller misuse.
- HeapObject.GrowableHeap.FreeHeapMemory: pointers into an arena are ones it handed out (live or freed since) or blocks not carved yet; forged pointers into live payload are caller misuse.
- HeapObject.GrowableHeap.constructor: where the home arena has no room, the granted block does not happen to carry an arena tag there.
- Relocation.Relocate: starts from the decoded REL entries; ELF section headers, the choice of loaded sections and mkirx's messages are not modelled.
- Registry.Loadcore.BindText: an import is bound once, while on no client list; the words of the text that read as the import magic are a given set of addresses.
- Registry.Loadcore.RegisterVersioned: a table offered is an export table without clients whose pin bit is clear, as a module stores it; the bit is set only by a pinned registration.
- Registry.Loadcore.PinClient: the pin bit of a bound client is only set, never cleared again; nothing in the repository writes it, and a module that cleared it could leave an unpinned client on a superseded table.
- Sio2: the register words and the parameters of a transfer; a descriptor is an opaque number.
- Sifman.Sender.SendFinished: a callback is represented by the sends it makes; other code it may run is not.
- SifStream.EeChannel.Push: destinations lie in EE RAM and counts fit the tag; the scratchpad and the EE's own sending direction are not modelled.
- SifRpc.RpcQueue.ServeCall: no second call to a server that is still pending, which is what keeps the list (SifRpc.Append says exactly when); one queue, whose servers are its own. The registration lists of servers and queues, BIND, and SET_SREG are not modelled, and the END packet is fixed when it is queued rather than read from the shared buffer later.
- SifRpc.RpcQueue.AnswerCall: a run refused because SIFMAN's ring is full is ignored by the code and by the model.
- Excepman: the vector's instructions; an exception is the jump through the table and the words. Handler records other than the stop are the owners', at positive addresses.
- DmaDispatch.DmaController.DmaDispatchHandler: handlers touch the two registers only through the four modelled calls; the registration table and the exception path around the dispatcher are not modelled.
- Liveness.Solve: starts from a graph; decoding instructions, building the graph with its delay slots, and the recursion into callees are not modelled.
- SegmentSender.Loader.LoadElf: the segments fit EE memory; the wait for a transfer to finish is not modelled, an accepted one has landed when the call returns; a header table that overruns the 0x400-byte buffer (an offset that wraps, or entries shorter than 32 bytes at its end) reads as zeros; opening and closing the file are not modelled.
- Disc.Driver.FindInDirectory: bytes past the cached sector, which only a malformed record makes the code read, read as zero; the name and date pointers into the cache are not modelled.
- Disc.Driver.ReadSectorBlocking: the drive's command sequence is a choice between declining, failing and reading.
- RomArchive.ArchiveFind: bytes past the image read as zero; the packed-name overload is the same comparison of ten bytes.
- RomArchive.Assemble: the EXTINFO directive encoder and reading the manifest text and source files; metadata slices are given as bytes.
- FILEIO, IOMAN, DMACMAN, SECRMAN, THREADMAN, the boot chain, the EE programs and the simulators' instruction sets: easier repeats, plain input and output, or code below the model.
