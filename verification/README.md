# LuaJIT 2.0.1: verified models

A Dafny 4.11 model of the parts of LuaJIT 2.0.1 that carry the hardest
invariants, with proofs of what those parts are for.

- **Memory allocator** (`lj_alloc.c`): boundary tags, small bins as threaded
  rings, tree bins as bitwise tries of records with parent pointers, designated
  victim, top, segments with records and fenceposts. The class `Alloc.Heap` does
  what malloc, free, realloc, alloc_sys, add_segment, prepend_alloc, trim and
  release_unused_segments do, write by write; `HeapInv.Inv` is what they keep.
  Constants are those of x64 with memory in the low 4 GB.
- **DynASM encoder for x86** (`dasm_x86.h`): `Dasm.Assembler` has the three
  passes as methods over the section buffers and label tables. What pass 1
  recorded is a trace of items and a log of references and definitions.
- **Bytecode dumps** (`lj_bcwrite.c`, `lj_bcread.c`): a writer that patches its
  buffer, a reader that refills its own from chunks of any size, and the format
  between them, with integers as separate numbers (dual-number mode).
- **Register allocator** (`lj_asm.c`): the `ra_` functions, side-trace entry, PHI
  setup and PHI shuffle. Code is a list of operations for a small machine of
  registers and spill slots, emitted backwards; each operation keeps "from every
  state that meets the demand, the code reaches the goal".
- **Pattern matcher, searches, gsub and quoting** (`lib_string.c`): a backtracking
  matcher over captures changed in place, the list of ways to match in order of
  preference, a declarative relation, and patterns as lists of parts, with what
  they mean and how they are written.
- **table.sort** (`lib_table.c`), **luaL_ref** (`lib_aux.c`), **64-bit power and
  division** (`lj_carith.c`).

Each class method is proved against functions on values; the laws are lemmas
about those functions and invariants over any run. Some invariants are stated as
`forall part :: Holds(part)` over a small enumeration, so that the solver looks
into them only where a lemma asks for it.

`dafny verify dfyconfig.toml` checks the project.

## Model

| member | source | states |
|---|---|---|
| Alloc.Run | LuaJIT-2.0.1/src/lj_alloc.c:1165-1379 | over any run of allocations, releases and writes the live blocks are exactly those that the replies say, with the requested sizes; they are 8-byte aligned, apart from each other and from the allocator's own data, each handed-out address was not live before, null comes only if the system fails or the size is too large, a block that does not grow stays where it is, every block still holds what the program wrote into it, also after realloc moved it, and no chunk is in use but live blocks, the allocator's state and its records |
| Alloc.Heap.Malloc | LuaJIT-2.0.1/src/lj_alloc.c:1165-1246 | keeps the whole heap invariant and moves no live block; a chunk of the bins is a best fit over all of them and is taken unless dv is large enough and the fit is not close (small requests) or not better (large ones), then dv, then top, then new memory; no more than a minimal chunk is wasted; null comes if and only if no bin, dv or top has room and the system gave no memory, and then nothing changed |
| Alloc.Heap.Free | LuaJIT-2.0.1/src/lj_alloc.c:1248-1317 | the heap invariant is kept with the block gone; its chunk is no longer in use; freeing null does nothing; the other blocks keep their sizes and bytes |
| Alloc.Heap.Realloc | LuaJIT-2.0.1/src/lj_alloc.c:1319-1367 | the block stays where it is if and only if its chunk is large enough or can grow into top; otherwise null comes if and only if malloc has no room either (or the size is too large), and then nothing changed; a moved block gets what malloc would choose; the block keeps its first min(old, new) bytes, all other blocks keep theirs, no more than a minimal chunk is wasted, and no other chunk becomes used |
| Alloc.Heap.AllocF | LuaJIT-2.0.1/src/lj_alloc.c:1369-1379 | the allocator function: release for size 0, malloc for null, realloc otherwise; null for a nonzero size comes exactly in the cases of malloc and realloc, a block stays exactly if it has or gets room where it is; if every chunk in use was accounted for before, it is afterwards |
| Alloc.Heap.constructor | LuaJIT-2.0.1/src/lj_alloc.c:1129-1151 | the first region becomes a heap that meets the invariant, with no live block |
| Leaks.NoneNew | LuaJIT-2.0.1/src/lj_alloc.c:1165-1367 | a change that puts at most chunk p to use adds at most p to the chunks in use that are neither segment records nor fenceposts |
| Leaks.AddedBlocks | LuaJIT-2.0.1/src/lj_alloc.c:838-882 | add_segment puts no chunk to use but its record and fenceposts |
| HeapInv.LiveBlocksApart | LuaJIT-2.0.1/src/lj_alloc.c:1165-1379 | in every state that meets the invariant a byte belongs to the payload of at most one live block, and payloads are aligned |
| HeapInv.BookkeepingApart | LuaJIT-2.0.1/src/lj_alloc.c:1165-1379 | no byte of a live payload is a byte of a head, a valid foot or the links of a free chunk |
| Segments.TilesSegment | LuaJIT-2.0.1/src/lj_alloc.c:1165-1367 | chunks tile each segment: every byte from its base to its end belongs to exactly one chunk |
| Chunks.Elsewhere | LuaJIT-2.0.1/src/lj_alloc.c:362-374 | two distinct chunks do not overlap |
| TreeIndex.TreeIndexInterval | LuaJIT-2.0.1/src/lj_alloc.c:517-543 | compute_tree_index(s) is i if and only if s lies between minsize_for_tree_index(i) and that of i + 1 |
| TreeIndex.TreeIndexMonotone | LuaJIT-2.0.1/src/lj_alloc.c:517-530 | larger sizes have no smaller tree index |
| TreeIndex.TreeIndexInTrie | LuaJIT-2.0.1/src/lj_alloc.c:517-538 | a size of bin i lies in the interval whose bits the trie of bin i decides |
| TreeIndex.Steer | LuaJIT-2.0.1/src/lj_alloc.c:536-538 | the top bit of the shifted key says in which half of its interval a size lies |
| SmallBins.RingInsert | LuaJIT-2.0.1/src/lj_alloc.c:579-591 | threading a chunk behind the header of a small bin yields the ring with that chunk in front |
| SmallBins.RingRemove | LuaJIT-2.0.1/src/lj_alloc.c:594-604 | unthreading a chunk yields the ring without it, all other links unchanged |
| SmallBins.SmallBins.Insert | LuaJIT-2.0.1/src/lj_alloc.c:579-591 | the chunk joins the bin of its size, the bin map says so, all other bins are unchanged |
| SmallBins.SmallBins.Unlink | LuaJIT-2.0.1/src/lj_alloc.c:594-604 | the chunk leaves its bin, and the bit is cleared if and only if the bin is empty now |
| SmallBins.SmallBins.UnlinkFirst | LuaJIT-2.0.1/src/lj_alloc.c:607-616 | the chunk taken from a marked bin has that bin's size and leaves it |
| Tries.InsertTrie | LuaJIT-2.0.1/src/lj_alloc.c:632-659 | insertion keeps the trie: every size on the side that its bits say, equal sizes on one ring |
| Tries.InsertSizes | LuaJIT-2.0.1/src/lj_alloc.c:632-659 | the trie afterwards holds exactly the old chunks and the new one |
| Tries.RemoveTrie | LuaJIT-2.0.1/src/lj_alloc.c:671-714 | replacing a removed node by a descendant leaf keeps the trie |
| Tries.RemoveSizes | LuaJIT-2.0.1/src/lj_alloc.c:671-714 | the trie afterwards holds exactly the other chunks, with their sizes |
| TrieLinks.HeadRemoved | LuaJIT-2.0.1/src/lj_alloc.c:671-714 | the pointer writes of the removal of a ring's first chunk turn the records of a trie into those of the trie without it |
| TrieLinks.LaterRemoved | LuaJIT-2.0.1/src/lj_alloc.c:671-714 | the same for another chunk of a ring |
| TreeBins.TreeBins.Insert | LuaJIT-2.0.1/src/lj_alloc.c:632-659 | the chunk is in the tree bin of its size, all tries, rings, parent pointers and bin-map bits are right, and nothing else is binned or lost |
| TreeBins.TreeBins.Unlink | LuaJIT-2.0.1/src/lj_alloc.c:671-714 | exactly that chunk leaves the tree bins, which stay well formed; the map bit is cleared if and only if its bin is empty now |
| TreeBins.TreeBins.FindBestFit | LuaJIT-2.0.1/src/lj_alloc.c:1033-1077 | path search, deepest untaken right subtree, leftmost descent and next marked bin together find a smallest chunk of size at least nb over all tree bins, or none if none fits |
| TreeBins.TreeBins.FindSmallest | LuaJIT-2.0.1/src/lj_alloc.c:1097-1112 | a smallest chunk of all tree bins is found in the lowest marked bin |
| TreeSearch.PathPendingStep | LuaJIT-2.0.1/src/lj_alloc.c:1040-1058 | one step down the path loses no candidate: each fitting chunk is no better than the best so far, in the current subtree, or in or above the right subtree kept aside |
| TreeSearch.LeastStep | LuaJIT-2.0.1/src/lj_alloc.c:1068-1077 | one step of the leftmost descent loses no candidate |
| TreeSearch.RstFits | LuaJIT-2.0.1/src/lj_alloc.c:1040-1063 | all of the right subtree kept aside is large enough |
| Alloc.Heap.TmallocLarge | LuaJIT-2.0.1/src/lj_alloc.c:1033-1094 | takes a best fit of the tree bins that fits better than dv, or declines if there is none |
| Alloc.Heap.TmallocSmall | LuaJIT-2.0.1/src/lj_alloc.c:1097-1125 | takes a smallest chunk of the tree bins and bins or designates the remainder |
| Alloc.Heap.MallocSmall | LuaJIT-2.0.1/src/lj_alloc.c:1169-1207 | a best fit of all bins: the exact small bin or the next one, else, if dv is too small, the next nonempty small bin or a smallest tree chunk; null only if there is no close fit and dv has room, or none of them has room |
| Alloc.Heap.LeastMarked | LuaJIT-2.0.1/src/lj_alloc.c:1174-1203 | the first marked bin behind a size holds the smallest binned chunks of at least that size |
| Alloc.Heap.TakeDv | LuaJIT-2.0.1/src/lj_alloc.c:1217-1231 | dv is split or exhausted |
| Alloc.Heap.TakeTop | LuaJIT-2.0.1/src/lj_alloc.c:1232-1242 | top is split |
| Alloc.Heap.AllocSys | LuaJIT-2.0.1/src/lj_alloc.c:886-943 | new memory extends top, is prepended to a segment, or becomes a segment of its own; the request is then met |
| Alloc.Heap.AddSegment | LuaJIT-2.0.1/src/lj_alloc.c:838-882 | the old top becomes a free chunk, a segment record and fenceposts; the heap stays well formed with the new segment first |
| Alloc.Heap.PrependAlloc | LuaJIT-2.0.1/src/lj_alloc.c:805-835 | a region below a segment is joined with the segment's first chunk, whether that is top, dv, free or in use, and its front is handed out |
| Alloc.Heap.ReleaseUnusedSegments | LuaJIT-2.0.1/src/lj_alloc.c:948-988 | segments that hold one free chunk only, and no segment record, go back to the system; live blocks are untouched |
| Alloc.Heap.Trim | LuaJIT-2.0.1/src/lj_alloc.c:990-1028 | top is cut by whole granules; live blocks are untouched |
| HeapInv.FreedInto | LuaJIT-2.0.1/src/lj_alloc.c:1248-1310 | joining a freed chunk with free neighbours leaves no two free chunks adjacent and every chunk in the place its size says |
| HeapInv.SplitOfTop | LuaJIT-2.0.1/src/lj_alloc.c:1232-1242 | the invariant after cutting a chunk off top |
| Regions.SegmentAdded | LuaJIT-2.0.1/src/lj_alloc.c:838-882 | the invariant after the writes of add_segment |
| Prepend.RegionPrepended | LuaJIT-2.0.1/src/lj_alloc.c:805-835 | the invariant after the writes of prepend_alloc |
| Prepend.SegmentReleased | LuaJIT-2.0.1/src/lj_alloc.c:948-988 | the invariant without a released segment |
| Dasm.Assemble | LuaJIT-2.0.1/dynasm/dasm_x86.h:167-438 | a whole run of any well-formed calls: the sections hold exactly the actions of the calls in order, with their arguments; it stops early only if a buffer has no room left or a label that is no global was never defined, otherwise the code has the size that linking returned, and every global that is defined has its final address in the table |
| Dasm.Assembler.Put | LuaJIT-2.0.1/dynasm/dasm_x86.h:167-262 | records all actions of the call up to its stop, with the arguments that they take, and exactly their references and definitions; chains and label tables stay threaded |
| Dasm.Assembler.Link | LuaJIT-2.0.1/dynasm/dasm_x86.h:265-345 | every offset is fixed and every branch and alignment shortened as the walk says; the state is ready to be encoded |
| Dasm.Assembler.Encode | LuaJIT-2.0.1/dynasm/dasm_x86.h:359-438 | emits exactly codesize bytes, never the phase error; the bytes are the program that the items say; each global that is defined gets the address of the final position of its definition, the one that is encoded last if there are several, and the others keep their addresses |
| DasmCode.PhasesAgree | LuaJIT-2.0.1/dynasm/dasm_x86.h:265-438 | the three passes agree: before every item the code that pass 3 has emitted has the length that pass 2 computed |
| DasmCode.ProgramLength | LuaJIT-2.0.1/dynasm/dasm_x86.h:334-345 | the code of the first s sections is as long as linking said |
| Dasm.Assembler.EveryBranchLands | LuaJIT-2.0.1/dynasm/dasm_x86.h:386-404 | every branch, short or near, transfers to the final position of the definition that its reference is bound to |
| DasmCode.BranchLands | LuaJIT-2.0.1/dynasm/dasm_x86.h:397-404 | the same for a branch to any label of the program; the code up to it is a prefix of the whole |
| DasmLink.ShortBranchFits | LuaJIT-2.0.1/dynasm/dasm_x86.h:302-323 | where linking chose a short form, forward from over-estimated or backward from exact distances, the final displacement fits a signed byte |
| DasmLink.ShortWhenItFits | LuaJIT-2.0.1/dynasm/dasm_x86.h:302-323 | a backward branch with a short form gets it if and only if the displacement then fits a signed byte; a forward one if and only if the distance that pass 1 estimated does |
| DasmLink.LabelFinal | LuaJIT-2.0.1/dynasm/dasm_x86.h:331-332 | the linked offset of a label is the position at which pass 3 passes it |
| DasmLabels.ForwardBindsNext | LuaJIT-2.0.1/dynasm/dasm_x86.h:210-243 | a forward reference is bound to the next definition of its label |
| DasmLabels.BackwardBindsLatest | LuaJIT-2.0.1/dynasm/dasm_x86.h:210-243 | a backward reference is bound to the latest earlier definition if and only if no forward reference to the label came after that definition |
| DasmLabels.BackwardMayMiss | LuaJIT-2.0.1/dynasm/dasm_x86.h:214-229 | the log for which it is bound to a later definition instead |
| Dasm.BackwardJumpMisses | LuaJIT-2.0.1/dynasm/dasm_x86.h:210-243 | well-formed actions for which dasm_put records that log and the backward jump lands at the second definition |
| DasmLabels.RefAdded | LuaJIT-2.0.1/dynasm/dasm_x86.h:214-231 | after a reference the slots and tables hold the chains of the longer log |
| DasmLabels.DefAdded | LuaJIT-2.0.1/dynasm/dasm_x86.h:237-243 | after a definition every pending reference holds its position, and the chain of the label is empty |
| DasmLabels.EntrySpec | LuaJIT-2.0.1/dynasm/dasm_x86.h:210-243 | a table entry is positive if and only if references wait, negative if and only if the label is defined for backward references |
| DasmLabels.ChainStep | LuaJIT-2.0.1/dynasm/dasm_x86.h:239-240 | following the chain visits exactly the pending references, from the newest to the oldest |
| DasmLabels.UnboundUndefined | LuaJIT-2.0.1/dynasm/dasm_x86.h:281-288 | a reference to a global stays unbound only if the global is defined nowhere |
| Dasm.Assembler.Collapse | LuaJIT-2.0.1/dynasm/dasm_x86.h:239-240 | all pending references of a label get the value, no other slot changes |
| Dasm.Assembler.MarkGlobals | LuaJIT-2.0.1/dynasm/dasm_x86.h:281-288 | references to globals that are not defined here hold minus the number of the global |
| Dasm.Assembler.LinkAction | LuaJIT-2.0.1/dynasm/dasm_x86.h:298-338 | one action of the linking loop |
| Dasm.Assembler.EncodeAction | LuaJIT-2.0.1/dynasm/dasm_x86.h:371-430 | one action of the encoding loop emits the bytes that the item says and enters a global that it defines |
| DasmMeaning.GlobalsDone | LuaJIT-2.0.1/dynasm/dasm_x86.h:412-416 | after all sections the table holds base plus the final offset of the last definition for every defined global, and what it held before for every other one |
| DasmMeaning.TableLast | LuaJIT-2.0.1/dynasm/dasm_x86.h:412-416 | the definition that is encoded last determines the entry |
| DasmMeaning.OperandReads | LuaJIT-2.0.1/dynasm/dasm_x86.h:386-396 | the processor reads back each operand as its argument: sign-extended bytes where it fits one (with the opcode changed for that), 16 or 32 bits otherwise, and the address itself behind a relative one; nothing else changes |
| DasmMeaning.AddressReads | LuaJIT-2.0.1/dynasm/dasm_x86.h:405-411 | an operand that refers to a label holds base plus what linking left for the label, or the address of a global that is not defined here |
| DasmMeaning.GlobalReached | LuaJIT-2.0.1/dynasm/dasm_x86.h:394-396 | a branch to a global that is not defined here reaches the address in the table |
| DasmMeaning.Padded | LuaJIT-2.0.1/dynasm/dasm_x86.h:420-423 | alignment pads with nops to the next multiple |
| Dasm.Assembler.GetPcLabel | LuaJIT-2.0.1/dynasm/dasm_x86.h:441-450 | the final code offset of the latest definition, -1 for references only, -2 otherwise |
| DasmCode.ItemKeeps | LuaJIT-2.0.1/dynasm/dasm_x86.h:371-430 | later actions change at most the literal bytes right before them |
| DasmPut.LeadsActions | LuaJIT-2.0.1/dynasm/dasm_x86.h:186-260 | the items of a call are its actions, one after the other, up to the stop |
| Dumps.WriteThenRead | LuaJIT-2.0.1/src/lj_bcwrite.c:379-395 | the status is zero if and only if the callback accepts every piece; then reading what was written, cut into chunks of any size, gives back the same tree: parameters, frame sizes, bytecode, upvalues, numbers, strings, tables with equal entries and children, the flags that a dump keeps, the chunk name, and debug info unless it was stripped |
| DumpSame.TreeSame | LuaJIT-2.0.1/src/lj_bcread.c:329-420 | what the reader makes of any tree that can be written is the same tree in that sense, stated field by field and entry by entry |
| DumpSame.TableSame | LuaJIT-2.0.1/src/lj_bcread.c:220-241 | a table that comes back maps a key to a value if and only if the written one did, in whichever part |
| DumpFormat.ExampleDump | LuaJIT-2.0.1/src/lj_bcwrite.c:272-333 | the bytes of one small dump, as the format lists its fields |
| DumpWrite.Writer.Write | LuaJIT-2.0.1/src/lj_bcwrite.c:367-395 | the callback gets the header, the framed prototypes in post-order and the end, which together are the dump, up to the first piece that it refuses; its answer to that one is the status |
| DumpWrite.Writer.WriteProto | LuaJIT-2.0.1/src/lj_bcwrite.c:272-333 | children are written first, then the framed body; after a refused piece no more is written |
| DumpWrite.Writer.WriteUleb33 | LuaJIT-2.0.1/src/lj_bcwrite.c:206-239 | the patched fifth byte makes the number the encoding of 2*u+tag |
| DumpWrite.Writer.WriteUleb | LuaJIT-2.0.1/src/lj_bcwrite.c:67-75 | appends the number and changes nothing behind it |
| DumpWrite.Writer.WriteTable | LuaJIT-2.0.1/src/lj_bcwrite.c:112-148 | array part up to its last value, then the used hash slots from the last one down |
| DumpWrite.Writer.WriteConsts | LuaJIT-2.0.1/src/lj_bcwrite.c:151-203 | the collectable constants in ascending order |
| DumpWrite.Writer.WriteNumbers | LuaJIT-2.0.1/src/lj_bcwrite.c:206-239 | the numeric constants in ascending order |
| DumpWrite.Writer.WriteBody | LuaJIT-2.0.1/src/lj_bcwrite.c:272-322 | header, bytecode, upvalues, constants and debug info behind room for the length |
| DumpWrite.Writer.FillLength | LuaJIT-2.0.1/src/lj_bcwrite.c:325-331 | the length is filled in so that it ends exactly where the body starts |
| DumpRead.Reader.Read | LuaJIT-2.0.1/src/lj_bcread.c:455-475 | whatever chunks the dump comes in, the same tree comes back, field by field, with the chunk name, and nothing stays on the stack |
| DumpRead.Reader.Fill | LuaJIT-2.0.1/src/lj_bcread.c:57-94 | refilling moves the unread bytes and loses none |
| DumpRead.Reader.ReadUleb | LuaJIT-2.0.1/src/lj_bcread.c:136-150 | undoes the plain encoding for every 32-bit number |
| DumpRead.Reader.ReadUleb33 | LuaJIT-2.0.1/src/lj_bcread.c:154-169 | undoes the 33-bit encoding |
| DumpRead.Reader.ReadTab | LuaJIT-2.0.1/src/lj_bcread.c:220-241 | gives back the array part and the hash part of a template table |
| DumpRead.Reader.ReadConsts | LuaJIT-2.0.1/src/lj_bcread.c:244-280 | the constants come back: equal strings, tables with equal entries, children popped from the stack |
| DumpRead.Reader.ReadNumbers | LuaJIT-2.0.1/src/lj_bcread.c:283-297 | the numeric constants come back |
| DumpRead.Reader.ReadBody | LuaJIT-2.0.1/src/lj_bcread.c:329-420 | the prototype comes back from its body: every field, string and table is the one that was written, flags are masked, debug info is gone only if it was stripped |
| DumpRead.Reader.ReadNextProto | LuaJIT-2.0.1/src/lj_bcread.c:329-353 | the next prototype, or the end at the zero length |
| DumpRead.Reader.ReadHeader | LuaJIT-2.0.1/src/lj_bcread.c:423-452 | flags and chunk name come back |
| DumpFormat.SubtreeNetsOne | LuaJIT-2.0.1/src/lj_bcread.c:244-280 | reading the dump of a subtree nets exactly one stack entry, the subtree's root |
| DumpFormat.FlatTree | LuaJIT-2.0.1/src/lj_bcwrite.c:151-168 | the dump of a tree is the framed bodies in post-order, children of descending constant index first |
| DumpFormat.TableComesBack | LuaJIT-2.0.1/src/lj_bcread.c:220-241 | a table read back holds the same value under every key |
| Uleb128.UlebRoundTrip | LuaJIT-2.0.1/src/lj_bcwrite.c:67-75 | decoding the encoding of any number gives it back |
| Uleb128.RoundTrip33 | LuaJIT-2.0.1/src/lj_bcread.c:154-169 | the 33-bit reader undoes the encoding of 2*u+tag and sees the tag in the first byte |
| Uleb128.Patched33 | LuaJIT-2.0.1/src/lj_bcwrite.c:206-239 | for every 32-bit u and tag the 32-bit arithmetic with the patched byte yields the encoding of the 33-bit number |
| Uleb128.PrefixLength | LuaJIT-2.0.1/src/lj_bcwrite.c:325-331 | (fls(n)+8)*9>>6 is the encoded length of every 32-bit n > 0 |
| RegHead.AssembleSide | LuaJIT-2.0.1/src/lj_asm.c:1339-1496 | a side trace from its last instruction to its head: from every machine state in which the parent leaves, the code leaves the value of each result in its stack slot; it gives up only if the references with spill slots fill all cells below 256, but for one where two are needed, or if every register of a kind is owned, holds a parent's value, or is where one was put |
| RegHead.HeadSide | LuaJIT-2.0.1/src/lj_asm.c:1339-1496 | for every injective assignment of parent registers, cycles included, the emitted moves and loads leave every inherited value where the trace wants it; it gives up only for the same reasons |
| RegHead.SideHead.Shuffle | LuaJIT-2.0.1/src/lj_asm.c:1447-1481 | the shuffle terminates and leaves no live parent register unmoved, or no temporary register of a kind is left |
| RegHead.SideHead.BreakCycle | LuaJIT-2.0.1/src/lj_asm.c:1463-1479 | renaming one target to a temporary register frees a live register; it fails only if no free register of the kind is unspoken for |
| RegHead.SideHead.MoveFree | LuaJIT-2.0.1/src/lj_asm.c:1450-1461 | every free live register is moved to its target |
| RegHead.SideHead.Scan | LuaJIT-2.0.1/src/lj_asm.c:1350-1388 | the scan over inherited references accounts for every one of them |
| RegHead.SideHead.ReloadAll | LuaJIT-2.0.1/src/lj_asm.c:1389-1422 | the second pass provides registers for references that are wanted in slots only |
| RegHead.SideHead.LoadAll | LuaJIT-2.0.1/src/lj_asm.c:1430-1445 | the third pass loads registers from the parent's spill slots |
| RegHead.Tail | LuaJIT-2.0.1/src/lj_asm.c:1516-1559 | the results are stored to the Lua stack |
| RegLoop.AssembleLoop | LuaJIT-2.0.1/src/lj_asm.c:1084-1312 | a loop from its PHIs to its start is compiled to code that any number of iterations can run; it gives up only if the references with spill slots fill all cells below 256, or without registers for the PHIs |
| RegLoop.Iterations | LuaJIT-2.0.1/src/lj_asm.c:1084-1158 | each run of the loop finds the values of the right operands where the left ones are expected, for any number of iterations |
| RegLoop.NextIteration | LuaJIT-2.0.1/src/lj_asm.c:1084-1158 | one run of the loop body sets up the next one |
| RegLoop.Settle | LuaJIT-2.0.1/src/lj_asm.c:1084-1124 | the PHI shuffle terminates, and then each PHI register holds its own left operand or that operand has no register |
| RegLoop.OnCycle | LuaJIT-2.0.1/src/lj_asm.c:1089-1124 | when a pass changes nothing, every blocked PHI register is on a cycle of blocked registers |
| RegLoop.Break | LuaJIT-2.0.1/src/lj_asm.c:1050-1064 | breaking one cycle unblocks a register and spoils no other one |
| RegLoop.RestoreInvariants | LuaJIT-2.0.1/src/lj_asm.c:1126-1142 | registers of invariants that the loop modifies are restored |
| RegLoop.SaveAll | LuaJIT-2.0.1/src/lj_asm.c:1144-1157 | spilled left PHIs are stored from their registers |
| RegLoop.PhiSetup | LuaJIT-2.0.1/src/lj_asm.c:1241-1267 | a PHI gets a register, copied from the right operand if that has one already |
| RegAlloc.Assembler.AllocRef | LuaJIT-2.0.1/src/lj_asm.c:542-582 | the reference gets a register of the allowed set, evicting at most one other; the code still meets every demand |
| RegAlloc.Assembler.Evict | LuaJIT-2.0.1/src/lj_asm.c:400-419 | a weak register or one of least cost is freed |
| RegAlloc.Assembler.Restore | LuaJIT-2.0.1/src/lj_asm.c:367-385 | the register is free, and the code restores or rematerialises its value behind |
| RegAlloc.Assembler.Rematk | LuaJIT-2.0.1/src/lj_asm.c:289-329 | a constant is loaded again behind and its register is free |
| RegAlloc.Assembler.Spill | LuaJIT-2.0.1/src/lj_asm.c:332-352 | a new slot overlaps no slot of another reference; it fails if and only if the reference has none, the next even slot is beyond 255 and no odd one is left or two cells are needed, and then the slots of other references fill all cells from the first one on |
| RegAlloc.Assembler.Rename | LuaJIT-2.0.1/src/lj_asm.c:595-616 | the reference moves from one register to the other, with a move behind |
| RegAlloc.Assembler.Dest | LuaJIT-2.0.1/src/lj_asm.c:622-640 | the register of an instruction's result, stored to its slot if it has one |
| RegAlloc.Assembler.Save | LuaJIT-2.0.1/src/lj_asm.c:388-392 | a register is stored to the slot of its reference |
| RegAlloc.Assembler.Alloc1 | LuaJIT-2.0.1/src/lj_asm.c:585-592 | the register that a reference has, or a new one |
| RegAlloc.Assembler.EvictK | LuaJIT-2.0.1/src/lj_asm.c:464-489 | no register holds a constant any more |
| RegAlloc.Assembler.SnapAlloc | LuaJIT-2.0.1/src/lj_asm.c:804-875 | every reference that a snapshot needs has a register or a slot |
| RegAlloc.Assembler.Instruction | LuaJIT-2.0.1/src/lj_asm.c:622-720 | a two-operand instruction: result, operands, and the operation in front of it all |
| RegAlloc.Assembler.Body | LuaJIT-2.0.1/src/lj_asm.c:1797-1882 | the backward pass over all instructions keeps the demand on the state before in step with the code |
| RegAlloc.Assembler.OwnerOf | LuaJIT-2.0.1/src/lj_asm.c:400-419 | every register in use has a cost entry that names a reference whose register it is |
| RegState.SlotGiven | LuaJIT-2.0.1/src/lj_asm.c:332-352 | spill slots of distinct references never overlap, also with the new one |
| RegState.NoSlotLeft | LuaJIT-2.0.1/src/lj_asm.c:332-352 | slots are handed out without gaps: where none is left, each cell belongs to one reference, but for an odd one where two are needed |
| RegState.WantMet | LuaJIT-2.0.1/src/lj_asm.c:331-616 | what the allocator demands in a consistent state is met by some machine state, so that the statements about all such states are not empty |
| Matcher.MatchState.Match | LuaJIT-2.0.1/src/lib_string.c:368-451 | unless an error is raised, the result is the preferred way to match, with its captures, and for every pattern that is given by its parts the preferred match of these parts; a failed match restores captures and depth; a well-formed pattern raises only the complexity error, and that only if its parentheses and repetitions and the depth at the call come to 200 or more |
| PatternText.TextMeans | LuaJIT-2.0.1/src/lib_string.c:368-451 | the items scanned from the text of any list of parts that can be written match exactly what the parts match: characters, ranges, classes, complements, repetitions, captures, balanced strings, frontiers, back references and the end |
| PatternText.TextChosen | LuaJIT-2.0.1/src/lib_string.c:302-329 | the preferred match is the one in which each part in turn takes as much as possible, or as little as possible behind a minus sign, among all that let the rest match |
| PatternText.TextItems | LuaJIT-2.0.1/src/lib_string.c:205-224 | scanning the text of a pattern gives its parts back |
| PatternText.SetRead | LuaJIT-2.0.1/src/lib_string.c:211-267 | a set ends at its bracket, and has a character if and only if one of its elements has it, or none behind the complement sign |
| PatternText.ClassLaws | LuaJIT-2.0.1/src/lib_string.c:226-244 | the classes in terms of each other: complements by case, letters by case, alphanumeric, punctuation, control and printing characters |
| PatternText.ClassCharacters | LuaJIT-2.0.1/src/lib_string.c:226-244 | the characters of the small classes, one by one |
| Pattern.WaysDerive | LuaJIT-2.0.1/src/lib_string.c:368-451 | an end is among the ways of the matcher if and only if the declarative relation derives it |
| PatternChoice.WaysChosen | LuaJIT-2.0.1/src/lib_string.c:302-329 | the first of the matcher's ways is the preferred match, for any items |
| Pattern.BalancedIs | LuaJIT-2.0.1/src/lib_string.c:281-300 | the counting scan finds the end if and only if it is the first position at which all brackets are closed |
| Pattern.LongestWays | LuaJIT-2.0.1/src/lib_string.c:302-315 | max_expand tries exactly the stretches of the class |
| Pattern.ShortestWays | LuaJIT-2.0.1/src/lib_string.c:317-329 | min_expand tries exactly the stretches of the class |
| Matcher.MatchState.MaxExpand | LuaJIT-2.0.1/src/lib_string.c:302-315 | the preferred way with as many characters as possible |
| Matcher.MatchState.MinExpand | LuaJIT-2.0.1/src/lib_string.c:317-329 | the preferred way with as few characters as possible |
| Matcher.MatchState.StartCapture | LuaJIT-2.0.1/src/lib_string.c:331-343 | opens a capture, taken back if the rest does not match |
| Matcher.MatchState.EndCapture | LuaJIT-2.0.1/src/lib_string.c:345-354 | closes the last open capture, opened again if the rest does not match |
| Matcher.MatchState.MatchCapture | LuaJIT-2.0.1/src/lib_string.c:356-366 | the text of a finished capture is repeated at s |
| Matcher.MatchState.FindClassEnd | LuaJIT-2.0.1/src/lib_string.c:205-224 | the end of a class or set, or a malformed pattern |
| Matcher.MatchState.MatchBracketClass | LuaJIT-2.0.1/src/lib_string.c:246-267 | whether a character is in a set: for every list of elements that the text stands for, whether one of them, a character, a range or a class, has it, or none behind the complement sign |
| Matcher.MatchState.MatchBalance | LuaJIT-2.0.1/src/lib_string.c:281-300 | the end of a balanced string |
| Search.FindPattern | LuaJIT-2.0.1/src/lib_string.c:537-557 | the match that starts first, or at init for an anchored pattern |
| Search.FoundMeans | LuaJIT-2.0.1/src/lib_string.c:537-557 | for a pattern that is given by its parts, what is found is their preferred match, none of them starts before it, and where nothing is found there is none |
| Search.StrFindAux | LuaJIT-2.0.1/src/lib_string.c:477-559 | string.find and string.match: a plain search where that is asked for or the pattern looks plain, otherwise the matcher, from the position asked for, counted from either end and kept within the subject; captures are the texts found or positions, the whole match stands in where there are none, and an unfinished capture is an error |
| Search.CapturesWithin | LuaJIT-2.0.1/src/lib_string.c:368-451 | captures lie within the match |
| Search.MemFind | LuaJIT-2.0.1/src/lib_string.c:453-475 | the first occurrence, if there is one |
| Search.PlainExactly | LuaJIT-2.0.1/src/lib_string.c:527-534 | if strpbrk finds no special character in a pattern, plain search and matcher agree on all subjects if and only if the pattern has no closing parenthesis and no zero in it |
| Search.PlainFindsSame | LuaJIT-2.0.1/src/lib_string.c:527-557 | for such a pattern both branches of str_find_aux find the same place |
| Search.CloseDiffers | LuaJIT-2.0.1/src/lib_string.c:527-534 | for a lone closing parenthesis they differ |
| Search.Gsub | LuaJIT-2.0.1/src/lib_string.c:658-697 | the matches are replaced from left to right without overlaps and without passing one over, at most max of them; the rest of the subject is copied |
| Search.SplicedHas | LuaJIT-2.0.1/src/lib_string.c:658-697 | every replacement stands in the result right behind what the text before it became, followed by the text up to the next match |
| Search.KeptAll | LuaJIT-2.0.1/src/lib_string.c:658-697 | keeping every match gives back the subject |
| Quote.AddQuoted | LuaJIT-2.0.1/src/lib_string.c:711-737 | what is written is read back by the lexer as the original string, and has no control character in it but line breaks behind an escape |
| Quote.RoundTrip | LuaJIT-2.0.1/src/lib_string.c:711-737 | a written string is read back wherever it stands; no escape is extended by what follows |
| Quote.TensIsTenth | LuaJIT-2.0.1/src/lib_string.c:722-729 | (c*205)>>11 is c/10 below 100 |
| Sort.AuxSort | LuaJIT-2.0.1/src/lib_table.c:195-256 | the part is rearranged only within itself; for a strict weak order it ends up sorted without an error, and the recursion depth is at most the logarithm of its length |
| Sort.TableSort | LuaJIT-2.0.1/src/lib_table.c:258-267 | the whole table ends up a sorted permutation for a strict weak order |
| Sort.Partition | LuaJIT-2.0.1/src/lib_table.c:217-239 | the pivot ends up with nothing greater before and nothing less behind it |
| Sort.Median | LuaJIT-2.0.1/src/lib_table.c:199-216 | first, middle and last element are put in order |
| Sort.SortSmaller | LuaJIT-2.0.1/src/lib_table.c:240-255 | the smaller part is sorted, the larger one is left for the loop |
| Refs.Run | LuaJIT-2.0.1/src/lib_aux.c:258-289 | over any run of taking, reading and giving back references no reference is handed out twice and each leads to its value as long as it is held; what is held at the end is what the run says |
| Refs.RefTable.Ref | LuaJIT-2.0.1/src/lib_aux.c:258-278 | the reference was not live; a free one is used first, the table length only if none is free |
| Refs.RefTable.Unref | LuaJIT-2.0.1/src/lib_aux.c:280-289 | the reference is free again, the others keep their values |
| Refs.NoneFree | LuaJIT-2.0.1/src/lib_aux.c:268-276 | when no reference is free, slots 1 to n are all occupied and the border of the table is unique |
| Power.PowU64 | LuaJIT-2.0.1/src/lj_carith.c:314-331 | x to the k modulo 2^64 for all 64-bit x and k |
| Power.PowI64 | LuaJIT-2.0.1/src/lj_carith.c:334-349 | agrees with the unsigned power for k >= 0, and with the truncated reciprocal for k < 0 and x nonzero |
| Power.DivMod | LuaJIT-2.0.1/src/lj_carith.c:284-311 | signed division and remainder truncate towards zero and fit together |

## Findings

| what | source | shown by |
|---|---|---|
| A backward reference to a local label misses the definition before it when a forward reference to the label came in between: the forward one overwrites the table entry, and the backward one joins its chain and is bound to the next definition. It is bound to the latest earlier definition if and only if there was no such forward reference. | LuaJIT-2.0.1/dynasm/dasm_x86.h:210-243 | `DasmLabels.BackwardBindsLatest`, on actual actions `Dasm.BackwardJumpMisses` |
| string.find takes a pattern without any of `^$*+?.([%-` for plain text. A closing parenthesis is not among these, and the search for them stops at a zero character. The plain search agrees with the matcher if and only if the pattern has neither; for a closing parenthesis the matcher raises an error where the plain search succeeds. | LuaJIT-2.0.1/src/lib_string.c:527-534 | `Search.PlainExactly`, `Search.CloseDiffers` |

## Left out

- Alloc.Heap.AllocSys: direct-mapped chunks (direct_alloc and direct_resize) are not modelled, the system is taken to refuse them; the next steps of the program are then those of the code.
- Alloc.Run: lj_alloc_destroy and the system's memory calls are not modelled; the system answers with a fresh, aligned region of the size asked for, or fails.
- Dasm.Assembler.Put: DISP, VREG, MARK, SETLABEL and EXTERN actions are not modelled, nor are DASM_CHECKS and dasm_checkstep; action lists are well formed as dynasm.lua emits them.
- Dasm.Assemble: the section buffers grow as needed, up to the 24 bits of a position, where the model stops and the code goes on unchecked.
- Dasm.Assembler.Encode: a linked program is encoded once; the entries of globals that are not defined in it are provided by the caller. Label tables of locals, globals and PC labels are one map.
- DumpRead.Reader.Read: malformed dumps, byte swapping between endiannesses and FFI cdata constants are not modelled; on a well-formed dump no error is raised.
- DumpWrite.Writer.WriteBody: bytecode is a string of bytes; bytecode patched by the JIT compiler is not restored. The writer's single-number narrowing is not modelled.
- RegLoop.PhiSetup: a PHI without a register left for it gets a spill slot in asm_phi, which asm_phi_copyspill fills; the model gives up there, and says so in `NoPhiRegister`. Operands that are spilled already raise the error of the code.
- RegHead.HeadSide: the base register is always loaded again; its inheritance from the parent is not modelled. IR_RENAME instructions, snapshot exits, garbage-collection checks and constants kept in registers are not modelled.
- RegAlloc.Assembler.Instruction: every instruction computes its result from two operands; calls, guards, fused operands and fixed registers, and with them ra_evictset and ra_left, belong to the target assemblers, which are not part of this model.
- RegAlloc.Assembler.AllocRef: weak references are cleared only at the head of a side trace.
- Matcher.MatchState.Match: the character classes are those of the C locale, given as ranges; the table in lj_char.c is not part of this model. Subjects and patterns end with a zero, as the strings of the program do. In PatternText a range does not end in a bracket or an escape sign, which the scanners read in two ways.
- Search.Gsub: the replacement is any total function of the match; errors that a replacement raises, such as for an unfinished capture, are not modelled. string.gmatch and string.format are left out.
- Sort.AuxSort: the comparison is any pure function; metamethods and errors in it are not modelled. table.insert and table.remove would only add easy members.
- Refs.RefTable.ObjLen: any border of the table may be returned; tables with other keys and the string buffer functions of lib_aux.c are left out.
- Power.PowU64: multiplication is modulo 2^64; the operator dispatch around it (lj_carith_op) is left out.
