# Verification of the MIPS interpreters

The repository runs a MIPS R3000 program through several interpreters that share one set of
instruction bodies. This project models four of them, the paged guest memory and system calls below
them, the segment loader, the hash table the fast engine keeps its blocks in, and one guest sample,
and proves what each is for. `dafny verify dfyconfig.toml` checks it with Dafny 4.11.

The main result is `Engine.InterpreterBlocked`: the engine that decodes basic blocks, caches them,
chains them by branch outcome and runs each with a single fixed program counter ends, on any guest
that keeps to three conditions, exactly where the one-instruction-at-a-time switch engine ends, and
dies where that engine dies. The conditions (`Simulation.WellBehaved`) speak of the switch engine's run
alone: at the start of every block a branch lies ahead; a branch with another branch in its delay slot
leads where it leads when not taken, and writes no link; and as long as the guest lives the block does
not write over the code. The last two cannot be dropped: `Guests.SlotBranchDiffers` and
`Guests.OverwrittenDiffers` are guests that miss only that one, and the engines part on them. A block with
a single branch that meets the third meets the second (`Simulation.SimpleFalls`).

A guest that exits is the one case where the two engines differ although all conditions hold. They stop
after the same instructions, at the same point, if and only if the exit is in the delay slot of a branch
(`Halting.EnginesStopTogether`); otherwise the blocked engine goes on into the rest of the block, from the
switch engine's halted state (`Simulation.Refined`), as it does on `Guests.ExitInsideDiffers`.

The functions that define the machine are pinned from outside. Encoding.dfy builds every instruction word from
the numbers in its fields, and the lemmas on words (RegisterWords, BranchWords, MemoryWords, SystemWords) say what
the machine is after it by those numbers, bit by bit or byte by byte; no other word is defined
(`SystemWords.DefinedExactly`).

## Layout

| file | what it models |
|---|---|
| Words.dfy | u32 arithmetic with wrap-around, and the bitwise operators, defined bit by bit |
| Machines.dfy | the guest machine as a value: registers, flat byte memory, heap bounds, calls to the host |
| Instructions.dfy | the instruction bodies and system calls as functions, and the nested switch that decodes |
| Switch.dfy | the switch engine as a function, the pipeline of program counters, bodies that never read them |
| Memory.dfy | the two-level page tables as classes; their meaning is a flat byte map |
| Mips.dfy | `struct mips` as a class whose methods are the instruction bodies working in place |
| Threaded.dfy | switch, computed-goto and tail-call engines, and their dispatch tables |
| Blocks.dfy, Decode.dfy | what a basic block is, and `decode_block` with its growing array |
| Simulation.dfy, Halting.dfy | the simulation of blocks by single steps, over whole runs and at an exit |
| Guests.dfy | concrete guests on which the engines part, or do not, or mmap2 wraps |
| HashTable.dfy, HashSort.dfy | uthash: buckets, doubling, both linked lists, deletion, the merge sort |
| Blocked.dfy, BlockCache.dfy, Engine.dfy | the unrolled loop, the block cache with its links, the fast engine |
| Heap.dfy | page allocation as the guest sees it; brk and mmap2 over whole runs |
| Loader.dfy | segment loading and the initial program counters |
| Encoding.dfy | instruction words built from their fields |
| RegisterWords.dfy, BranchWords.dfy, MemoryWords.dfy, SystemWords.dfy | what each word does to the machine |
| Arithmetic.dfy | what the arithmetic, logic, shift, load and store bodies compute, said without their formulas |
| Unaligned.dfy | the masks of `lwl` and `lwr`, and the pair as an unaligned load |
| Crc32.dfy | the table-driven CRC-32 of the samples, one bit at a time, and the errors it detects |
| CrcDivision.dfy | the same as polynomial division, section 8 of RFC 1952 |

`None` (or a method's `ok == false`) stands for the death of the process: an unmapped access, an
undefined word, BRK, an unknown system call, a failed assertion. Every function of the machine that can
die says when.

## Model

| member | source | states |
|---|---|---|
| Engine.InterpreterBlocked | blocked.c:259-327 | From any straight machine and for any number of blocks, cache look-ups, decoding, linking and following links together give what running freshly decoded blocks one after the other gives; it dies if the switch engine dies; else all registers but NPC and NNPC, memory, branched, status, halted, host calls and the next PC are those of the switch engine after the same instructions, or of its halted state followed by the unexecuted rest of the halting block; a budget of as many blocks as the switch engine takes turns to its end reaches the end; the block cache is empty afterwards |
| Simulation.BlocksRefineSwitch | blocked.c:263-319 | The same refinement between the two engines as functions, death included, for every machine, code image and number of blocks |
| Simulation.BlockRefines | blocked.c:283-313 | One block: pre-set PC, all bodies, PC = NNPC agree with as many turns of the switch loop; or both die; or, when that loop halts after i turns, the block is its halted state followed by the words from i on, at least one of whose bodies is called |
| Simulation.SimulateBlock | blocked.c:299-313 | The same, by induction over the words, for a machine that stands at the branch of the block throughout |
| Simulation.PlainStep | blocked.c:283-310 | A word that is no branch has the same effect, death included, whatever the program counters hold, and leaves the branched flag alone |
| Simulation.BranchStep | blocked.c:283-313 | A branch run with PC at its own address never dies, links and jumps as in the switch engine, and NNPC receives the next PC, taken or not |
| Simulation.FallingStep | blocked.c:96-107 | A branch that leads to the word after its delay slot and writes no link never dies or halts and, wherever the program counter of the blocked engine is fixed, changes the same registers there |
| Simulation.SimulateBranches | blocked.c:96-107 | The branches that end a block, all but the last of that kind, and the delay slot of the last agree with as many turns of the switch loop, or both die |
| Simulation.SimpleFalls | blocked.c:88-107 | A block with a single branch, before its last word, that does not overwrite the code meets the condition on branches, whatever it computes |
| Switch.NotTakenFalls | instructions.h:395-419 | A branch that is not taken and writes no link leads to the word after its delay slot |
| Switch.StepStraight | mips.h:120-123 | After such a branch, as after any plain word, the counters are one instruction apart and PC is the next word |
| Switch.ExecBlind | instructions.h:286-582 | Every body other than a branch, system calls included, commutes with replacing PC, NPC and NNPC: it neither reads nor writes them |
| Switch.BranchBlind | instructions.h:294-420 | Every branch computes from PC and general registers alone, writes NNPC on both outcomes and no other program counter |
| Switch.BranchGoesToTarget | instructions.h:395-419 | The flag a direct branch leaves selects its static target: NNPC is the one that flag names |
| Switch.ExecKeepsBranched | instructions.h:286-393 | Only branches change the branched flag, so it still tells the outcome after the delay slot |
| Switch.SlotOrStraight | switch.c:28-104 | In every run started straight whose delay slots hold no branches, each state has its counters one instruction apart or is the delay slot of the branch just executed |
| Switch.CountersApart | mips.h:120-123 | In every run, even through branches in delay slots, NNPC stays four after NPC, modulo 2^32 |
| Switch.StepFromSlot | mips.h:120-123 | After a delay slot the next PC is the target or fall-through of the branch before it, and the counters are one instruction apart again |
| Switch.RunAppend | switch.c:28-104 | Running a + b turns is running a and then b, halting and dying included |
| Blocks.ScanShape | blocked.c:88-107 | A scan that completes consists of plain words, then branches, then exactly one plain word |
| Blocks.ScanAt | blocked.c:70-74 | Its i-th word is the word of memory at the start address + 4i, modulo 2^32 |
| Blocks.ScanWithin | blocked.c:109-257 | Decoding gives the same words from any memory that still holds the code image, so a cached block equals a fresh one |
| Blocks.ScanFinds | blocked.c:88-107 | Wherever plain words, branches and a closing plain word lie, the dispatch chain ends and finds exactly them |
| Simulation.DecodesExactly | blocked.c:109-257 | Decoding at an address comes to an end if and only if a block lies there, and that block is unique |
| Simulation.WordsAtScan | blocked.c:263-276 | The words of the block at an address do not depend on how far the scan was allowed to look |
| DecodeBlocks.Push | blocked.c:76-86 | Appends one op, after doubling the array exactly when it is full, and keeps all ops before it |
| DecodeBlocks.DecodeOps | blocked.c:162-241 | The dispatch chain terminates when a branch lies ahead and delivers the words of the scan with their handlers; the indirect flag is set exactly when one of them is jr or jalr |
| DecodeBlocks.DecodeBlock | blocked.c:109-257 | Fails exactly when the scan meets an unmapped or undefined word; otherwise the block has the address of PC, the ops of the scan closed by one null handler, size one more than the words, and no links |
| DecodeBlocks.NextWord | blocked.c:70-74 | The fetch and the table dispatch give the word at pc and the handler the nested switch would choose, or fail when there is none |
| Blocked.RunOps | blocked.c:291-310 | For every n > 0 the unrolled loop entered at case n % 8 calls the ops at positions 0, 1, 2 and so on, each once, up to n - 1 or the op that dies; it looks for the terminator only behind an op it has called, at every eighth position counted back from n, and ends at n |
| Blocked.RunLanes | blocked.c:300-308 | One pass through the cases calls that many consecutive ops in order |
| Blocked.CallBlock | blocked.c:283-313 | PC += 4*(size-3), the ops, PC = NNPC, on the class, is RunBlock on the machine |
| Blocked.BlockLeads | blocked.c:299-318 | The PC after a direct block is the static target of its branch for the outcome in the branched flag, whatever its delay slot did |
| BlockCache.Cache.Insert | blocked.c:270-276 | Adding a decoded block keeps every invariant of the cache and adds exactly its address to the map |
| BlockCache.Cache.Find | blocked.c:264-269 | Look-up by PC is look-up in a plain map from addresses to blocks |
| BlockCache.Cache.Link | blocked.c:278-281 | The link for that outcome becomes the cached block at its target and the other link stays; coherence and the soundness of every link are kept |
| BlockCache.Cache.FreeBlocks | blocked.c:321-326 | The final loop visits each cached block once, and the table is empty after it |
| BlockCache.IndirectBranch | blocked.c:102-107 | A block with one branch is marked indirect exactly when that branch is jr or jalr |
| Engine.FindOrDecode | blocked.c:264-276 | The block found or decoded is the cached block at PC; blocks cached before stay cached; the guest is not touched |
| Engine.DecodeNew | blocked.c:270-272 | Decoding from memory gives the block the code image holds at PC, with no links |
| Engine.NextBlock | blocked.c:264-281 | The block at PC is found or decoded; the previous block's link for its outcome leads to it, the other link is as before, and an indirect block keeps both; the cache stays coherent and its links sound |
| Engine.LinkLeads | blocked.c:315-318 | A non-null link[branched] is the block a look-up of the current PC would give |
| Engine.RunChain | blocked.c:283-318 | The inner loop keeps the two engines together along any chain of links, and stops only after a block that is indirect, has no link for its outcome or halts |
| Engine.TracksNext | blocked.c:283-319 | One more block takes both engines to the same point, or halts them both |
| Halting.EnginesStopTogether | blocked.c:299-319 | The blocked engine has called as many bodies as the switch engine has taken turns if and only if the guest still runs or its exit was in the delay slot of a branch; then both are at the same point; otherwise the blocked engine has called more |
| Halting.LeftoverExactly | blocked.c:299-319 | Words of the halting block are left over if and only if the exit was not in the delay slot of a branch |
| Halting.BodiesCounted | blocked.c:299-310 | The bodies the blocked engine calls are the turns of the switch engine and all words left over, or those up to the one that dies |
| Halting.BudgetSuffices | blocked.c:263-319 | If the switch engine is at its end after b turns, the blocked engine is at its end after b blocks |
| Halting.QuietLeftover | blocked.c:299-319 | When the leftover words touch neither memory nor the system, exit status, memory, heap bounds and host calls agree |
| Guests.ExitInsideDiffers | blocked.c:299-310 | A well-behaved guest that exits at the first word of a block of four ends with 4001 in v0 under the switch engine and with 5 under the blocked engine |
| Guests.SlotBranchDiffers | blocked.c:96-107 | A guest with a jump in the delay slot of a jump, which overwrites nothing: after the same number of instructions and at the same PC, v0 is 5 under the switch engine and 0 under the blocked engine |
| Guests.SlotBranchAgrees | blocked.c:96-107 | A loop with a jump in the delay slot of a branch never taken is well-behaved for any number of blocks |
| Guests.OverwrittenDiffers | blocked.c:270-276 | A guest with a single branch whose block stores over its own second word: the switch engine runs the new word, the blocked engine the old |
| Threaded.TablesAgree | computed-goto.c:23-63 | For all words the primary, secondary and branch tables name the body the nested switch runs, and miss the same words |
| Threaded.GotoIsRun | computed-goto.c:9-113 | After every number of instructions the computed-goto engine is in the switch engine's state, halting and dying included |
| Threaded.ChainIsRun | tail-call.c:95-135 | The tail-call engine equals the switch engine if and only if the word at the final PC is mapped and defined, because it fetches and dispatches that word before testing halted |
| Guests.ExitThenDies | tail-call.c:98-104 | After an exit before an unmapped or undefined word the switch engine has exited with its status and the tail-call engine is dead |
| Guests.LastWordExits | tail-call.c:98-104 | A guest whose only page ends in the exit: the switch engine exits, the tail-call engine dies |
| Threaded.InterpreterSwitch | switch.c:27-105 | The loop over `struct mips` and the page tables computes Run |
| Threaded.SwitchTurn | switch.c:28-104 | Fetch, nested switch, body and INCREMENT_PC compute Step, and fail when it does |
| Threaded.InterpreterGoto | computed-goto.c:21-113 | The loop over the class computes Goto |
| Threaded.InterpreterTailCall | tail-call.c:122-139 | Entry and handlers over the class compute Chain |
| Threaded.CallHandler | tail-call.c:96-105 | A handler tests halted, runs its body, moves the counters, and dispatches the next word |
| Cpu.Mips.Interpret | mips.h:5-118 | The body of every instruction, run in place on registers and page tables, is Exec on the machine; it fails exactly when Exec does |
| Cpu.Mips.InterpretBranch | instructions.h:294-419 | Branches in place are ExecBranch |
| Cpu.Mips.InterpretLoad | instructions.h:504-544 | Loads through the page tables are loads from the flat memory |
| Cpu.Mips.InterpretStore | instructions.h:547-582 | Stores through the page tables are stores to the flat memory |
| Cpu.Mips.InterpretSyscall | instructions.h:303-323 | The system call dispatch in place is Syscall on the machine |
| Cpu.Mips.SyscallExit | syscalls.h:8-14 | Sets the status and halts, and changes nothing else |
| Cpu.Mips.SyscallBrk | syscalls.h:230-243 | brk over the page tables is Brk on the machine |
| Cpu.Mips.SyscallMmap2 | syscalls.h:245-279 | mmap2 over the page tables is Mmap2 on the machine, failing when its stack arguments are unmapped or the range check fails |
| Cpu.Mips.SyscallSimple | syscalls.h:281-310 | munmap, mprotect, set_tid_address and set_thread_area set the registers and fields they set, no more |
| Cpu.Mips.IncrementPc | mips.h:120-123 | The three program counters shift and NNPC advances by four |
| Cpu.Mips.FetchWord | switch.c:31-32 | The word at PC, or failure when its page is not mapped |
| Memory.PagedMemory.FindPage | memory.h:49-55 | The page and offset of any address; null when the table or the entry is missing |
| Memory.PagedMemory.ReadU32 | memory.h:63-65 | Reads the little-endian word of the flat memory; fails exactly when the four bytes are not in one mapped page |
| Memory.PagedMemory.ReadU16 | memory.h:60-62 | The same for two bytes |
| Memory.PagedMemory.ReadU8 | memory.h:57-59 | The byte of the flat memory; fails exactly when it is not mapped |
| Memory.PagedMemory.WriteU32 | memory.h:72-74 | Changes exactly the four bytes, as a store to the flat memory |
| Memory.PagedMemory.WriteU16 | memory.h:69-71 | The same for two bytes |
| Memory.PagedMemory.WriteU8 | memory.h:66-68 | The same for one byte |
| Memory.PagedMemory.AllocatePages | memory.c:3-72 | The nested loops with head and tail clipping add the pages of Allocate to the flat memory; old pages keep their storage and contents, no two page numbers share storage, the heap bounds stay |
| Memory.PagedMemory.AllocateTables | memory.c:18-66 | The outer loop adds zeroed pages for exactly the missing page numbers from first to last |
| Memory.PagedMemory.AllocateEntries | memory.c:52-65 | The inner loop adds those of one table |
| Memory.PagedMemory.CopyWrite | memory.c:99-117 | Terminates; succeeds exactly when all bytes are mapped; then it is one flat copy, across any number of pages and around the end of the address space |
| Memory.PagedMemory.CopyRead | memory.c:74-97 | Terminates; succeeds exactly when all bytes are mapped; fills the buffer with the bytes at the address and nothing beyond, and leaves memory alone |
| Memory.PagedMemory.Set | memory.c:119-135 | Terminates; succeeds exactly when all bytes are mapped; then every byte of the range is the low byte of the value and no other byte changes |
| Memory.WriteThenRead | memory.c:74-117 | What a write copied, a read of the same range returns |
| Memory.CopyInElsewhere | memory.c:99-117 | A write changes its range and nothing else, and maps nothing |
| Memory.FlatSplice | memory.c:110 | A memcpy inside one page is a copy into the flat memory |
| Memory.PagedMemory.constructor | memory.c:137-143 | Nothing is mapped, brk is at 0 and mmap at 0x40000000 |
| Heap.AllocateMeets | memory.c:18-66 | For n > 0 and a + n <= 2^32: exactly the pages meeting [a, a + n) are added, old bytes stay, new bytes are zero |
| Heap.AllocateCovers | memory.c:18-19 | The range asked for ends up mapped, whatever was mapped before, if and only if it does not wrap |
| Heap.AllocateEmpty | memory.c:18-19 | An empty request adds nothing at a page boundary, one page elsewhere, and the whole address space at address 0 |
| Heap.StepBrk | syscalls.h:230-243 | brk never lowers the end, reports it, keeps every byte, and maps the bytes it claims |
| Heap.StepMmap2 | syscalls.h:245-279 | mmap2 returns the old end, clears and maps exactly the rounded length, keeps every other byte and ends at or below USER_TOP, for every length, modulo 2^32 |
| Heap.Mmap2Succeeds | syscalls.h:249-268 | For a range that ends at or below 2^32, mmap2 succeeds if and only if its two stack arguments can be read and the range ends at or below 0x80000000, or at 2^32 |
| Heap.Mmap2Lives | syscalls.h:249-268 | The same for the turn of an engine that makes the call |
| Heap.MmapEndGrows | syscalls.h:259-274 | The range check also lets through a range that wraps; the end of the region does not fall back if and only if nothing wraps |
| Guests.RegionFallsBack | syscalls.h:259-274 | A guest whose mmap2 call for 0xc0000000 bytes at 0x40000000 lives, and leaves the end of the region at 0 |
| Heap.RoundUpMeaning | syscalls.h:252-253 | The rounded length is the next multiple of the page size if and only if the sum does not wrap |
| Heap.StepKeeps | syscalls.h:230-279 | No other instruction or system call moves a heap end or maps or unmaps a byte |
| Heap.HeapRun | syscalls.h:230-279 | Over every run whose brk requests stay at or below 0x40000000 and whose mmap2 ranges do not wrap: the brk end never falls and its range stays mapped, nothing is ever unmapped, and the ranges mmap2 returned tile the region up to its end |
| Heap.ClaimsApart | syscalls.h:255-274 | Those ranges increase, do not overlap, are page-aligned and are still mapped |
| Loader.LoadSegments | loader.c:150-211 | For every list of headers: succeeds exactly when each one can be loaded after those before it; memory is then what loading them in order gives, and both heap bounds are raised to the greatest end |
| Loader.LoadsExactly | loader.c:152-205 | Segments that do not wrap are all loaded if and only if the file holds their bytes and filesz is at most memsz |
| Loader.LoadSegment | loader.c:152-202 | One header: skipped unless PT_LOAD; else the heap raised, pages allocated, bytes copied, the rest cleared; a wrapping segment fails unless its bytes are mapped already |
| Loader.CopySegment | loader.c:177-196 | Fails when fread falls short or would overrun the buffer, or bytes are unmapped; else the whole buffer reaches memory, arbitrary tail included |
| Loader.ClearedTail | loader.c:198-202 | Clearing the tail leaves zeros whatever malloc had left there |
| Loader.SegmentsHold | loader.c:152-205 | After the loop each of the disjoint segments holds its bytes of the file and zeros up to its memory size, even where segments share pages |
| Loader.SegmentBytes | loader.c:165-202 | After the loop byte k of a segment is byte p_offset + k of the file, or zero from p_filesz on |
| Loader.SegmentsOnly | loader.c:152-205 | Bytes outside the segments keep their value; the pages of the segments are added with zeros there, and headers of other types leave no trace |
| Loader.InFileExactly | loader.c:165-192 | A segment with bytes in the file can be read exactly when p_filesz is at most p_memsz and the file reaches p_offset + p_filesz |
| Loader.TopIsGreatest | loader.c:160-163 | The heap start is the greatest segment end, or where it was if that is higher |
| Loader.LoadPc | loader.c:213-219 | The machine starts at the entry point with its pipeline straight, as the engines require |
| Encoding.SignedIs | instructions.h:402-405 | The signed value of a u32 is the number in the range of s32 that is congruent to it |
| RegisterWords.AddWords | instructions.h:368-377 | For all fields and machines, the words of add and addu leave in rd the sum of rs and rt, add none when it is no u32, and nothing else changes |
| RegisterWords.SubWords | instructions.h:378-387 | sub and subu leave rs minus rt modulo 2^32; sub leaves the machine alone below -2^31 |
| RegisterWords.CompareWords | instructions.h:388-389 | slt and sltu leave 1 in rd exactly when rs is below rt, signed and unsigned |
| RegisterWords.LogicWords | instructions.h:390-393 | Each bit of rd is that of rs and rt combined, for and, or, xor and nor |
| RegisterWords.LeftWords | instructions.h:286-290 | sll and sllv move the bits of rt up by the shift field, or by the low five bits of rs |
| RegisterWords.RightWords | instructions.h:287-291 | srl and srlv move the bits of rt down |
| RegisterWords.SignedRightWords | instructions.h:288-292 | sra and srav divide the signed rt by the power of two, rounding down |
| RegisterWords.MultiplyWords | instructions.h:335-346 | mult and multu leave the two halves of the product of rs and rt in registers 32 and 33 |
| RegisterWords.DivideWords | instructions.h:347-366 | div and divu leave the unsigned quotient and remainder of rs by rt there, and what they leave for a zero divisor and the overflow input |
| RegisterWords.MoveWords | instructions.h:329-333 | mfhi, mflo, mthi and mtlo move between those registers and rd or rs |
| RegisterWords.AddImmediates | instructions.h:421-430 | addi and addiu add the field as a signed 16-bit number; addi changes nothing past 2^32 |
| RegisterWords.CompareImmediates | instructions.h:431-432 | slti compares with that number, sltiu with it as a u32 |
| RegisterWords.LogicImmediates | instructions.h:433-435 | andi, ori and xori combine the bits of rs with those of the field, zeros above it |
| RegisterWords.UpperImmediate | instructions.h:437 | lui leaves the field in the upper half of rt and zeros below |
| RegisterWords.HardwareWord | instructions.h:557-574 | rdhwr reads 1 for register 3, the thread pointer for 29 and 0 for the others |
| BranchWords.ConditionalWord | instructions.h:395-419 | For each of the eight conditional branches: outcome, link and next address, which is that of the slot plus four times the signed field when the condition on rs and rt holds, else that of the word after the slot |
| BranchWords.ConditionalGoes | switch.c:28-104 | Two turns of the switch engine at such a word run the slot and then stand there, counters straight |
| BranchWords.JumpWords | instructions.h:409-416 | j and jal go to four times their field in the region of the PC; jal leaves PC + 8 in register 31 |
| BranchWords.RegisterJumps | instructions.h:294-301 | jr and jalr go to what rs held; jalr leaves PC + 8 in rd |
| BranchWords.BranchesExactly | blocked.c:175-189 | A word ends the plain part of a block exactly when its codes are those of the twelve branches and jumps |
| BranchWords.IndirectExactly | blocked.c:175-177 | Exactly the words of jr and jalr are indirect |
| MemoryWords.ByteLoads | instructions.h:504-523 | lb and lbu leave the byte at rs plus the signed field, with and without its sign, and die exactly when it is not mapped |
| MemoryWords.HalfLoads | instructions.h:509-528 | lh and lhu leave two bytes, lowest first, and die exactly when they are not in one mapped page |
| MemoryWords.WordLoads | instructions.h:514-518 | lw and ll leave four bytes, lowest first |
| MemoryWords.MergeLoads | instructions.h:529-544 | lwr replaces the low bytes of rt by the bytes up to the end of the aligned word, lwl the high ones by those from its start; the other bytes of rt stay |
| MemoryWords.StoreWords | instructions.h:547-555 | sb, sh and sw change exactly one, two or four bytes to those of rt, lowest first; swl and swr store as sw |
| MemoryWords.ConditionalStore | instructions.h:580-582 | sc stores as sw and leaves 1 in rt |
| MemoryWords.TurnReads | switch.c:28-104 | A turn fetches the four bytes at PC, executes them and moves the program counters on |
| SystemWords.ExitCalls | syscalls.h:8-14 | exit and exit_group halt with the status in register 4 and change nothing else |
| SystemWords.PlainCalls | syscalls.h:281-310 | The registers and fields that munmap, mprotect, set_tid_address and set_thread_area set |
| SystemWords.BrkCall | syscalls.h:230-243 | The whole machine after brk |
| SystemWords.Mmap2Call | syscalls.h:245-279 | The whole machine after an mmap2 that succeeds |
| SystemWords.HostCalls | instructions.h:304-320 | What the host is told for its eight calls, and that its answer alone changes v0, a3 and one buffer |
| SystemWords.UnknownCalls | instructions.h:321-322 | Any other call number ends the process |
| SystemWords.BreakWords | instructions.h:324-327 | break ends the process and the special word does nothing |
| SystemWords.DefinedExactly | switch.c:33-104 | The nested switch knows exactly the listed operation and function codes |
| Arithmetic.LogicBodies | instructions.h:390-393 | and, or, xor and nor compute each bit of the result from the two bits at its place |
| Arithmetic.ShiftLeftAt | instructions.h:286-290 | sll moves every bit up by the shift and brings in zeros |
| Arithmetic.ShiftRightAt | instructions.h:286-290 | srl moves every bit down by the shift and brings in zeros |
| Arithmetic.ShiftArithmetic | instructions.h:286-292 | sra divides the signed value by the power of two, rounding down |
| Arithmetic.AddMeaning | instructions.h:377-389 | addu is signed addition if and only if the sum is a signed 32-bit value, and subu undoes it always |
| Arithmetic.MultMeaning | instructions.h:335-340 | After mult, HI and LO together are the signed 64-bit product |
| Arithmetic.MultuMeaning | instructions.h:341-346 | After multu, HI and LO together are the unsigned 64-bit product |
| Arithmetic.DivMeaning | instructions.h:347-366 | LO is the unsigned quotient and HI the remainder, for div too except on its overflow input; a zero divisor leaves the dividend in HI and all ones in LO, or 1 for div of a dividend that is not positive |
| Arithmetic.DivIsSigned | instructions.h:347-358 | div leaves the signed quotient and remainder if and only if neither operand is negative, or they are equal, or the divisor is 1, or a negative divisor is larger in size, or the input is the one that overflows |
| Arithmetic.BranchPairs | instructions.h:402-419 | The conditional branches come in complementary pairs |
| Arithmetic.StoreWord | instructions.h:514-551 | A stored word is read back whole, lies lowest byte first and touches no other byte |
| Arithmetic.StoreHalf | instructions.h:509-550 | A stored half is read back sign- or zero-extended and touches no other byte |
| Arithmetic.StoreByte | instructions.h:504-549 | A stored byte is read back sign- or zero-extended and touches no other byte |
| Unaligned.UnalignedPair | instructions.h:529-544 | lwr rt, i(rs) and lwl rt, i + 3(rs), with rt other than rs, in either order, leave in rt the little-endian word at the four bytes from rs + i, for every alignment and old rt, and change nothing else |
| Unaligned.RightMerged | instructions.h:529-536 | The mask and shift of lwr replace the low 4 - k bytes of rt by the upper bytes of the word |
| Unaligned.LeftMerged | instructions.h:537-544 | The mask and shift of lwl replace the high k + 1 bytes of rt by the lower bytes of the word |
| Unaligned.FlatWholePages | memory.h:49-55 | Page tables map whole pages, so the aligned words around a mapped byte can be read |
| Unaligned.JumpTargetParts | instructions.h:409-416 | The jump target is the top four bits of PC above the 28 bits of the field |
| HashTable.Table.Add | uthash.h:396-428 | Adding a fresh key appends its handle to the insertion order and keeps the whole invariant; 32 buckets for the first item, twice as many when its bucket is full, and the same otherwise |
| HashTable.Table.Find | uthash.h:153-171 | Returns the item with that key if and only if there is one |
| HashTable.Table.FindInBucket | uthash.h:745-764 | The chain walk ends, at the item or at null when the chain holds no such key and hash |
| HashTable.Table.Delete | uthash.h:447-477 | Removes exactly that handle from the insertion order and keeps the whole invariant; the last item takes the table with it |
| HashTable.Table.DelInBucket | uthash.h:789-802 | Unlinks one handle from its chain and keeps head, count and both links of every chain |
| HashTable.Table.AddToBucket | uthash.h:767-786 | Links the handle at the head of its chain, and doubles the buckets exactly when that chain reaches ten items for each multiple and one more and doubling is not off |
| HashTable.Table.ExpandBuckets | uthash.h:833-883 | Twice as many buckets, a power of two, hold the same handles, each in the chain its hash names, with consistent links and counts; the ideal length, the multiple of each bucket, the items beyond the ideal, the ineffective doublings in a row and when doubling goes off |
| HashTable.MultIs | uthash.h:843-863 | A bucket gets no multiple up to the ideal length, and beyond it the length lies within one multiple of its own |
| HashTable.Redistribute | uthash.h:850-870 | The two loops move every handle to its new chain once |
| HashTable.Table.AppendOrder | uthash.h:278-284 | The insertion-order links, head, tail and count after one more handle |
| HashTable.Table.UnlinkOrder | uthash.h:461-474 | The insertion-order links, head, tail and count after one handle less |
| HashTable.Table.DeleteAll | uthash.h:1056-1063 | Deleting while iterating visits every handle once, in insertion order, and leaves the table empty |
| HashTable.MapOfFind | uthash.h:153-171 | The handles with unique keys are a map: a key is in it exactly when a handle has it, with that handle's element |
| HashTable.MapOfAdd | uthash.h:396-415 | Appending a handle is one map update |
| HashTable.MapOfDelete | uthash.h:450-476 | Deleting a handle removes its key from the map and nothing else |
| HashTable.CountsAreItems | uthash.h:767-770 | In every valid table that holds something the count fields of the buckets sum to num_items |
| HashTable.BucketIndex | uthash.h:430-433 | hashv & (num_bkts - 1), as every operation computes it, is the remainder modulo the power of two |
| HashSort.Sort | uthash.h:890-972 | Terminates and leaves the list MergeSort gives, with next, prev, head and tail to match, the buckets untouched and the map the same |
| HashSort.SortCorrect | uthash.h:890-972 | For every total preorder and every list MergeSort gives a permutation that is sorted and stable |
| HashSort.SortStable | uthash.h:930-945 | Elements that compare equal keep their order |
| HashSort.MergePass | uthash.h:900-962 | One pass merges neighbouring runs in place, ends the list, and counts at most one merge exactly when the list is covered |
| HashSort.MergeRuns | uthash.h:916-957 | The merge loop appends the merge of the two runs to the list built so far, with both links right |
| HashSort.CutRun | uthash.h:906-915 | Steps over at most insize elements and reports how many |
| Crc32.Checksum.Compute | samples/crc.c:18-24 | For every message the table-driven loop equals the division by the polynomial one bit at a time |
| Crc32.Checksum.Init | samples/crc.c:8-16 | Entry i of the table is eight bit steps of i |
| CrcDivision.CrcIsRemainder | samples/crc.c:8-24 | For every message the bits of the CRC are the complemented remainder of a long division, highest power first, by the polynomial given by its exponents |
| CrcDivision.CrcIsOnly | samples/crc.c:8-24 | No other 32-bit number has those bits |
| Crc32.TableStep | samples/crc.c:21 | One table look-up equals feeding eight bits |
| Crc32.StepXor | samples/crc.c:12 | The bit step is linear over exclusive or |
| Crc32.StepsInjective | samples/crc.c:12 | The bit step is a bijection: two register values never merge |
| Crc32.BurstDetected | samples/crc.c:18-24 | Two messages of equal length that differ within four consecutive bytes and nowhere else never share a CRC |
| Crc32.Residue | samples/crc.c:18-24 | A message followed by its CRC, lowest byte first, has the same CRC whatever the message |

## Surprises in the code

- The handlers of the tail-call engine fetch and dispatch the word after the exit before they test `halted`
  (tail-call.c:98-104), so a program dies there instead of exiting when that word is not mapped or not defined;
  `Threaded.ChainIsRun` says exactly when the engines agree, and `Guests.LastWordExits` is a guest on which they do not.
- `memory_allocate` of zero bytes at address 0 computes 0xffffffff as its last address and maps everything
  (memory.c:19); `Heap.AllocateEmpty` states it.
- The unrolled loop of the blocked engine never looks at `halted` (blocked.c:299-310), so the words after an
  exit in the middle of a block still run; `Halting.EnginesStopTogether` says exactly when that happens.
- `mips_syscall_mmap2` checks its range modulo 2^32 (syscalls.h:260); `Heap.MmapEndGrows` says
  when the region falls back, and `Guests.RegionFallsBack` is a call after which it has.
- `div` divides unsigned (instructions.h:355-356); `Arithmetic.DivIsSigned` says for which operands that is the signed result.
- The comment above `memory_allocate` divides addresses by the page size a second time; the code does not, and
  the model follows the code (memory.c:12-15).

## Left out

- Engine.InterpreterBlocked: takes a bound on the number of blocks, and the other engines a bound on the number of turns, because a guest may never exit; the results hold for every bound.
- Simulation.BlocksRefineSwitch: leaves out guests that execute a branch in the delay slot of one that leads elsewhere or writes a link, and guests that write over the code they run; on some of them the engines agree, on `Guests.SlotBranchDiffers` and `Guests.OverwrittenDiffers` they do not.
- Memory.PagedMemory.ReadU32: a u16 or u32 access that crosses a page runs past the host page in the original; it counts as the death of the process.
- Cpu.Mips.InterpretSyscall: read, write, open, close, lseek, ioctl, writev and clock_gettime64 are one host function of all calls so far, with the registers and memory it may read; it answers with v0, a3 and at most one buffer.
- HashTable.Table.Add: the handle is allocated here instead of inside the element, and the hash is any function of the key, not HASH_JEN.
- HashSort.Sort: the comparison is any function of two elements; it does not read the heap.
- Loader.LoadSegments: a file size above the memory size overruns the buffer in the original; it counts as a failed load.
- Instruction bodies that differ from the MIPS manual are modelled as written: add, addi and sub test an unsigned range, register 0 can be written, swl and swr store whole words; of these only div is compared with the manual (`Arithmetic.DivIsSigned`).
- The LOAD_DELAY variants, disassembly and profiling: off in the default build.
- HashTable.Table.ExpandBuckets: the number of buckets is unbounded here; in the original it is an unsigned int.
- Out of memory: malloc and calloc succeed; HASH_NONFATAL_OOM, the Bloom filter and HASH_SELECT are not modelled.
- Reading and checking ELF headers, the symbol search, the stack and auxiliary vector, `memory_delete`: input and output, or one fixed layout.
- The exit code of the programs' `main` and the other samples.
