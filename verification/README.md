# or1ksim verification

Dafny models of six stateful parts of the OpenRISC 1000 simulator and proofs of what they
are for:

- **Custom Unit Compiler** (`or1ksim/cuc`): lowering of decoded OpenRISC code, basic-block
  detection, weak-order memory scheduling, dead-code and NOP removal, conditional-move
  simplification.  Instructions get a small semantics; each pass preserves it.
- **Data and instruction caches** (`or1ksim/cache`): set-associative lines and saturating LRU
  counters over a byte memory, which they never contradict.
- **JTAG debug protocol** (`or1ksim/debug`): CRC-protected, bit-packed packets that drive a
  small state machine, proved from the bytes of the register up to whole sessions.
- **Option scanner** (`or1ksim/argtable2`): the in-place permutation of `argv` over many calls.
- **Profiler**: exclusive times from a flat event stream, against a call-tree definition.
- **Memory profiler**: a chained hash table, filled and dumped over a wrapping address range.

| files | what they hold |
|---|---|
| `Words.dfy`, `ByteMemory.dfy`, `BigEndianMemory.dfy`, `Bits.dfy`, `BitStrings.dfy` | words, byte memory, masks, bit reversal |
| `CucInsn.dfy`, `RefGraph.dfy` | instructions, operands, the reference graph and its values |
| `Load.dfy`, `DelaySlots.dfy`, `LoweredFlags.dfy`, `Loader.dfy` | the lowering passes: meaning, simulation, flags, in-place array |
| `BlockGraph.dfy`, `BasicBlocks.dfy` | block cutting, artificial blocks, `detect_bb` |
| `MemorySchedule.dfy` | conflicts, dependency lists, the reordering of `msched` |
| `Compaction.dfy`, `DeadCode.dfy`, `Cmov.dfy` | NOP and dead-code removal, `optimize_cmovs` |
| `LineRefill.dfy`, `Recency.dfy`, `DCache.dfy`, `DCacheRecency.dfy`, `ICache.dfy` | the caches, and what their counters record |
| `Crc.dfy`, `JtagRegister.dfy`, `JtagProtocol.dfy`, `JtagSafety.dfy`, `JtagStreaming.dfy`, `JtagControl.dfy`, `JtagPort.dfy` | CRC, responses, protocol, its runs, its sessions, single shifts by their bits, the in-place handlers |
| `OptionSyntax.dfy`, `Getopt.dfy`, `OptionMeaning.dfy` | option decoding, the scanner, what options mean |
| `CallTrees.dfy`, `CallTraces.dfy`, `Profiler.dfy` | the meaning of an event stream, the profiler |
| `AccessCounts.dfy`, `MProfiler.dfy` | tallies of records, the memory profiler |

Objects the simulator updates in place are classes whose methods are proved against functions
on values; the theorems are lemmas about those functions.  `dafny verify dfyconfig.toml` checks
everything.

## Model

| member | source | states |
|---|---|---|
| MemorySchedule.CucFunc.ScheduleWeak | or1ksim/cuc/memory.c:352-399 | after one weak-order round `msched` is a permutation of program order that keeps every recorded dependency and, when `SoundBases` holds, runs every block to the same memory and the same value of every load, for all registers, bases and initial memories; the order is the one of the next row |
| MemorySchedule.CucFunc.ScheduleMemory | or1ksim/cuc/memory.c:352-399 | the same for any dependency lists; each entry, when it was chosen, had no access of its block free to go that was lower over the same base, and it left program order only to go before a higher one; without reordering the schedule is program order |
| MemorySchedule.CucFunc.FindBest | or1ksim/cuc/memory.c:376-388 | the access chosen may be hoisted, and no eligible access of its block has a lower address over the same base |
| MemorySchedule.CucFunc.Hoist | or1ksim/cuc/memory.c:394-396 | the shifting loop moves one entry forward and keeps the order of all others |
| MemorySchedule.CucFunc.AddMemoryDep | or1ksim/cuc/memory.c:100-120 | each access gains exactly the earlier accesses that conflict with it, and no other list changes |
| MemorySchedule.CucFunc.AddDataDep | or1ksim/cuc/insn.c:203-228 | each list keeps what it held and gains exactly the reference operands of its instruction and what is listed for them: after the pass for operands that come earlier, before the pass for the others |
| MemorySchedule.PassesCover | or1ksim/cuc/insn.c:203-228 | the two passes together list every conflict and everything an access is computed from |
| MemorySchedule.HoistRuns | or1ksim/cuc/memory.c:376-398 | one round of the reordering loop changes no final memory and no loaded value |
| MemorySchedule.OverlapExact | or1ksim/cuc/memory.c:86-89 | for every base value, two accesses share a byte exactly when the overlap test says so or one range wraps onto the other's start |
| MemorySchedule.TrustedExact | or1ksim/cuc/memory.c:65-96 | over a base that is the same on both sides, or bumped by a constant, accesses the weak test keeps apart never share a byte if and only if the guard on the offsets holds |
| MemorySchedule.UnsteadyMeets | or1ksim/cuc/memory.c:82-89 | over any other fed-back base not computed from its own earlier value, some values make accesses the weak test keeps apart share a byte |
| MemorySchedule.SoundBasesExact | or1ksim/cuc/memory.c:65-96 | on such functions `SoundBases` holds if and only if no two accesses the weak test keeps apart can share a byte |
| MemorySchedule.NegativeOffsetsMissed | or1ksim/cuc/memory.c:86-89 | `sh -2(rA)` and `lw -4(rA)` overlap for every base and are not seen as a conflict |
| MemorySchedule.FeedbackUnrecorded | or1ksim/cuc/memory.c:82-89 | from empty lists, the two passes leave neither the store nor the load over a fed-back base in the other's list |
| MemorySchedule.FeedbackBaseMissed | or1ksim/cuc/memory.c:82-89 | yet exchanging them changes what the load returns |
| BlockDetection.Detector.DetectBB | or1ksim/cuc/bb.c:180-360 | fails exactly on jumps out of the function; otherwise leaves the blocks of the partition with their artificial blocks, relinked edges, rewritten jumps, and `prev[0]`, `prev[1]` as all the predecessors of every block; said without these functions in the next row |
| BlockDetection.DetectedFlow | or1ksim/cuc/bb.c:248-345 | each instruction is in one block, branches end blocks; next[0] of a block that ends in a branch leads through artificial blocks only to the block that the target starts, next[1] to the one behind the branch or, if it is unconditional, nowhere; any other block goes on; jumps name the target's block; `prev` names exactly the blocks that lead there |
| BlockDetection.EdgesSurvive | or1ksim/cuc/bb.c:285-326 | every original edge becomes a path through artificial blocks only; a fall-through edge is dropped exactly after an unconditional jump |
| BlockGraph.AtMostTwo | or1ksim/cuc/bb.c:264-310 | after insertion every block has as many predecessors as before, but never more than two, so the assertions on `prev[1]` hold |
| BlockGraph.CutPartitions | or1ksim/cuc/bb.c:213-235 | the blocks partition the instructions in order |
| BlockGraph.TargetFound | or1ksim/cuc/bb.c:243-246 | every branch target starts a block, so the search for it succeeds |
| BlockDetection.MarksComplete | or1ksim/cuc/bb.c:184-218 | marks are set exactly at branch ends, before and at branch targets, after branches and at the two ends |
| BlockDetection.Detector.InsertBlocks | or1ksim/cuc/bb.c:264-283 | relocation from the top puts each block behind its own artificial blocks and records its new place |
| DelaySlots.LoweringCorrect | or1ksim/cuc/load.c:104-140 | every run of the original delay-slot program of any length is simulated by the lowered program: same registers and memory at corresponding places, ending together, even when the slot overwrites the flag |
| DelaySlots.DelaySimRun | or1ksim/cuc/load.c:233-268 | the same for branch expansion and slot removal alone |
| Lowering.SimRun | or1ksim/cuc/load.c:271-370 | splitting memory operations, and rewriting signed compares over operands offset by 0x80000000, each simulate every run, started at `reloc[pc]` |
| LoweredFlags.FlagsKept | or1ksim/cuc/load.c:233-370 | each loaded instruction is found in the lowered code with all its flags, except that a compare is no longer signed |
| LoweredFlags.AddressMarked | or1ksim/cuc/load.c:271-318 | the address of each access is computed by an ADD that carries the address flag and nothing else |
| LoweredFlags.NothingElseMarked | or1ksim/cuc/load.c:233-370 | no other instruction of the lowered code carries a flag but that of a saved condition |
| CodeLoader.Loader.Lower | or1ksim/cuc/load.c:511-525 | the in-place passes leave exactly the lowered program in the array |
| CodeLoader.Loader.Expand | or1ksim/cuc/load.c:233-370 | one backwards in-place expansion leaves the groups relocated and `reloc` filled with every instruction's new place |
| CodeLoader.Loader.RemoveDslots | or1ksim/cuc/load.c:104-140 | exchanges each branch with its slot; its assertions cannot fail on expanded code |
| DCache.CacheIsTransparent | or1ksim/cache/dcache-model.c:83-357 | from any coherent cache, every sequence of aligned reads, writes and invalidations returns what flat big-endian memory would |
| DCache.DataCache.constructor | or1ksim/cache/dcache-model.c:46-54 | an invalidated cache over any memory is coherent: each valid line equals memory and no tag occurs twice in a set |
| DCache.DataCache.Read | or1ksim/cache/dcache-model.c:83-208 | the in-place read keeps coherence and returns the bytes of memory |
| DCache.DataCache.Update | or1ksim/cache/dcache-model.c:221-316 | the in-place write keeps coherence and writes exactly the accessed bytes to memory |
| DCache.DataCache.Invalidate | or1ksim/cache/dcache-model.c:323-357 | drops the one line with the tag and keeps all else |
| DCache.DataCache.LoadLine | or1ksim/cache/dcache-model.c:159-179 | the refill that starts mid-line and wraps loads the whole block |
| DCache.ReachableRanked | or1ksim/cache/dcache-model.c:108-208 | in every reachable state counters are below `ustates`, nonzero ones are distinct, and a larger one means a later access; without invalidations the line accessed last holds the top counter |
| DCache.NoEvictionOfLastAccessed | or1ksim/cache/dcache-model.c:145-185 | such a line is evicted by no miss of either kind |
| CacheRecency.LeastRecentlyUsed | or1ksim/cache/dcache-model.c:108-208 | after any run of reads and of writes that hit, from an invalidated cache with a counter state for every way, the next read miss replaces an invalid line if there is one and else the one whose last use is the earliest |
| CacheRecency.TooFewStates | or1ksim/cache/dcache-model.c:145-185 | with fewer states than ways it replaces the oldest line after as many reads as there are states, although lines are empty |
| DCache.ReadVictimExact | or1ksim/cache/dcache-model.c:145-157 | a read miss evicts the line accessed last if and only if it is in way 0 and every counter is zero |
| DCache.WriteVictimExact | or1ksim/cache/dcache-model.c:280-287 | a write miss evicts it if and only if it is in the last way with a counter below the top state |
| DCache.ReadExposed | or1ksim/cache/dcache-model.c:145-157 | a run from an invalidated cache after which a read miss evicts the only valid line |
| DCache.WriteExposed | or1ksim/cache/dcache-model.c:280-287 | the same for a write miss |
| ICache.InsnCache.Run | or1ksim/cache/icache-model.c:87-226 | every fetch of a run returns the current memory word, provided each block stored to is invalidated before its next fetch; without invalidations the counters keep recording recency |
| ICache.InsnCache.Fetch | or1ksim/cache/icache-model.c:87-184 | a fetch of a block that is not stale returns memory and keeps every slot coherent; a hit changes no tag, a miss replaces one line of the set, an empty one or else the least recently used, if there is a state for every way |
| ICache.InsnCache.Reload | or1ksim/cache/icache-model.c:153-175 | the wrapping refill loop loads the whole block and touches no other line |
| ICache.InsnCache.SelectVictim | or1ksim/cache/icache-model.c:133-145 | the victim is the first of the least recently used slots of the set below the top state |
| ICache.InsnCache.Invalidate | or1ksim/cache/icache-model.c:191-226 | drops exactly the lines of the block and makes it fetchable again |
| ICache.MasksAreDivMod | or1ksim/cache/icache-model.c:502-508 | the masks select what division and remainder by the geometry select |
| ICache.AddressRebuilt | or1ksim/cache/icache-model.c:502-508 | tag, set and offset rebuild the address |
| ArgumentPermutation.Getopt.Run | or1ksim/argtable2/getopt.c:504-579 | over a whole run in PERMUTE mode, for every option string and option table, `argv` stays a permutation and the options reported are those of the original vector; at the end it holds the options with their arguments, then `optind`, then all non-options and what follows `--`, each in original order.  A long option of value -1 ends the run there, with everything before it reported; after an overrun `optind` is one past the end and everything is reported |
| ArgumentPermutation.Getopt.Next | or1ksim/argtable2/getopt.c:474-579 | one call does to `argv`, `optind` and the two segments what the value model says; in the modes that do not permute it stops at a non-option or reports it with code 1, and leaves `argv` alone |
| ArgumentPermutation.CallCorrect | or1ksim/argtable2/getopt.c:504-579 | every call of a run either ends it with the vector fully permuted, or reports the next option and makes progress, or reports the last one and overruns the vector |
| ArgumentPermutation.Getopt.Exchange | or1ksim/argtable2/getopt.c:299-353 | exchanges the two adjacent segments, keeping the order inside each |
| ArgumentPermutation.Rotate | or1ksim/argtable2/getopt.c:309-347 | the in-place swapping of the shorter segment rotates the range |
| OptionMeaning.FlagMeans | or1ksim/argtable2/getopt.c:732-740 | a letter without a colon behind it is reported without argument, and the rest of the element is next |
| OptionMeaning.JoinedMeans | or1ksim/argtable2/getopt.c:879-904 | with a colon behind it and text left in the element, that text is the argument |
| OptionMeaning.NextMeans | or1ksim/argtable2/getopt.c:896-922 | with one colon and nothing left, the next element is the argument and is taken; at the end `:` or `?` is returned |
| OptionMeaning.OptionalMeans | or1ksim/argtable2/getopt.c:881-893 | with two colons and nothing left there is no argument and the next element is not touched |
| OptionMeaning.UnknownMeans | or1ksim/argtable2/getopt.c:740-755 | a letter that is not declared gives `?` |
| OptionMeaning.LookupExact | or1ksim/argtable2/getopt.c:608-635 | the long option found is the first that is spelled out, or else the only one abbreviated; none if and only if none is |
| OptionMeaning.EqualsMeans | or1ksim/argtable2/getopt.c:648-676 | the text behind `=` is the argument, if the option takes one |
| OptionMeaning.NameMeans | or1ksim/argtable2/getopt.c:677-702 | a required argument is the next element, which is taken; an optional one is left out |
| OptionMeaning.WMeansName | or1ksim/argtable2/getopt.c:756-877 | `-W name` returns what `--name` returns and takes one element more |
| OptionMeaning.RoundTrip | or1ksim/argtable2/getopt.c:504-925 | any list of flags, letters with arguments, long options and operands that the program takes, written out in any of their forms, is read back as that list; operands and what follows `--` are left |
| OptionMeaning.RunReads | or1ksim/argtable2/getopt.c:504-925 | a whole run over it tells the program what was given and leaves the operands at the end of `argv` |
| OptionSyntax.OverrunExact | or1ksim/argtable2/getopt.c:756-877 | a call moves past the end of the vector if and only if it reads an ambiguous `-W` name in the last element, and the element is not dealt with as a long option |
| OptionSyntax.AmbiguousOverruns | or1ksim/argtable2/getopt.c:823-831 | with `W;`, `--ab` and `--ac`, the argument `-Wa` does so |
| OptionSyntax.NoEarlyEnd | or1ksim/argtable2/getopt.c:866-875 | unless a long option without a flag has the value -1, no report of a run is -1 |
| OptionSyntax.EndsEarly | or1ksim/argtable2/getopt.c:694-702 | with such an option the first report can be -1, whatever follows |
| OptionSyntax.PartsPermute | or1ksim/argtable2/getopt.c:504-579 | the options and the others of a vector are together the vector's elements |
| Profiling.Profiler.Acquire | or1ksim/profiler.c:116-245 | the in-place loop leaves the stack, stamps and table of the call-tree meaning of the events; call counts sum to the frames popped, and once the stack is empty the charged times sum to the bottom frames' lifetimes; for traces of any length whose nesting fits the stack and whose returned functions fit the table; the greatest depth, the number of `+` lines and the last stamp are kept too |
| Profiling.Profiler.Unstack | or1ksim/profiler.c:155-172 | the time charged is the frame's lifetime less its callees' and the frames below are shifted by it |
| CallTraces.ProgramRead | or1ksim/profiler.c:116-208 | the calls of any well-nested program, written out as events, are read back as the same call trees, each call finished once, in the order of their ends |
| CallTraces.LeaveMeans | or1ksim/profiler.c:147-208 | a return ends the topmost open call that returns there and all above it, each as the last callee of the one below; a return that none matches is ignored |
| Profiling.TableSize | or1ksim/profiler.c:180-197 | the table takes as many entries as there are functions that have returned |
| Profiling.TableMeaning | or1ksim/profiler.c:180-197 | one entry per function, holding the sum of its charges and the number of its finished calls |
| CallTrees.CloseShifts | or1ksim/profiler.c:169-172 | adding a popped frame's exclusive time to the open stamps keeps each equal to its start plus its finished callees' lifetimes |
| CallTrees.ChargesSumToLifetime | or1ksim/profiler.c:116-208 | for every ordered trace, misaligned and unmatched returns included, the charges sum to the lifetimes of the bottom frames once the stack is empty |
| MemoryProfiler.HashTable.Add | or1ksim/mprofiler.c:75-91 | the count of one key and index grows by one and no other changes, through chains and buckets |
| MemoryProfiler.HashTable.Get | or1ksim/mprofiler.c:94-104 | returns the number of additions for the key and index |
| MemoryProfiler.Profiler.ReadFile | or1ksim/mprofiler.c:114-158 | after reading, each group's counters are the tallies of its in-range records |
| MemoryProfiler.Profiler.PrintOut | or1ksim/mprofiler.c:178-235 | every group of the range is printed once, in order, the counts sum to the records in range, and the dump ends even at the top of the address space |
| AccessCounts.KindCounted | or1ksim/mprofiler.c:125-152 | an access is counted by its width or by its kind, as the mode says, whatever the other is |
| AccessCounts.AllCounted | or1ksim/mprofiler.c:178-235 | each in-range record falls into one of the groups |
| Crc.StepBijective | or1ksim/debug/jtag.c:86-96 | for a fixed input bit the CRC step is a bijection on the register |
| Crc.FeedChained | or1ksim/debug/jtag.c:78-99 | chained calls give the CRC of the concatenation |
| Crc.BurstDetected | or1ksim/debug/jtag.c:78-99 | messages of equal length that differ only within 32 bits have different CRCs (polynomial of section 3.2.9 of IEEE 802.3) |
| Crc.BurstLimit | or1ksim/debug/jtag.c:78-99 | a burst of 33 bits can go unnoticed |
| Crc.Crc32 | or1ksim/debug/jtag.c:78-99 | the loop computes the CRC of the low bits, most significant first |
| BitStrings.ReverseBitsCorrect | or1ksim/debug/jtag.c:113-133 | the mask-and-shift steps reverse the low n bits, for every n up to 64 |
| BitStrings.ReverseByteCorrect | or1ksim/debug/jtag.c:144-153 | the same for a byte |
| JtagRegister.ConstructResponse | or1ksim/debug/jtag.c:180-246 | the bytes placed are, bit by bit, the response: zeros, the ignored field, status and CRC, at every bit offset |
| JtagRegister.ResponseFields | or1ksim/debug/jtag.c:180-246 | the zero field is zero, the ignored field and everything behind untouched, reversed status and CRC in place when the register had zeros there |
| JtagPort.DebugUnit.Shift | or1ksim/debug/jtag.c:1850-1883 | the in-place handlers together do to state and register what the protocol says, for every packet |
| JtagPort.DebugUnit.WishboneWrite | or1ksim/debug/jtag.c:715-755 | stores the packet's bytes in order from the address, advances it by the size exactly without error |
| JtagPort.DebugUnit.WriteCommand | or1ksim/debug/jtag.c:1325-1443 | defines an access exactly when the CRC verifies and the fields are valid for the module |
| JtagPort.DebugUnit.ReadCommand | or1ksim/debug/jtag.c:1026-1117 | answers with the defined access |
| JtagSafety.OnlyVerifiedActs | or1ksim/debug/jtag.c:958-990 | memory, SPRs, stall and reset change only in a shift whose CRC verified, of the right command for the right module |
| JtagSafety.FlagsMeanCrc | or1ksim/debug/jtag.c:905-910 | the verified flag of a packet means that its CRC field equals the CRC of its bits |
| JtagSafety.BurstRejected | or1ksim/debug/jtag.c:905-910 | a packet that passes and one that differs from it in a window of 32 bits, anywhere in the bits the CRC covers and the CRC itself, do not both pass |
| JtagSafety.CrcEmpties | or1ksim/debug/jtag.c:78-99 | a packet passes if and only if feeding its bits and its CRC field leaves the register empty |
| JtagSafety.RunKeepsLegal | or1ksim/debug/jtag.c:1144-1198 | in every reachable state a defined access has a legal type and a size in 1..65536 that is a multiple of its width |
| JtagSafety.GoDisabled | or1ksim/debug/jtag.c:958-990 | after a rejected WRITE_COMMAND no GO acts until one is accepted |
| JtagSafety.DefinedExactly | or1ksim/debug/jtag.c:1325-1443 | only an accepted WRITE_COMMAND defines an access, any other withdraws it |
| JtagSafety.AdvancesExactly | or1ksim/debug/jtag.c:437-441 | in Wishbone mode the address advances, by the size, if and only if the GO had no error |
| JtagSafety.RunAdvances | or1ksim/debug/jtag.c:751-754 | over any run without WRITE_COMMAND or change of module, type and size stay and the address has advanced once per error-free GO |
| JtagSafety.ReadBack | or1ksim/debug/jtag.c:1026-1117 | what READ_COMMAND shifts out after any such run is what the accepted WRITE_COMMAND shifted in, bit by bit, the address advanced; SPR addresses are reduced modulo MAX_SPRS |
| JtagSafety.ReadShiftsOut | or1ksim/debug/jtag.c:1026-1117 | READ_COMMAND shifts out 37 zeros, type, address, length, a clean status and a CRC over them |
| JtagControl.ControlWritten | or1ksim/debug/jtag.c:1647-1694 | WRITE_CONTROL resets the processor if its reset bit was shifted in, and otherwise stalls or releases it as its stall bit says; with a wrong CRC or for another module it does nothing |
| JtagControl.ControlAnswered | or1ksim/debug/jtag.c:1692-1699 | it shifts out zeros and whether the CRC was wrong |
| JtagControl.ControlRead | or1ksim/debug/jtag.c:1508-1575 | READ_CONTROL shifts out whether the processor is stalled, and else zeros |
| JtagControl.StallReadBack | or1ksim/debug/jtag.c:1479-1690 | the stall bit written is the one read back |
| JtagControl.ModuleSelected | or1ksim/debug/jtag.c:299-349 | a verified module select leaves the module shifted in selected, or none if there is no such module |
| JtagControl.SelectAnswered | or1ksim/debug/jtag.c:299-349 | it shifts out whether the module is missing and whether the CRC was wrong |
| JtagControl.CommandDefines | or1ksim/debug/jtag.c:1325-1443 | the access defined is the one named by the bits of the register, if it is aligned, of whole units and one the module can make; any other register withdraws it |
| JtagControl.WriteStatus | or1ksim/debug/jtag.c:867-945 | a write packet is answered with zeros, over- or underrun, bus error and CRC error, each exactly when it occurred |
| JtagControl.ReadStatus | or1ksim/debug/jtag.c:622-689 | the same behind the data of a read packet |
| JtagControl.WriteBits | or1ksim/debug/jtag.c:715-755 | bit by bit, the i-th byte of a verified write packet is at the i-th address afterwards |
| JtagControl.WriteElsewhere | or1ksim/debug/jtag.c:715-755 | and no other address changes |
| JtagControl.ReadBits | or1ksim/debug/jtag.c:389-441 | bit by bit, a verified read packet shifts out the i-th byte of the access in its i-th place |
| JtagControl.SprReadBack | or1ksim/debug/jtag.c:484-540 | a word written to a special-purpose register is read back bit by bit, and no other register changes |
| JtagStreaming.AccessReadBack | or1ksim/debug/jtag.c:1325-1443 | the same as one session of registers: a WRITE_COMMAND, any shifts that keep its access, a READ_COMMAND |
| JtagStreaming.WriteStream | or1ksim/debug/jtag.c:715-755 | any number of verified write packets store their bytes consecutively from the address |
| JtagStreaming.ReadStream | or1ksim/debug/jtag.c:621-689 | any number of verified read packets are answered with consecutive bytes of memory |
| JtagStreaming.RoundTrip | or1ksim/debug/jtag.c:621-755 | one session: an accepted write command at a, k verified GO registers, an accepted read command at a for the same size, k verified GO registers; each read register shifts out the data bits its write register shifted in, for all k and sizes |
| DeadCode.CodeFunc.RemoveDead | or1ksim/cuc/insn.c:1291-1321 | keeps exactly the instructions reachable through operands from volatile, output, store and (under two memory orders) load roots; the flag returned says whether any was dropped |
| DeadCode.CodeFunc.UnmarkTree | or1ksim/cuc/insn.c:1275-1289 | ends on cyclic graphs, unmarking only what is reachable and all of it that was still marked |
| DeadCode.LiveClosed | or1ksim/cuc/insn.c:1291-1312 | volatile instructions, outputs, stores and, under the two loose memory orders, loads are kept, and every operand of what is kept |
| DeadCode.LiveLeast | or1ksim/cuc/insn.c:1275-1312 | nothing else is: what is kept is the least such set |
| DeadCode.ClearedExactly | or1ksim/cuc/insn.c:1313-1319 | what remains is live and unchanged, what is cleared is dead |
| DeadCode.DeadRemoved | or1ksim/cuc/insn.c:1291-1321 | each live instruction is at its new place with references renamed, and what it refers to is live and there too |
| DeadCode.DependencyMoved | or1ksim/cuc/insn.c:1259-1268 | a dependency entry naming a dropped instruction comes to name exactly the next kept one of its block |
| DeadCode.DependencyDangles | or1ksim/cuc/insn.c:1259-1268 | it is left naming none if and only if no kept one follows |
| DeadCode.CodeFunc.RemoveNops | or1ksim/cuc/insn.c:1230-1272 | the in-place compaction and relocation, block after block, is the renaming of the kept graph; the flag says whether there was a NOP |
| Compaction.KeptIsomorphic | or1ksim/cuc/insn.c:1230-1272 | every kept instruction is found at its new place, renamed |
| Compaction.KeptOperands | or1ksim/cuc/insn.c:1250-1268 | it differs there in its operands and dependencies only, which name the new places of what they named |
| Compaction.KeptOrdered | or1ksim/cuc/insn.c:1240-1248 | the order within a block stays |
| Compaction.KeptInjective | or1ksim/cuc/insn.c:1230-1272 | no two kept instructions share a place |
| Compaction.KeptOnto | or1ksim/cuc/insn.c:1230-1272 | every place of the compacted graph comes from a kept instruction |
| Compaction.InsertThenRemove | or1ksim/cuc/insn.c:231-293 | inserting n NOPs into NOP-free code and removing NOPs restores every instruction, operand and dependency |
| Compaction.ListRestored | or1ksim/cuc/insn.c:231-293 | a schedule or block dependency list comes back if and only if nothing in it lies at or behind the insertion |
| DeadCode.CodeFunc.InsertInsns | or1ksim/cuc/insn.c:231-293 | the in-place insertion widens one block and shifts every reference, list and schedule entry behind it |
| CmovElimination.Cmovs.OptimizeCmovs | or1ksim/cuc/insn.c:707-744 | exactly the conditional moves of live blocks that a single primary input of the original graph feeds become moves of it, and nothing else changes; on acyclic dataflow this changes the value of no instruction for any input; exactly the marks of live blocks are cleared, and all marks if and only if none is in a dead block |
| CmovElimination.Cmovs.CmovNeeded | or1ksim/cuc/insn.c:613-704 | ends on every graph, cyclic ones included, with the marks as they were; "needed" means two different primary inputs, "not needed" that `first` is the only one or, if there is none, unset; on acyclic graphs it then has the same value |
| CmovElimination.PrimariesExact | or1ksim/cuc/insn.c:613-704 | an operand is a primary input found by the search if and only if an unmarked walk from source to source leads to it |
| CmovElimination.AcyclicHasPrimary | or1ksim/cuc/insn.c:613-704 | on acyclic dataflow without marks there is always one |
| CmovElimination.SelfFedFindsNone | or1ksim/cuc/insn.c:613-704 | a conditional move fed only by itself leads to none |
| CmovElimination.StaleMarkHarms | or1ksim/cuc/insn.c:714-717 | on a closed acyclic graph with a mark in a dead block the search finds one input where there are two, and the rewriting changes the value computed |
| CmovElimination.ReplaceKeepsValue | or1ksim/cuc/insn.c:727-740 | replacing a conditional move by a move of the same value changes no instruction's value |

## Findings

Properties the code does not have as they are usually stated, each with an input and the exact
condition under which it does have them.

| property | input on which it fails | exact condition |
|---|---|---|
| accesses that `check_memory_conflict` keeps apart touch different bytes | offsets just below the base: `sh -2(rA)` against `lw -4(rA)` (`NegativeOffsetsMissed`), since the end of a range wraps in the comparison | one range wraps onto the start of the other (`OverlapExact`) |
| the same, over a base fed back from a later instruction | a store that takes the base before its update and a load that takes it after (`FeedbackUnrecorded`, `FeedbackBaseMissed`) | both take it from the same side of the update (`TrustedExact`), or the update adds a constant and the offsets corrected by it stay apart; for any other base not computed from its own earlier value the accesses can meet (`UnsteadyMeets`, `SoundBasesExact`).  For one that is, by something other than adding a constant, no condition on the operands decides it: the distance is whatever the operation computes, so there only the sufficient direction is given |
| no miss evicts the line accessed last | `read 0; read 16; invalidate 16`, then a read miss (`ReadExposed`); `write 0; read 16; invalidate 16`, then a write miss (`WriteExposed`) | `ReadVictimExact`, `WriteVictimExact`; it holds in every run without invalidations (`ReachableRanked`, `NoEvictionOfLastAccessed`) |
| a read miss replaces the least recently used line | a set with more ways than counter states, of which as many blocks have been read as there are states (`TooFewStates`) | there is a counter state for every way (`LeastRecentlyUsed`), over runs of reads and writes that hit |
| insertion of NOPs and `remove_nops` restore the whole function | any scheduled access at or behind the insertion: `remove_nops` relocates neither `msched` nor `mdep` | `ListRestored`; instructions, operands and dependencies always come back (`InsertThenRemove`) |
| `remove_dead` leaves dependency lists that name what they named | a dependency on a dropped instruction: it is renamed to its successor, or to a place behind the end of the block | the instruction named is kept (`KeptIsomorphic`); otherwise `DependencyMoved` and `DependencyDangles` say which of the two |
| `optimize_cmovs` clears all visit marks before the search | a mark in a dead block: the search takes the instruction for visited and the rewriting changes a value (`StaleMarkHarms`) | no marked instruction is in a dead block (`ClearMarks`, `OptimizeCmovs`).  For values to be kept it is enough that no live instruction leads to one; it is not necessary, since the condition may be constant |
| the search for inputs finds one | a conditional move fed only by itself (`SelfFedFindsNone`); the assertion after the search then fails | a primary input can be reached through sources (`CmovNeeded`, `PrimariesExact`), as always on acyclic dataflow (`AcyclicHasPrimary`) |
| `optind` never passes the end of the vector | an ambiguous `-W` name, which takes one element too many, as the last argument (`AmbiguousOverruns`) | no such name is last, except in an element dealt with as a long option (`OverrunExact`; over a run, `Overruns`) |
| a run of calls ends only at the end of the options | a long option of value -1 (`EndsEarly`) | no report of the vector is -1 (`Getopt.Run`); so it is whenever no long option has that value (`NoEarlyEnd`) |
| a burst of any length is detected | the polynomial itself, 33 bits (`BurstLimit`) | at most 32 bits (`BurstDetected`) |

Two oddities are harmless: `crc32` masks with 28 ones instead of 32, but the polynomial has no
higher bit (`Crc.MaskSuffices`); `read_control` masks its sixth byte with 0x07, but only the stall
bit can be set in the data.  `construct_response` ORs the
status field into the byte where it starts, so `ResponseFields` asks for zeros there.

## Left out

- MemorySchedule.SoundBases: operands are 32-bit words, so the end of a range wraps in the comparison; with 64-bit operands the first of the two wrapping cases is caught by the test and the condition is more than sufficient.
- MemorySchedule.CucFunc.ScheduleWeak: starts from clean dependency lists; memory types, bursts and joining of transfers are not modelled.
- ArgumentPermutation.Getopt.Run: an option string with `W;` comes with a table of long options, as the source demands; the run stops after an overrun, since the next call would read behind the vector; error messages, `optopt`, the index of the long option and the environment flags of the GNU C library are not modelled.
- Profiling.Profiler.Acquire: stamps are nondecreasing and below 2^32 and `long` has 64 bits, so a negative time does not occur; no more than 262144 calls are open at once and no more than 8192 functions return, which the source does not check; function names, reading and printing are left out.
- MemoryProfiler.Profiler.PrintOut: groups of at most 2^30 bytes; the text of a row and buffered reading are left out.
- BlockDetection.Detector.DetectBB: the last instruction is not a branch, no branch leads to instruction 0, and the artificial blocks fit the table, which the source does not assert; loop counts, timings and block types are left out, `prev` links are two arrays.
- DelaySlots.LoweringCorrect: a slot is neither a branch nor a branch target; detection of locals is off, there are no calls, and conditional branches on a register cannot occur after `expand_branch`.
- CucInsn.Insn: the fifth operand slot, which the modelled passes never use, is left out.
- CmovElimination.Cmovs.OptimizeCmovs: needs acyclic dataflow and sources on moves; on a cyclic graph the assertion after the search fails exactly when no primary input can be reached through sources, as in `SelfFedFindsNone`.
- DCache.CacheIsTransparent: cache enabled and not inhibited, memory fully mapped, accesses aligned, blocks of 16 or 32 bytes, and the start invalidated; delays and statistics are left out.
- ICache.InsnCache.Run: the same, and at most 1024 sets.
- JtagPort.DebugUnit.Shift: instruction register shifts, messages and the reset of the simulator beyond counting are left out; GO packets have at least 73 bits once an access is defined; memory and SPRs are maps with a predicate for mapped addresses, addresses a host word of 64 bits.
- JtagProtocol.SprByte: SPR bytes are in the order of a big-endian build of the simulator.
- JtagPort.DebugUnit.TransferOut: the three read functions of the source share one loop here.
- Tree optimisations, common subexpressions, block joining and loop rolling of the compiler, its timing estimates and code generation.
- Branch prediction, TLBs, performance counters, configuration, and the front ends.
