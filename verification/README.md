# Verified model of the emulator's stateful cores

This project models the parts of a Nintendo 64 emulator that are fast or stateful forms of a simple
meaning, and proves that they mean it: the TLB behind its software cache, the event scheduler and
interrupt delivery, the display-list consumer, the RSP vector arithmetic, the data cache over
byte-swizzled memory, and six smaller cores. Check everything with `dafny verify dfyconfig.toml`.

Each core comes as a specification (values and functions), lemmas about that specification, and a
`...Unit` module: classes with the source's fields, arrays and loops, whose methods are tied to the
functions of the old state. Where the source does not keep what it or its documentation promises, the
code is modelled as it is and the promise is proved under its exact condition.

| Core | Modules | Main results |
|---|---|---|
| TLB and software cache | TlbSpec, PageBits, TlbMeaning, TlbProofs, TlbRuns, TlbAborts, TlbUnit | which page, fault and address a written entry gives, in numbers; the cache refines the walk under one ASID always, and under all exactly when no entry is shadowed; when the abort is unreachable; TLBR/TLBWI/TLBP round trips |
| Scheduler and interrupts | EventQueue, SchedulerList (Scheduler.dfy), Interrupts, InterruptMeaning, InterruptPool, InterruptRuns, InterruptDelivery, InterruptUnit | list and free stack partition the pool; conservation and delivery order; no deliverable interrupt is lost, and it is taken within a bounded number of clock steps, once until its ERET; the timer is on time; exactly when the node pool suffices |
| Display lists | RdpSpec, RdpMeaning, RdpSubmission, RdpUnit | what a list of commands makes the renderer do; splitting a list over register writes is invisible; exactly which START writes lose words |
| RSP vector unit | RspLanes, RspCompare, RspSimd, RspMeaning, RspUnit | instruction sequences compute 32-bit products, sums, comparisons and clips; SSE bodies refine the scalar loops |
| Data cache and memory | Swizzle, DCache, DCacheTheorems, DCacheEffects, DCacheUnit, ByteCells, Unaligned, UnalignedUnit | the cached, swizzled memory is one big-endian memory, also for unaligned pairs |
| Smaller cores | AiSpec, AiRuns, AiUnit, Gf2, Gf2Top, JoybusCrc, RomCrc, RomCrcPolynomial, RomCrcUnit, Fifo, FifoRuns, FifoUnit, Cic | audio DMA schedule, CRCs as remainders, ring buffer under interleaving, an invertible challenge map |

Findings about the source that the lemmas state precisely:

- A private entry in front of a global one for the same page makes the TLB cache answer wrongly under
  another ASID; without such a pair it is exact (`CacheExactIffUnshadowed`).
- The "missed when it should have hit" abort is reachable by a store to a clean page or a miss under one
  ASID, followed by a load under another (`FaultThenHitAborts`); the TLBs on which no run aborts are
  characterised (`AbortFreeIffPortable`).
- The frame of a TLB page larger than 4 KiB is joined to the offset by or, so the physical address is their sum
  exactly if they share no bit, as in a frame aligned to the page (`LocatedIsSum`).
- A Compare write between the timer firing and its interrupt being delivered makes the CPU take an
  interrupt exception with no pending cause (`CompareWriteIsSpurious`, from reset in `SpuriousFromReset`);
  on runs without such a write every exception has its cause (`TakenExceptionsHaveCauses`).
- The PI and SI start a transfer without asking whether one is pending, so nine of them exhaust the event
  pool (`TransfersExhaustThePool`). An operation gets its nodes exactly when the queue it leaves fits the
  pool (`ActionGetsNodesIff`), and eight pending device events always fit (`EightDevicesSuffice`).
- Doubling Compare in 32 bits drops its top bit, so the timer is on time exactly for values below 2^31
  (`TimerMatchesIff`).
- Words waiting in the display list (possible only while frozen) are lost exactly when an END write takes a
  new START or points below the END before it (`WordsLostIff`).
- VCH negates the high half without a borrow and before the low halves are known: its destination is the
  high half of the clipped value except in one stated case (`ClipHighHalf`), and the lower clip flag is
  false for S = T = 0 (`ClipTest`).
- An audio DMA address written while another DMA plays is lost exactly if that DMA ends before the length
  is written, that is if as many samples fall due as it has words left (`AddressLostIff`).
- The data cache is transparent as long as each physical page is accessed under one value of virtual address
  bit 12; a byte written under one and read under the other is not seen (`AliasesDisagree`).

## Model

| member | source | states |
|---|---|---|
| TlbSpec.FindFrom | src/mem/n64bus.c:47-66 | the entry found is the first match at or after the index, and none is found only if none matches |
| TlbSpec.ToNatInjective | src/cpu/r4300i.h:510-513 | distinct cache index fields select distinct cache sets |
| TlbMeaning.WrittenMatches | src/cpu/tlb_instructions.c:47-78 | the entry TLBWI stores matches exactly the addresses of its pair of pages in its region (bits 62-63 and below 40, divided by twice the page size), under its ASID or, with both G bits set, under any |
| TlbMeaning.WrittenPageAnswers | src/mem/n64bus.c:68-115 | after TLBWI with no lower match, over the raw register bits: EntryLo0 answers in even pages and EntryLo1 in odd ones; invalid exactly if V is clear, modification exactly for a store with V set and D clear; else frame and offset in the page, cached unless C is 2 |
| TlbMeaning.LocatedIsSum | src/mem/n64bus.c:111-112 | the physical address is PFN times 4096 plus the offset in the page exactly if they share no bit: always for 4 KiB pages, and in every frame aligned to its page |
| TlbMeaning.MissesIff | src/mem/n64bus.c:47-73 | the walk reports a miss exactly when no entry matches |
| TlbMeaning.PairsNormalized | src/cpu/tlb_instructions.c:51-57 | each pair of page mask bits is stored as its upper bit twice |
| TlbMeaning.TlbpFailsIff | src/cpu/tlb_instructions.c:15-23 | the probe-failure bit is set exactly when no entry matches EntryHi |
| TlbProofs.MatchIsCovered | src/cpu/tlb_instructions.h:12-25 | every address an entry can match lies in a cache set that invalidating the entry clears, for every page size |
| TlbProofs.WalkAtOffset | src/mem/n64bus.c:68-115 | walking at any address of a page gives the walk at the page's base plus the offset, whatever the outcome |
| TlbProofs.GlobalHitUnderAllAsids | src/mem/n64bus.c:47-66 | without a shadowed pair, a translating global entry is what the walk finds under every ASID |
| TlbProofs.NoOverlapImpliesNoShadow | src/mem/n64bus.c:47-66 | if no two entries match one address under one ASID, no global entry is shadowed |
| TlbProofs.LineAnswers | src/mem/n64bus.c:117-138 | a sound cache line answers as the walk does; the only other outcome is the abort, which needs a recorded miss and a walk that now hits |
| TlbProofs.ProbeKeepsCoherence | src/mem/n64bus.c:140-194 | filling a way after a miss, free or randomly replaced, keeps every positive line equal to the walk |
| TlbProofs.TlbwiKeepsCoherence | src/cpu/tlb_instructions.c:47-78 | clearing the ranges of the old and the new entry is enough: surviving lines still agree with the walk over the new TLB |
| TlbRuns.ProbeAgrees | src/mem/n64bus.c:140-194 | one probe of a cache coherent under the current ASID either aborts or returns the walk's verdict, physical address, cacheability and entry number |
| TlbRuns.FixedAsidRefinesWalk | src/mem/n64bus.c:140-194 | while the ASID stays the same, every probe that returns agrees with the walk on every run, whatever entries overlap or shadow one another |
| TlbRuns.CacheRefinesWalk | src/mem/n64bus.c:140-194 | over every run of probes, TLB writes, TLB reads and register writes that keeps the TLB unshadowed, each probe that returns agrees with the walk |
| TlbRuns.ShadowBreaksCache | src/mem/n64bus.c:189-192 | any shadowed pair gives a concrete run whose probe returns the wrong entry |
| TlbRuns.CacheExactIffUnshadowed | src/mem/n64bus.c:140-194 | over a fixed TLB and a cold cache, all runs agree with the walk if and only if no global entry is shadowed |
| TlbAborts.TameRunsNeverAbort | src/mem/n64bus.c:117-194 | with a fixed ASID and no store to a valid clean page, no run reaches the abort and every probe agrees with the walk |
| TlbAborts.FaultThenHitAborts | src/mem/n64bus.c:160-192 | a page that faults for one access or ASID and translates for a load under another gives a run that aborts |
| TlbAborts.AbortFreeIffPortable | src/mem/n64bus.c:117-194 | over a fixed TLB, no run aborts if and only if every translating page is writable and translates under every ASID |
| TlbAborts.AbortFreeUnderAsidIffWritable | src/mem/n64bus.c:117-194 | over a fixed TLB and ASID, no run aborts if and only if every page translating under it is writable |
| TlbAborts.TlbrThenTlbwiRestores | src/cpu/tlb_instructions.c:29-78 | reading an entry stored by TLBWI and writing it at any index reproduces it bit for bit |
| TlbAborts.TlbpFindsWritten | src/cpu/tlb_instructions.c:15-78 | after TLBWI at an index, TLBP yields that index if and only if no lower entry matches EntryHi |
| TlbUnit.Cp0.constructor | src/cpu/r4300i.h:556-562 | power-on: no entry initialised, no cache line valid, so the cache is cold |
| TlbUnit.Cp0.FindTlbEntry | src/mem/n64bus.c:47-66 | the loop returns the specified first match |
| TlbUnit.Cp0.TlbProbeSlow | src/mem/n64bus.c:68-115 | the walk's verdict, fault kind, physical address, cacheability and dirty bit as specified, whose meaning WrittenPageAnswers gives |
| TlbUnit.Cp0.TlbProbeFromCacheEntry | src/mem/n64bus.c:117-138 | the answer of a cache line, including the abort on a recorded miss that now hits |
| TlbUnit.Cp0.ChooseWay | src/mem/n64bus.c:168-178 | the new line goes to the first free way, else to the random victim |
| TlbUnit.Cp0.TlbProbe | src/mem/n64bus.c:140-194 | result and new cache equal the specified probe of the old state; nothing else changes |
| TlbUnit.Cp0.ClearTlbCache | src/cpu/tlb_instructions.h:12-25 | exactly the sets from the entry's first to its last index become empty |
| TlbUnit.Cp0.DoTlbwi | src/cpu/tlb_instructions.c:47-78 | the stored entry and the two invalidations as specified |
| TlbUnit.Cp0.DoTlbr | src/cpu/tlb_instructions.c:29-45 | the four registers read back from the entry, G into both halves |
| TlbUnit.Cp0.DoTlbp | src/cpu/tlb_instructions.c:15-23 | Index holds the first match or the failure bit |
| EventQueue.InsertSorted | src/system/scheduler.c:44-69 | insertion keeps the queue sorted by time |
| EventQueue.InsertPlace | src/system/scheduler.c:44-69 | an event goes behind the strictly earlier ones, and behind a head due at the same time, but before later ties |
| EventQueue.TickDeliversDue | src/system/scheduler.c:30-42 | a tick delivers the earliest event if it is due, and nothing only if nothing is due |
| EventQueue.RemoveTakesFirst | src/system/scheduler.c:75-91 | removal takes the earliest event of the kind |
| EventQueue.InsertMultiset | src/system/scheduler.c:44-69 | insertion adds exactly the one event |
| EventQueue.RemoveCount | src/system/scheduler.c:75-91 | removal takes one event of its kind if there is one, and none of any other kind |
| EventQueue.RunConserves | src/system/scheduler.c:30-91 | over every run of enqueues, ticks and removals, the enqueued events are exactly the delivered, removed and pending ones, as multisets |
| EventQueue.RunDeliversInOrder | src/system/scheduler.c:30-73 | with relative enqueues and no wrap of the 64-bit counter, delivered times never decrease and none is early |
| SchedulerList.Scheduler.PartitionFacts | src/system/scheduler.c:7-28 | list nodes, free-stack nodes and the node in hand are disjoint, without repetition, and together the ten-node pool |
| SchedulerList.Scheduler.constructor | src/system/scheduler.c:20-28 | reset: empty list, all ten nodes on the free stack |
| SchedulerList.Scheduler.AllocEventNode | src/system/scheduler.c:7-13 | the popped node leaves the free stack and is held by the caller, the partition kept |
| SchedulerList.Scheduler.FreeEventNode | src/system/scheduler.c:15-18 | the held node goes back on the free stack, the partition kept |
| SchedulerList.Scheduler.Tick | src/system/scheduler.c:30-42 | the clock advances and at most one due event, the first, is delivered and its node freed |
| SchedulerList.Scheduler.FindPredecessor | src/system/scheduler.c:58-64 | the node after which the new event goes: the last one before the first later event |
| SchedulerList.Scheduler.LinkPointers | src/system/scheduler.c:50-68 | the chain of next pointers with the new node spliced in at its position |
| SchedulerList.Scheduler.UnlinkPointers | src/system/scheduler.c:76-88 | the chain with one node taken out through the pointer that leads to it |
| SchedulerList.Scheduler.EnqueueAbsolute | src/system/scheduler.c:44-69 | the list's events become the sorted insertion of the new one, list and pool invariants kept |
| SchedulerList.Scheduler.EnqueueRelative | src/system/scheduler.c:71-73 | the same at the current tick plus the delay, modulo 2^64 |
| SchedulerList.Scheduler.RemoveEvent | src/system/scheduler.c:75-91 | the first event of the kind is gone, its node freed, and its remaining time modulo 2^64 returned (zero if none) |
| SchedulerList.Scheduler.TicksUntilNextEvent | src/system/scheduler.c:93-105 | time to the head event, or one when the list is empty or the head is past |
| Interrupts.NothingLostStep | src/system/n64system.c:430-506 | every MI, CP0, device and clock operation keeps at most one interrupt event queued, and exactly one while an interrupt is deliverable |
| Interrupts.NoInterruptIsLost | src/cpu/r4300i.c:816-822 | over every run of those operations a deliverable interrupt has exactly one event queued |
| Interrupts.DueNowStep | src/cpu/r4300i.c:816-822 | while no tick count wraps, a queued interrupt event stays due within one tick |
| Interrupts.OnlyCompareUnjustifies | src/cpu/r4300i_register_access.h:75-80 | only a Compare write can leave an interrupt event without a pending cause, exactly when IP7 was the only one |
| Interrupts.TakenHasCause | src/system/n64system.c:312-317 | when queued events are justified, a taken interrupt exception has an enabled pending cause |
| Interrupts.TimerMatchesIff | src/system/scheduler_utils.c:5-12 | the timer event falls when Count reaches Compare if and only if Compare is below 2^31 |
| InterruptMeaning.TakenEffect | src/cpu/r4300i.c:78-96 | an interrupt is taken only with IE set and EXL and ERL clear; taking it sets EXL, keeps every other Status bit, the causes, lines and masks, and leaves nothing deliverable |
| InterruptMeaning.OneUntilStatusWrite | src/cpu/r4300i.c:78-96 | on every run without a Status write or ERET at most one interrupt exception is taken |
| InterruptMeaning.EretEffect | src/cpu/mips_instructions.c:1166-1176 | ERET clears ERL if set, else EXL, and nothing else; what is deliverable then |
| InterruptMeaning.HandlerRound | src/cpu/mips_instructions.c:1166-1176 | through any handler that does not write Status, ERET restores the Status from before the interrupt, and an interrupt is deliverable again exactly if an enabled cause is still pending |
| InterruptMeaning.ActionMoves | src/system/n64system.c:288-321 | which registers each operation moves: a line only by its own device, IP7 set by the timer and cleared by Compare alone, a mask bit both cleared and set ends set, Count with the clock, Status by MTC0, ERET and exceptions |
| InterruptMeaning.DeviceSchedules | src/system/scheduler.c:71-91 | a device's event is added at its own delay, a cancelled kind loses one, and no other event moves |
| InterruptMeaning.VsyncSchedules | src/interface/vi.c:50-60 | a VSYNC write leaves one half-line event, at the new distance |
| InterruptMeaning.HalflineSchedules | src/system/n64system.c:255-286 | a half-line that ends has the next one queued |
| InterruptMeaning.TimerStaysRight | src/system/scheduler_utils.c:5-12 | on every run every queued timer event is due when Count reaches doubled Compare, through writes to either register and firings |
| InterruptMeaning.FiresAtCompare | src/system/scheduler_utils.c:5-12 | when the timer fires, Count was Compare at the moment its event was due, exactly for Compare below 2^31 |
| InterruptRuns.TakenExceptionsHaveCauses | src/system/n64system.c:307-317 | on every run without a Compare write that drops the only cause, each taken interrupt exception has an enabled pending cause |
| InterruptRuns.CompareWriteIsSpurious | src/cpu/r4300i_register_access.h:75-80 | from any machine whose timer is about to fire, letting it fire and writing a Compare not due at once makes the CPU take an exception with nothing pending |
| InterruptRuns.SpuriousFromReset | src/cpu/r4300i_register_access.h:75-80 | a run from reset that does so |
| InterruptDelivery.StaysDue | src/cpu/r4300i.c:816-822 | on every run without wrap the queue stays sorted and a queued interrupt event due within a tick |
| InterruptDelivery.RequestStep | src/interface/pi.c:508-511 | a device request in front of a waiting interrupt raises its line in the same step, requeueing the interrupt, and uses up one request |
| InterruptDelivery.RankFires | src/system/scheduler_utils.c:5-12 | each firing uses up one of the timer's at most three turns: the third is a whole range of Count later |
| InterruptDelivery.TakenAmong | src/system/n64system.c:288-321 | among more clock steps than a measure of requests, timer turns and half-lines, one takes the interrupt |
| InterruptDelivery.DeliverableIsTaken | src/system/n64system.c:288-321 | after any operations, a deliverable interrupt is taken within twice the pending requests and eight clock steps, whatever events are ahead and whatever lines their handlers raise |
| InterruptDelivery.DeliverableIsTakenSoon | src/system/n64system.c:288-321 | within four steps beside one for each pending device event when half-lines are longer than the wait |
| InterruptPool.ActionGetsNodesIff | src/system/scheduler.c:7-13 | the allocator's guard holds at each allocation of an operation if and only if the queue it leaves has at most ten events |
| InterruptPool.GuardsByCount | src/system/scheduler.c:7-13 | a requeue finds a node exactly when the other queued events number fewer than ten |
| InterruptPool.RunHoldsIff | src/system/scheduler.c:7-13 | no allocation of a run is fatal if and only if the queue never exceeds ten events |
| InterruptPool.OwnEventsNeedTwo | src/cpu/r4300i.c:816-822 | on every run the queue holds at most one timer and one interrupt event beside the device events |
| InterruptPool.EightDevicesSuffice | src/interface/pi.c:146-151 | while at most eight device events are pending, of one kind or several, the pool never runs out |
| InterruptPool.TransfersExhaustThePool | src/interface/pi.c:183-188 | from reset, nine PI transfers started in a row leave no node for a tenth, nor for the first interrupt |
| InterruptUnit.N64System.InterruptUpdate | src/cpu/r4300i.c:816-822 | the interrupt event is requeued one tick ahead exactly while an enabled interrupt is pending |
| InterruptUnit.N64System.MergedMask | src/mem/n64bus.c:326-338 | the loop over the six lines clears, then sets, so a set bit wins |
| InterruptUnit.N64System.RescheduleCompareInterrupt | src/system/scheduler_utils.c:5-12 | the timer event is replaced by one at the 33-bit distance from Count to doubled Compare |
| InterruptUnit.N64System.SystemStep | src/system/n64system.c:288-321 | the clock runs and the event that falls due is handled: the line it raises, the half-line or timer event it queues, the exception it takes |
| RdpSpec.CommandsWellFormed | src/rdp/rdp.c:31-36 | the words split into whole commands and a rest shorter than one command, under 44 words, with nothing lost |
| RdpMeaning.LengthIs | src/rdp/rdp.c:31-36 | opcodes 8 to 15 take 8 words, 4 more with bit 0 (depth), 16 more with bit 1 (texture) and 16 more with bit 2 (shade); texture rectangles 4, all others 2 |
| RdpMeaning.StreamDoes | src/rdp/rdp.c:192-233 | a list written with those lengths enqueues exactly its commands from opcode 8 on, whole and in order, with a full sync directly after each 0x29 and nowhere else, and carries an incomplete one over |
| RdpMeaning.FetchedWords | src/rdp/rdp.c:173-190 | the words fetched are those of RDRAM in order, or of RSP memory round its 4 KiB |
| RdpMeaning.AlignedDown | src/rdp/rdp.c:342-350 | START and END round their low 24 bits down to 8 bytes |
| RdpMeaning.SetBeatsClear | src/rdp/rdp.c:281-340 | a STATUS flag both set and cleared ends set; no other register moves |
| RdpMeaning.StartEndSubmits | src/rdp/rdp.c:342-356 | START, a second START and END on a running processor consume what lies between the first START and the END, and leave the next list ready to start |
| RdpSpec.SplitIsUnique | src/rdp/rdp.c:197-233 | any list of commands followed by less than a command is the list the splitter finds |
| RdpSpec.SplitInTwo | src/rdp/rdp.c:203-220 | splitting in two runs with the rest carried over is splitting at once |
| RdpSpec.StreamInTwo | src/rdp/rdp.c:222-233 | the commands enqueued and full syncs raised are those of the whole stream |
| RdpSpec.RunsSplitAtOnce | src/rdp/rdp.c:148-265 | over every run of register writes, commands, syncs and carried words are those of splitting at once all words consumed |
| RdpSubmission.StepAccounts | src/rdp/rdp.c:281-356 | a register write that loses no waiting words: words waiting plus words submitted are words consumed plus words still waiting |
| RdpSubmission.WordsLostIff | src/rdp/rdp.c:281-356 | words are lost if and only if some wait and an END write takes a START or points below the last END; which words are lost in each case |
| RdpSubmission.RunAccounts | src/rdp/rdp.c:281-356 | the same balance over every orderly run |
| RdpSubmission.SplittingIsInvisible | src/rdp/rdp.c:148-265 | once unfrozen, the effects of any sequence of START, END and STATUS writes that loses no waiting words equal those of the whole submitted stream |
| RdpUnit.RdpConsumer.Refill | src/rdp/rdp.c:173-190 | the new words follow the carried ones in the buffer, from RDRAM or wrapping RSP memory |
| RdpUnit.RdpConsumer.SaveRemainder | src/rdp/rdp.c:204-215 | the incomplete command moves to the front of the buffer |
| RdpUnit.RdpConsumer.RunCommands | src/rdp/rdp.c:192-233 | the loop enqueues exactly the complete commands of the buffer, in order |
| RdpUnit.RdpConsumer.ProcessRdpList | src/rdp/rdp.c:148-243 | log, carried words and registers as specified |
| RdpUnit.RdpConsumer.RunRdpCommand | src/rdp/rdp.c:245-265 | nothing while frozen or without new words, else one run |
| RdpUnit.RdpConsumer.StartRegWrite | src/rdp/rdp.c:342-347 | the first START since an END is latched, later ones ignored |
| RdpUnit.RdpConsumer.EndRegWrite | src/rdp/rdp.c:349-356 | END latched, a pending START becomes current, the processor runs |
| RdpUnit.RdpConsumer.StatusRegWrite | src/rdp/rdp.c:281-340 | clears before sets; clearing freeze runs the processor, which a simultaneous set stops |
| RspLanes.SetThenGet | src/cpu/rsp.h:285-299 | reading an accumulator after setting it gives the value when it fits 48 bits signed |
| RspLanes.GetThenSet | src/cpu/rsp.h:285-299 | writing back what was read changes none of the three registers |
| RspLanes.FourMultipliesMakeProduct | src/cpu/rsp_vector_instructions.c:969-1234 | VMUDL, VMADM, VMADN, VMADH on the halves of S and T each add their partial product without wrapping and leave floor(S*T/65536) exactly, and the last destination is its clamped upper part |
| RspLanes.SaturatedProduct | src/cpu/rsp_vector_instructions.c:1079-1134 | with a further VMADN by zero the two destinations are that product saturated to 32 bits |
| RspMeaning.GetVteElement | src/cpu/rsp_vector_instructions.c:56-120 | the element of each lane's operand: its own for specifiers below 2, then that of its pair, of its four, and one for all from 8 on |
| RspMeaning.MultiplyAccumulates | src/cpu/rsp_vector_instructions.c:969-1280 | each of the eight multiplies leaves the old accumulator, or zero, plus its term, modulo 2^48, and no other change of the lane |
| RspMeaning.MultiplyWrites | src/cpu/rsp_vector_instructions.c:969-1280 | destinations from the accumulator's value: M and H the upper 32 bits clamped, L and N the lower 16 unless the value leaves 32 bits |
| RspMeaning.VabsIsSignTimes | src/cpu/rsp_vector_instructions.c:650-695 | the second operand times the sign of the first; the destination saturates, the accumulator wraps |
| RspMeaning.FlagsAfter | src/cpu/rsp_vector_instructions.c:650-1666 | which flags and accumulator registers each instruction leaves, clears or sets |
| RspCompare.SubtractThenCompare | src/cpu/rsp_vector_instructions.c:853-906 | VSUBC on low halves then VLT, VGE, VEQ or VNE on high halves decides the signed 32-bit comparison |
| RspCompare.MergeMakesMinMax | src/cpu/rsp_vector_instructions.c:1174-1187 | with VMRG on the low halves the pair of destinations is the 32-bit minimum or maximum |
| RspCompare.AddChain | src/cpu/rsp_vector_instructions.c:697-729 | VADDC then VADD give the 32-bit sum modulo 2^32 in the unclamped results, the last destination clamped |
| RspCompare.SubtractChain | src/cpu/rsp_vector_instructions.c:1635-1666 | VSUBC then VSUB, likewise for the difference |
| RspCompare.ClipTest | src/cpu/rsp_vector_instructions.c:744-815 | after VCH and VCL the high flag is S >= T and the low flag is S + T <= 0 except for S = T = 0 |
| RspCompare.ClipLowHalf | src/cpu/rsp_vector_instructions.c:778-815 | VCL's destination is the low half of -T, T or S as the clip dictates |
| RspCompare.ClipHighHalf | src/cpu/rsp_vector_instructions.c:744-776 | VCH's destination is the high half of the clipped value if and only if the stated borrow case does not occur |
| RspSimd.MixedProduct | src/cpu/rsp_vector_instructions.c:1033-1078 | signed-by-unsigned halves from unsigned multiplies and the sign correction |
| RspSimd.AddWideIsExact | src/cpu/rsp_vector_instructions.c:969-1004 | the three-register addition with carries found by a saturating add is the 48-bit addition |
| RspSimd.VmadhRefines | src/cpu/rsp_vector_instructions.c:969-1004 | the SSE body leaves the scalar loop's accumulator and destination in every lane |
| RspSimd.VmadmRefines | src/cpu/rsp_vector_instructions.c:1033-1077 | likewise for VMADM |
| RspSimd.VmadnRefines | src/cpu/rsp_vector_instructions.c:1079-1134 | likewise for VMADN, with the blend as the low clamp |
| RspSimd.VabsRefines | src/cpu/rsp_vector_instructions.c:650-695 | likewise for VABS, including the most negative value |
| RspSimd.ShuffleIsBroadcast | src/cpu/rsp_vector_instructions.c:56-120 | the shuffles with their constants are the scalar broadcasts for every element specifier |
| RspUnit.ExecutedIsUnique | src/cpu/rsp_vector_instructions.c:969-1134 | the specified outcome is unique, so the two forms leave the same registers, accumulators and flags |
| RspUnit.VectorUnit.ExecuteScalar | src/cpu/rsp_vector_instructions.c:650-1666 | the lane loop executes the instruction on all lanes even when the destination is a source |
| RspUnit.VectorUnit.ExecuteSse | src/cpu/rsp_vector_instructions.c:650-1134 | the eight-lane bodies reach the same outcome |
| RspUnit.ProgramMultiplies | src/cpu/rsp_vector_instructions.c:969-1234 | the four instructions over whole registers compute eight fixed-point products of the elements the specifier pairs up |
| Swizzle.ReadIsBigEndian | src/mem/mem_util.h:98-149 | a byte, half, word or dword read through the flipped addresses returns the big-endian bytes at its address |
| Swizzle.WriteIsBigEndian | src/mem/mem_util.h:98-170 | a sized write stores the big-endian bytes at its address and changes no other byte |
| DCache.WritebackByte | src/cpu/cache.c:5-17 | a write-back changes no byte the CPU sees, makes the line clean and updates RDRAM on that line alone |
| DCache.FillIsInvisible | src/cpu/cache.c:36-49 | loading a line over a clean or invalid one changes no byte the CPU sees |
| DCache.PrepIsInvisible | src/cpu/cache.c:19-52 | hit, miss and eviction leave the accessed line held and every byte as seen before |
| DCacheTheorems.ReadIsTransparent | src/cpu/cache.c:54-86 | a sized cached read returns what the flat memory holds there |
| DCacheTheorems.WriteIsTransparent | src/cpu/cache.c:58-92 | a sized cached write changes exactly the addressed bytes of the flat memory |
| DCacheTheorems.OperateByte | src/cpu/mips_instructions.c:93-173 | the cache operations change no byte seen, except that invalidating a held dirty line without write-back shows its older RDRAM bytes |
| DCacheEffects.OperationEffect | src/cpu/mips_instructions.c:110-167 | for each operation: both write-backs and the one by index leave the selected line's seen bytes in RDRAM and no other byte changed; the line ends valid and clean (Hit_Write_Back) or invalid (the others, Hit_Invalidate with RDRAM unchanged); a miss changes nothing; other lines stay |
| DCacheEffects.PrepEffect | src/cpu/cache.c:19-52 | a hit changes nothing; a miss makes the line valid and clean with its tag, and only a replaced dirty line's bytes reach RDRAM |
| DCacheEffects.WriteEffect | src/cpu/cache.c:58-92 | a write marks its line dirty and stays in the cache |
| DCacheTheorems.ActsOnPlainMemory | src/cpu/cache.c:54-92 | each operation acts on the seen memory as on a plain big-endian memory |
| DCacheTheorems.CacheIsTransparent | src/cpu/cache.c:5-92 | under any fixed colouring of pages, after any run of sized accesses and write-back operations the seen memory is the plain memory after the same run |
| DCacheTheorems.FlushWritesEverythingBack | src/cpu/mips_instructions.c:110-117 | Index_Write_Back_Invalidate over all 512 indices leaves RDRAM equal to what the CPU saw, whatever the pages' colours |
| DCacheTheorems.AliasesDisagree | src/cpu/cache.h:31-41 | a byte written through one virtual address and read through another that differs in bit 12 returns the old RDRAM byte |
| DCache.KeepingBitsColours | src/cpu/cache.h:31-41 | a mapping that keeps the low 13 address bits, as KSEG0, is one that gives each page its own bit 12 as colour |
| DCacheUnit.CacheUnit.constructor | src/cpu/cache.h:14-20 | with no valid line the CPU sees RDRAM |
| DCacheUnit.CacheUnit.CopyLineOut | src/cpu/cache.c:13-15 | the byte loop copies exactly the line |
| DCacheUnit.CacheUnit.WritebackDcache | src/cpu/cache.c:5-17 | the write-back in place, to the address the line's own tag gives |
| DCacheUnit.CacheUnit.LoadLine | src/cpu/cache.c:36-49 | the miss path in place |
| DCacheUnit.CacheUnit.PrepDcacheLine | src/cpu/cache.c:19-52 | the line is held afterwards and the flat memory unchanged |
| DCacheUnit.CacheUnit.CacheRead | src/cpu/cache.c:54-86 | returns the big-endian bytes at the physical address of the memory the CPU sees, unchanged, the cache as specified |
| DCacheUnit.CacheUnit.CacheWrite | src/cpu/cache.c:58-92 | replaces exactly those bytes, the cache and RDRAM as specified |
| DCacheUnit.CacheUnit.CacheOperation | src/cpu/mips_instructions.c:110-167 | the CACHE instruction's data-cache cases with the effect of OperationEffect on RDRAM and flags; memory as seen is kept by all but Hit_Invalidate |
| Unaligned.WordSplices | src/cpu/mips_instructions.c:458-528 | the masks and shifts of LWL, LWR, SWL, SWR splice bytes of the register and the memory word |
| Unaligned.DwordSplices | src/cpu/mips_instructions.c:530-601 | likewise for LDL, LDR, SDL, SDR |
| Unaligned.StoreTouches | src/cpu/mips_instructions.c:495-528 | a left store writes from its address to the end of the cell, a right store from the start of the cell to its address, and nothing else |
| Unaligned.StorePair | src/cpu/mips_instructions.c:495-601 | a store pair at any alignment, in either order, stores the register at the address and touches no other byte |
| Unaligned.LoadPair | src/cpu/mips_instructions.c:458-564 | a load pair in either order fetches the bytes at the address whatever the register held |
| Unaligned.PairsRoundTrip | src/cpu/mips_instructions.c:458-601 | a load pair recovers what a store pair stored |
| UnalignedUnit.StoreWordPart | src/cpu/mips_instructions.c:495-528 | SWL and SWR through the data cache are the byte-level store on the memory the CPU sees |
| UnalignedUnit.LoadWordPart | src/cpu/mips_instructions.c:458-493 | LWL and LWR through the data cache, the result sign-extended |
| UnalignedUnit.StoreDwordPart | src/cpu/mips_instructions.c:566-601 | SDL and SDR through the data cache |
| UnalignedUnit.LoadDwordPart | src/cpu/mips_instructions.c:530-564 | LDL and LDR through the data cache |
| UnalignedUnit.StoreThenLoadWord | src/cpu/mips_instructions.c:458-528 | SWL, SWR, LWR, LWL at any address return the sign-extended word, and no other byte has moved |
| AiSpec.Advance | src/interface/ai.c:78-89 | the split 13-bit address increment with a delayed carry is the address plus four modulo 2^24 |
| AiSpec.StepsAdd | src/interface/ai.c:100-105 | stepping by a and then b is stepping by a + b |
| AiSpec.AddressThenLength | src/interface/ai.c:8-20 | with a slot free, an address and a length start a DMA exactly if the length's low 18 bits are at least 8, both values rounded down to 8, and leave the playing DMA alone |
| AiRuns.DrainPlays | src/interface/ai.c:100-105 | the samples played are the whole periods passed, the last one kept back |
| AiSpec.CarriedStarts | src/interface/ai.c:78-79 | a DMA starts 0x2000 further on exactly when a carry is pending, and ends on the same offset of its 8 KiB frame |
| AiSpec.PlaysNext | src/interface/ai.c:78-97 | one sample plays the next word of the DMA, and the carry it leaves at the end says whether the DMA ended on an 8 KiB boundary |
| AiSpec.WriteLengthKeeps | src/interface/ai.c:13-20 | an accepted length adds its DMA to the schedule; a refused one changes nothing |
| AiSpec.SampleKeeps | src/interface/ai.c:72-98 | a sample plays one word of the schedule or silence, and each finished DMA raises one interrupt |
| AiRuns.PlaysTheSchedule | src/interface/ai.c:6-105 | on every run: at most two DMAs held, words played are the front of the accepted DMAs' schedule, interrupts plus held DMAs equal accepted lengths, and an idle unit has played length/4 words of each |
| AiRuns.AddressLostIff | src/interface/ai.c:6-105 | for any time and any period changes between address and length, the new DMA starts at the written address if fewer samples fell due than the playing DMA had words left, and otherwise at the old DMA's end |
| AiRuns.FullDropsAddress | src/interface/ai.c:8-12 | an address write is dropped while both slots are taken, and otherwise takes effect unless it changes nothing |
| AiUnit.AudioInterface.WriteDramAddress | src/interface/ai.c:8-12 | the address goes to the slot the next length will start |
| AiUnit.AudioInterface.WriteLen | src/interface/ai.c:13-20 | a non-zero length is accepted while fewer than two DMAs are held |
| AiUnit.AudioInterface.TakeSample | src/interface/ai.c:72-98 | the in-place sample as specified |
| AiUnit.AudioInterface.Step | src/interface/ai.c:100-105 | the loop runs the specified number of samples |
| Gf2.RunIsTheRemainder | src/mem/pif.c:431-449 | a bit-by-bit reducing register holds the one remainder of degree below the divisor's |
| Gf2.BurstIsDetected | src/mem/pif.c:431-449 | messages that differ only within n adjacent bits leave different remainders |
| JoybusCrc.ShiftedIsFeed | src/mem/pif.c:434-445 | one pass of the inner loop is one step of division by x^8+x^7+x^2+1 |
| JoybusCrc.CrcIsTheRemainder | src/mem/pif.c:431-449 | the CRC is the unique remainder of M(x)*x^8 |
| JoybusCrc.CrcAppended | src/mem/pif.c:431-449 | with a byte in place of the trailing zeros the remainder is zero exactly when the byte is the CRC |
| JoybusCrc.ChangedByteIsDetected | src/mem/pif.c:431-449 | blocks that agree except in one byte have equal CRCs only if they are equal |
| JoybusCrc.DataCrc | src/mem/pif.c:431-449 | the nested loops over 32 bytes and eight zero bits return that CRC |
| RomCrc.TableStepIsSerial | src/mem/n64rom.c:84-88 | a table lookup is eight bit times of the reflected register of section 8 of RFC 1952 |
| RomCrc.CrcContinues | src/mem/n64rom.c:60-91 | checksumming in two calls is checksumming the concatenation |
| RomCrcPolynomial.PolyIsStandard | src/mem/n64rom.c:76-77 | the constant, reflected, is x^32+x^26+...+1 less its leading term |
| RomCrcPolynomial.SerialIsRunTop | src/mem/n64rom.c:72-79 | the reflected register divides with the message bits entering at the top |
| RomCrcPolynomial.CrcIsFrameCheck | src/mem/n64rom.c:84-90 | the complement of the CRC of any buffer is the unique remainder of the message with 32 zeros appended and its first 32 bits complemented |
| RomCrcPolynomial.ChangedBytesAreDetected | src/mem/n64rom.c:60-91 | buffers that differ only within four adjacent bytes have different CRCs, whatever the starting value |
| RomCrcUnit.Checksum.BuildTable | src/mem/n64rom.c:69-82 | entry k is eight bit times of k |
| RomCrcUnit.Checksum.Crc32 | src/mem/n64rom.c:60-91 | the table-driven loop returns the bit-serial CRC and keeps the lazily built table right |
| Fifo.Npow2IsLeast | src/common/util.h:70-76 | the result is the least power of two not below the request |
| Fifo.MaskWraps | src/common/fifo.h:26-46 | anding an index, or a negative difference, with size - 1 wraps it into the ring |
| FifoRuns.SlotWraps | src/common/fifo.h:15-43 | both parts of a wrapped copy stay in bounds and follow the ring |
| FifoRuns.StepKeeps | src/common/fifo.h:15-52 | every byte copy and index update of either thread keeps the queue and the other thread's partial copy |
| FifoRuns.DeliveredInOrder | src/common/fifo.h:15-52 | under every interleaving bytes delivered are a prefix of bytes written, the difference is what is available, and available plus remaining is size - 1 |
| FifoRuns.WrittenIsPublished | src/common/fifo.h:26-27 | the bytes written are those of the buffers published, in order |
| FifoUnit.LaidAppends | src/common/fifo.h:15-28 | bytes laid in the free room append to the queue |
| FifoUnit.RingBuffer.constructor | src/common/fifo.h:63-73 | an empty ring of the least sufficient power of two |
| FifoUnit.RingBuffer.ReadAvailable | src/common/fifo.h:45-47 | the length of the queue |
| FifoUnit.RingBuffer.WriteRemaining | src/common/fifo.h:49-52 | with the queue's length it makes size - 1 |
| FifoUnit.RingBuffer.Write | src/common/fifo.h:15-28 | an in-capacity write appends its bytes |
| FifoUnit.RingBuffer.Read | src/common/fifo.h:30-43 | an in-availability read takes the oldest bytes and leaves the rest |
| Cic.ChallengeRecovered | src/contrib/cic_nus_6105/n64_cic_nus_6105.c:93-118 | the challenge is recovered from the response alone, for any length and starting state |
| Cic.ResponseReached | src/contrib/cic_nus_6105/n64_cic_nus_6105.c:93-118 | every nibble string is the response to some challenge |
| Cic.RespondStep | src/contrib/cic_nus_6105/n64_cic_nus_6105.c:106-108 | each answer is the key plus five times the nibble modulo 16, from key 11 and the first table |
| Cic.NextComplement | src/contrib/cic_nus_6105/n64_cic_nus_6105.c:95-116 | under the first table a complemented answer complements the next key about 13 and changes the table |
| Cic.NextOfSecond | src/contrib/cic_nus_6105/n64_cic_nus_6105.c:99-116 | the second table differs in four answers: the key moves by 6 and the next table is fixed |
| Cic.ResponseSplits | src/contrib/cic_nus_6105/n64_cic_nus_6105.c:107-117 | a longer challenge continues the response of its prefix from a state fixed by that response |
| Cic.ChallengeIsInvertible | src/mem/pif.c:562-585 | with the nibble split and join the map on byte blocks is a bijection |
| Cic.DistinctResponses | src/mem/pif.c:562-585 | two blocks have equal responses exactly when they are equal |
| Cic.Nus6105 | src/contrib/cic_nus_6105/n64_cic_nus_6105.c:93-118 | the loop with its key and table switches computes the specified response |
| Cic.CicChallenge | src/mem/pif.c:562-585 | the 15 bytes at 0x30 become their response and no other PIF RAM byte changes |

## Left out

- FPU arithmetic, the dynamic recompiler, rasterisation, VI timing, flash and save handling, the frontend and all I/O.
- Fatal exits (TLB index 32 and above, an exhausted event pool, display lists beyond the buffer, unimplemented cache and CP0 operations, a data-cache fill from outside RDRAM) are preconditions, except the TLB cache's own abort, which is an outcome.
- TLB: 64-bit addressing changes, Wired/Random-indexed writes and the fixed address segments are not modelled; the random victim way, the caller's cacheability flag and the uninitialised physical address of a failed walk are parameters; PageMask is its 12-bit field.
- TlbMeaning.WrittenPageAnswers: page masks that are none of the seven sizes after the pairs are normalised (0x00C, say) are left out, since their pages have no parity; the walk itself is modelled for them.
- Interrupts: BEV is taken as clear, and EPC, branch-delay bookkeeping, exception vectors and the mode bits of Status are left out; IP, IM and MI line bits are sets of their set bits. What the device handlers do besides their lines and events is left out.
- Interrupts: cycles stalled on the PI bus advance the scheduler but not Count; a clock step advances both alike. Whether a half-line raises its line and when the next one ends come from the video timing, as parameters; the reset event's handler is left out.
- InterruptDelivery.DeliverableIsTaken: the steps together stay below 2^33 cycles and the 64-bit clock does not wrap, nothing but the clock and the handlers acts between them, and a half-line that ends is queued at least two cycles off (the source's half-lines last thousands).
- EventQueue.RunDeliversInOrder: absolute enqueues in the past are excluded, since the source then delivers an event late but earlier in the list.
- RdpSubmission.SplittingIsInvisible: the word source is not switched between RDRAM and RSP memory while words wait; which words are then fetched depends on both memories.
- Display lists read past the 8 MiB of RDRAM are excluded; counters and busy flags of the DPC status are left out; the renderer is an append to a log.
- RSP: VRCP, VRSQ, VMULF/VMULU/VMACF/VMACU, VCR, the logical operations, loads and stores are left out. The vector instructions share one lane loop, the element order of the arrays is normalised, and a flag lane is a truth value instead of all ones or zeros.
- RspCompare.ClipTest: the lower flag is stated with its exception at S = T = 0, as the code computes it.
- Data cache: accesses are cached and aligned, and virtual and physical addresses agree within a page; a line is a value in an array updated in place, so its bytes have no identity of their own; the unused index field of a line, Index_Store_Tag, the instruction cache and DMA or uncached writes behind the cache are left out. In builds with INSTANT_DMA the CACHE instruction does nothing.
- Swizzle.ReadIsBigEndian: the little-endian host is modelled; address flips by exclusive or are written arithmetically, and values are byte strings, most significant byte first.
- Unaligned accesses are modelled where translation succeeds; the register file and the TLB exception path are left out. Uncached RDRAM accesses obey the same laws through Swizzle.
- AiSpec.StepsAdd: cycle counts are natural numbers, so overflow of the 32-bit counter is not modelled; the sample period is a parameter (it comes from a floating-point frequency), and the DAC rate, bit rate and enable registers, which do not affect sampling, are left out.
- FifoRuns.DeliveredInOrder: index updates are atomic and bytes are copied one by one, in order; the weaker memory orders of a real machine are left out, and callers keep writes within the remaining room and reads within what is available.
- FifoUnit.RingBuffer.constructor: requests above 2^30, which do not fit a signed size, are excluded.
- Joybus commands around the CRC, ROM loading and byte order detection around the CRC-32, and printing in the CIC challenge are left out.
