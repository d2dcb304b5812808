# Verified models of Cheat Engine's low-level core

Dafny models of the kernel driver (DBKKernel), the Linux/Android debug server (ceserver) and the hypervisor loader
(dbvm), with proofs about them. Each component is one or a few modules:

| component | modules |
|---|---|
| page-table walk, accessed-page list, region query (DBKKernel/memscan.c) | Paging, PageWalk, AccessedPages, RegionQuery |
| debug-event state machine of ceserver | ThreadList, DebugProtocol, DebugSafety, DebugOutcomes, DebugServer |
| memory writes by words of ceserver | WordPoke |
| Ultimap block pool (DBKKernel/ultimap.c) | BlockPool |
| Ultimap2 output tables and double buffer (DBKKernel/ultimap2.c) | TopaTable, TopaSwap |
| kernel breakpoint handshake, virtual debug registers (DBKKernel/debugger.c) | BreakHandshake, DebugRegisters |
| re-entrant spin lock, number printing and parsing (dbvm/vmm/common.c) | SpinLock, Numbers |
| boot memory map (dbvm/vmloader/vmloaderc.c) | MemoryMap |

`dafny verify dfyconfig.toml` checks everything. Arithmetic holds the division lemmas the address arithmetic needs, Wrappers
the option type.

Code that changes state in place is modelled by classes and methods with loops (the scanner, the region query, the server's
process record and thread table, the word writer, the table setup, the debug-register epilogue, the number routines, the map
rewrite); each is proved against a function or predicate on values, and the main results are lemmas about those. Protocols
between several threads, CPUs or hardware are state machines whose steps are single reads, writes, waits and signals; the main
results about them quantify over every finite sequence of steps, that is, every interleaving.

## Where the code does not do what one would expect

Each of these is proved, with the exact condition under which the code does meet the property:

- `GetMemoryRegionData` counts 4096 bytes for every large page after the first span; the size is exact if and only if no
  large page starts there (`RegionQuery.SizeIsExact`, `RegionQuery.LaterLargePageMiscounted`).
- A wait for one thread that ends because an old event of that thread is still queued marks a running thread as paused; a
  later suspend then dereferences a null pointer. The server loses track of a thread if and only if this happens to that
  thread (`DebugSafety.StepKeepsTrack`, `DebugSafety.StaleWakeCrashes`).
- A suspended thread whose event is current keeps it current when it is resumed. If it then hits a breakpoint and is
  suspended again before the client continues, the old SIGSTOP event is held again, and the resume continues the thread out
  of the breakpoint. A stop ends by a resume if and only if that resume is the last and holds a SIGSTOP event
  (`DebugOutcomes.StopEnds`, `DebugOutcomes.ResumeEndsBreakpoint`).
- `RemoveBreakpoint` reads the record of the thread without checking that there is one: a server that
  has lost track of no thread crashes if and only if it removes a breakpoint from a thread that is not in the list
  (`DebugSafety.StepKeepsInv`, `DebugSafety.UnknownThreadCrashes`).
- `WriteProcessMemory` counts whole words as written even when the poke failed; the count is right if and only if every
  word before the last is mapped (`WordPoke.ReportedIsStored`, `WordPoke.FailedWordIsCounted`).
- The debug-register emulation takes the prefixes 0x65, 0x67 and 0xF3 for REX.B; the general register is decoded right if
  and only if none of them is there (`DebugRegisters.DecodeEncode`, `DebugRegisters.SegmentPrefixMisread`).
- `appendzero` before a digit x makes `atoi` see a base mark; padding keeps the value if and only if it is not a single zero
  before an x (`Numbers.PaddedParses`, `Numbers.PaddedMarkExample`).
- `atoi` applies a minus sign once per digit; the value is right if and only if every second digit is zero
  (`Numbers.MinusParses`, `Numbers.MinusTwelve`).
- The output tables of a buffer whose size is not a multiple of 4096 also cover what lies behind it
  (`TopaSwap.OutputInsideBuffer`).
- `atoi` reports a bad character at position 0 as 0, which is also success (`Numbers.ErrorAtZero`).
- The memory map loses its end mark when the carved area is inserted as a new entry, and a reserved neighbour above 4GB is
  moved; exact conditions in `MemoryMap.EndMarkKept` and `MemoryMap.ExtendedExactly`, examples in `MemoryMap.EndMarkLost` and
  `MemoryMap.HighNeighbourIsMoved`.

Two readings of the source: `tl.index = tl.index++` (DBKKernel/ultimap2.c:1182) is taken as the intended increment, and
`Buffer2ReadyForSwap` is a manual-reset event as DBKKernel/ultimap2.c:1361 creates it.

## Model

| member | source | states |
|---|---|---|
| Paging.SelfMapReads | DBKKernel/memscan.c:580-590 | For every address, every table contents in which the walk of the address meets no 1GB page, and every upper-half 512GB-aligned self-map base: the pointer formula applied 1 to 4 times reads the PTE, PDE, PDPTE and PML4E that the processor uses for the address, and the read faults exactly when a level above is missing |
| Paging.SelfMapRoundTrip | DBKKernel/memscan.c:870-871 | The SignExtend inverse applied k times to the level-k pointer gives the address rounded down to the span of one level-k entry, for k = 1 to 4 |
| Paging.PageOfEntryShape | DBKKernel/memscan.c:438-448 | One inverse step from the k-th entry of the self-map is the sign-extended address of page k |
| Paging.EntryPointerShape | DBKKernel/memscan.c:832-843 | One application of the pointer formula lands on the table page and slot of the address, without wrapping |
| Paging.PointerReads | DBKKernel/memscan.c:580-583 | One application of the formula to any address reads its PTE, and faults exactly when a level above is missing |
| PageWalk.LookUp | DBKKernel/memscan.c:580-632 | The driver's reads through the self-map never fault and find what the processor's walk finds |
| PageWalk.Scanner.Call | DBKKernel/memscan.c:684-704 | The two callbacks change the list, the counter and the accessed bits as their specification says |
| PageWalk.Scanner.Visit | DBKKernel/memscan.c:597-642 | One turn of the walk calls back on the leaf under the cursor, if any, and moves the cursor to the successor page with 64-bit wrap-around |
| PageWalk.SuccessorSkips | DBKKernel/memscan.c:597-642 | A jump of 512GB, 1GB, 2MB or 4KB passes over no page that starts a present leaf |
| PageWalk.SpanUniform | DBKKernel/memscan.c:597-630 | All pages of the span of a missing entry or a large page walk to the same end |
| PageWalk.NeverLandsInsideLarge | DBKKernel/memscan.c:597-630 | The cursor never lands inside a large page, so a large page is always reported from its aligned base |
| PageWalk.Scanner.WalkPagingLayout | DBKKernel/memscan.c:570-643 | For every limit, with no 1GB page below it, the skipping walk terminates and leaves the state that one callback per present leaf, page by page below the limit, would leave; it changes only accessed bits |
| PageWalk.Scanner.EnumAllAccessedPages | DBKKernel/memscan.c:708-725 | The list is what collecting over all user leaves gives, and the result is 16 bytes for each entry of that list |
| PageWalk.Scanner.MarkAllPagesAsNeverAccessed | DBKKernel/memscan.c:756-774 | The memory is what clearing over all user leaves gives |
| PageWalk.Scanner.GetAccessedPageList | DBKKernel/memscan.c:727-754 | The buffer receives as many entries as fit, all of them if it has the size the enumeration returned, and nothing beyond; the list is freed |
| AccessedPages.LeavesAscend | DBKKernel/memscan.c:574-643 | The leaves are reported in ascending order, each once, none overlapping another |
| AccessedPages.CallbacksAreTheLeaves | DBKKernel/memscan.c:574-643 | Below a 2MB-aligned limit an address is in a reported leaf if and only if it is mapped, and the leaf's entry is the one the processor uses |
| AccessedPages.StoreAdds | DBKKernel/memscan.c:684-704 | Storing a range above all others keeps the list descending, disjoint and never adjacent and adds exactly the range |
| AccessedPages.EnumerationIsExact | DBKKernel/memscan.c:684-725 | After enumeration the list is descending, disjoint and never adjacent, its counter is its length, it covers exactly the addresses whose leaf has the accessed bit, and it is the only such list |
| AccessedPages.UserEnumeration | DBKKernel/memscan.c:708-725 | The list the driver enumerates covers exactly the accessed addresses below 8TB (0x80000000000) |
| AccessedPages.CanonicalUnique | DBKKernel/memscan.c:684-704 | A descending list with gaps is determined by the addresses it covers |
| AccessedPages.MarkClears | DBKKernel/memscan.c:756-774 | Marking clears the accessed bit of exactly the leaf entries visited and changes nothing else |
| AccessedPages.MarkThenEnumerate | DBKKernel/memscan.c:708-774 | Mark, let the processor touch any set of entries, enumerate: the list covers exactly the addresses below the limit whose leaf entry was touched in between |
| RegionQuery.SpanBase | DBKKernel/memscan.c:1012-1055 | Coming down the self-map from the deciding entry gives the first address of its span |
| RegionQuery.NextPte | DBKKernel/memscan.c:1029-1071 | Stepping the deciding entry and coming back down gives the PTE pointer of the page after the span |
| RegionQuery.FirstSpan | DBKKernel/memscan.c:865-878 | Base and size of the first span, measured from the queried address |
| RegionQuery.Absorb | DBKKernel/memscan.c:848-1073 | A span of the same kind extends the run, a span of another kind ends it and changes nothing |
| RegionQuery.GetMemoryRegionData | DBKKernel/memscan.c:776-1078 | Every page of the reported region has the reported protection; the protection is ExecuteReadWrite if and only if the address is mapped by a 4KB or 2MB leaf with RW set, ExecuteRead if and only if by one without, NoAccess if and only if by neither; the region ends at a page that differs or at the last PTE, the base is the start of the first span, and the size is the run less 2MB-4KB per later large page |
| RegionQuery.RegionTypeMeans | DBKKernel/memscan.c:902-917 | The same three equivalences hold at every page of the region, each read off that page's own leaf entry |
| RegionQuery.SizeIsExact | DBKKernel/memscan.c:879-891 | The reported size is the exact run if and only if no large page starts after the first span |
| RegionQuery.LaterLargePageMiscounted | DBKKernel/memscan.c:879-891 | Two neighbouring large pages of one protection: a run of 4MB for which the size comes out as 2MB + 4096 |
| ThreadList.ThreadTable.constructor | Cheat Engine/ceserver/threads.c:13-22 | The table starts empty |
| ThreadList.ThreadTable.AddThreadToProcess | Cheat Engine/ceserver/threads.c:24-44 | The new thread is appended, also when the array has to grow |
| ThreadList.ThreadTable.GetThreadData | Cheat Engine/ceserver/threads.c:65-73 | The first thread with the id, or none if no thread has it |
| ThreadList.ThreadTable.RemoveThreadFromProcess | Cheat Engine/ceserver/threads.c:46-63 | The first thread with the id is removed and the others keep their order; nothing happens if there is none |
| ThreadList.RemoveKeepsOthers | Cheat Engine/ceserver/threads.c:46-63 | After a removal every other thread is found with the same record, and the removed one is not found |
| DebugServer.ProcessData.FindPausedThread | Cheat Engine/ceserver/api.c:171-182 | Finds a paused thread if there is one |
| DebugServer.ProcessData.FindThreadDebugEventInQueue | Cheat Engine/ceserver/api.c:1482-1507 | The first queued event of the thread, or none |
| DebugServer.ProcessData.RemoveThreadDebugEventFromQueue | Cheat Engine/ceserver/api.c:1447-1480 | The first queued event of the thread is removed |
| DebugServer.ProcessData.WaitForThread | Cheat Engine/ceserver/api.c:1537-1735 | A wait for one thread marks it paused and returns its stop, or takes a queued event and the stop signal |
| DebugServer.ProcessData.WaitForDebugEvent | Cheat Engine/ceserver/api.c:1738-1872 | The current event if there is one, else the oldest queued one, else a new stop, takes the protocol step |
| DebugServer.ProcessData.ContinueFromDebugEvent | Cheat Engine/ceserver/api.c:1875-1981 | Takes the protocol step of a continue, with all its early returns |
| DebugServer.ProcessData.SuspendThread | Cheat Engine/ceserver/api.c:1241-1345 | Takes the protocol step of a suspend, including the null dereference, and returns the new count |
| DebugServer.ProcessData.ResumeThread | Cheat Engine/ceserver/api.c:1350-1445 | Takes the protocol step of a resume |
| DebugServer.ProcessData.PauseFor | Cheat Engine/ceserver/api.c:779-801 | The temporary pause of breakpoint edits and context reads takes its protocol step |
| DebugServer.ProcessData.AccessMemory | Cheat Engine/ceserver/api.c:2261-2377 | The temporary pause of debugged memory access takes its protocol step |
| DebugSafety.AttachedInv | Cheat Engine/ceserver/api.c:252-403 | The state after attaching satisfies the invariant |
| DebugSafety.StepKeepsInv | Cheat Engine/ceserver/api.c:1241-1445 | From a state in which the server tracks every thread (each paused thread is stopped and the event of that stop, by number, is current, queued or held by a suspension; each reaped stop is marked) a command crashes it if and only if it removes a breakpoint from an unknown thread; otherwise all threads stay tracked if and only if it is not woken by a stale event |
| DebugSafety.StepKeepsTrack | Cheat Engine/ceserver/api.c:1241-1445 | The server loses track of a thread exactly when a wait for that very thread is ended by a stale event; commands about other threads, stale or not, do not matter |
| DebugSafety.StepKeepsSane | Cheat Engine/ceserver/api.c:1241-1445 | Every command, stale or not, keeps the records in order: threads distinct, suspended threads marked paused and holding an event of their own, no number given out twice |
| DebugSafety.NewStopIsNew | Cheat Engine/ceserver/api.c:1528-1535 | A stop that begins now has a number that no event in flight has, so an event in flight is the event of one stop only |
| DebugSafety.SuspendFindsEvent | Cheat Engine/ceserver/api.c:1269-1307 | The queue lookup of a suspend finds an event for every thread the server tracks |
| DebugSafety.NoStopIsLost | Cheat Engine/ceserver/api.c:1537-1735 | For every thread, over every run that has not crashed and in which no wait for that thread was ended by a stale event, whatever happened to others: as long as it is marked paused it is stopped and the event of that stop is current, queued or held, and suspending it finds its event; what may end the stop is in DebugOutcomes |
| DebugSafety.OnlyUnknownCrashes | Cheat Engine/ceserver/api.c:1241-1445 | Over every run without any stale wake the server crashes if and only if a breakpoint is removed from an unknown thread |
| DebugSafety.UnknownThreadCrashes | Cheat Engine/ceserver/api.c:896-897 | Removing a breakpoint from a thread that is not in the list crashes a freshly attached server |
| DebugSafety.StaleWakeCrashes | Cheat Engine/ceserver/api.c:1537-1735 | A concrete run in which a stale wake leads to the null dereference |
| DebugSafety.StepKeepsSuspended | Cheat Engine/ceserver/api.c:1905-1909 | No command but its own suspend and resume changes the count or the stop of a suspended thread, stale wakes of other threads included |
| DebugSafety.SuspendedStaysStopped | Cheat Engine/ceserver/api.c:1241-1445 | Over every run that does not crash, stale wakes of other threads included: while suspends outnumber resumes the count is exactly the balance and the thread stays paused in the very same stop, by number |
| DebugSafety.SuspendFreezes | Cheat Engine/ceserver/api.c:1269-1307 | A first suspend really stops the thread if and only if its own wait is not ended by a stale event |
| DebugOutcomes.PauseOutcome | Cheat Engine/ceserver/api.c:779-801 | A pause for a breakpoint edit or context read whose wait returns SIGSTOP leaves the thread running and the queue as it was; with any other signal the thread stays in that very stop and its event is the last in the queue |
| DebugOutcomes.PauseDequeuedOutcome | Cheat Engine/ceserver/api.c:779-801 | The same when the wait was ended by a queued event of a thread that has stopped: the queued event is replaced by the event of the stop, or the thread runs again |
| DebugOutcomes.AccessOutcome | Cheat Engine/ceserver/api.c:2261-2377 | Debugged memory access with no thread paused: the thread whose stop was taken runs again if SIGSTOP stopped it, otherwise it stays stopped and its event is queued |
| DebugOutcomes.WaitOutcome | Cheat Engine/ceserver/api.c:1738-1872 | The client gets the outstanding event again, else the queue in order, else the new stop, whose thread is then marked paused |
| DebugOutcomes.StopIsReported | Cheat Engine/ceserver/api.c:1738-1872 | A signal that stops a thread while nothing is outstanding becomes the current event, with that thread and signal; no other stop of the thread can be reported instead |
| DebugOutcomes.ContinueOutcome | Cheat Engine/ceserver/api.c:1875-1981 | Continuing a stopped thread that is not suspended makes it run and uses the event up; a thread that has died is forgotten |
| DebugOutcomes.ContinueWithoutEffect | Cheat Engine/ceserver/api.c:1875-1981 | In all other cases threads, kernel and queue stay as they are, and the event is used up if and only if it was made up or its thread is unknown |
| DebugOutcomes.SuspendPausedOutcome | Cheat Engine/ceserver/api.c:1269-1307 | A first suspend of a paused thread keeps its stop and holds an event of it: the current one, which also stays current, or one taken from the queue |
| DebugOutcomes.SuspendRunningOutcome | Cheat Engine/ceserver/api.c:1309-1345 | A first suspend of a running thread holds the event of the stop it waited for |
| DebugOutcomes.ResumeOutcome | Cheat Engine/ceserver/api.c:1374-1402 | An inner resume only counts down; the last one makes the thread run if the held event is a SIGSTOP, otherwise keeps it stopped and queues the held event |
| DebugOutcomes.StopEnds | Cheat Engine/ceserver/api.c:1241-1445 | A command ends the stop a thread is in if and only if it is one of: the client's continue of that thread while it is not suspended, its last resume while it holds a SIGSTOP event, or a temporary pause that finds the thread in a SIGSTOP stop and not marked paused |
| DebugOutcomes.BreakpointStopKept | Cheat Engine/ceserver/api.c:785-792 | Over every run that does not crash a thread stopped by anything but SIGSTOP stays in that very stop until the client continues it or a last resume finds a held SIGSTOP event |
| DebugOutcomes.ResumeEndsBreakpoint | Cheat Engine/ceserver/api.c:1374-1402 | A run of six commands after which a thread has been resumed out of a breakpoint the client was not told about |
| WordPoke.Target.Peek | Cheat Engine/ceserver/api.c:2200-2200 | A peek returns the word if it is mapped |
| WordPoke.Target.PokeRest | Cheat Engine/ceserver/api.c:2196-2220 | The read-modify-write stores the last bytes and keeps the rest of the word |
| WordPoke.Target.WriteProcessMemory | Cheat Engine/ceserver/api.c:2176-2220 | For every size and memory: bytes in mapped words become the buffer's, every other byte stays; the returned count is as specified |
| WordPoke.WholeWrite | Cheat Engine/ceserver/api.c:2179-2220 | If every poke succeeds exactly the requested bytes become the buffer and the count is the size |
| WordPoke.PartialWrite | Cheat Engine/ceserver/api.c:2185-2220 | Each byte of the buffer is in memory afterwards if and only if the word of the write it lies in is mapped; otherwise what was there stays |
| WordPoke.ReportedIsStored | Cheat Engine/ceserver/api.c:2184-2193 | The returned count is the number of bytes stored if and only if every word before the last is mapped |
| WordPoke.FailedWordIsCounted | Cheat Engine/ceserver/api.c:2184-2193 | A write of nine bytes that stores one reports nine |
| BlockPool.StepKeepsInv | DBKKernel/ultimap.c:152-320 | Every single step of any producer or consumer keeps the pool invariant |
| BlockPool.PoolSafety | DBKKernel/ultimap.c:281-320 | In every interleaving the available blocks are exactly the free semaphore slots plus producers still picking plus consumers about to post; a producer past the semaphore always finds a block; the semaphore stays within its limit |
| BlockPool.ScanKeepsInv | DBKKernel/ultimap.c:296-309 | The scan for an available block never runs past the end |
| BlockPool.HandedOverStays | DBKKernel/ultimap.c:109-128 | While user mode works on it a delivered block is unavailable, still holds the item and is with one consumer only |
| BlockPool.FilledBlockKept | DBKKernel/ultimap.c:310-320 | In every interleaving, from the setting of its event until its continue a block is unavailable and no step changes its data or size |
| BlockPool.ItemsConserved | DBKKernel/ultimap.c:109-320 | Items received, stored in blocks and carried by producers are exactly those produced; at rest everything produced has been received |
| BlockPool.ProducerOffers | DBKKernel/ultimap.c:281-320 | A producer that finds the semaphore positive and the mutex free ends with its item, data and size, in a block that is offered |
| BlockPool.ConsumerGets | DBKKernel/ultimap.c:152-192 | A waiting consumer given an offered block receives exactly the item in it and frees the mutex |
| BlockPool.GivesBack | DBKKernel/ultimap.c:109-128 | The continue makes the block available and raises the semaphore by one |
| BlockPool.InitialSums | DBKKernel/ultimap.c:674-702 | The initialised pool balances |
| TopaTable.SetupToPA | DBKKernel/ultimap2.c:1149-1222 | For every nonzero 32-bit size the entries fit the allocated header, entries, links, stop and interrupt bits are as laid out, and the lookup table has exactly the tables of the chain with their positions |
| TopaTable.FillEntries | DBKKernel/ultimap2.c:1171-1194 | The fill loop never leaves the header and ends on a data entry |
| TopaTable.SetInterrupts | DBKKernel/ultimap2.c:1209-1222 | Interrupt bits on the first chosen entry and every second data entry after it, before the last two |
| TopaTable.EntryFits | DBKKernel/ultimap2.c:913-923 | Every entry needed lies in the 1 + pages / 511 tables allocated, links included |
| TopaTable.HeaderTight | DBKKernel/ultimap2.c:913-923 | The header count is at most one table more than the entries need |
| TopaTable.FirstInterrupt | DBKKernel/ultimap2.c:1198-1209 | The first interrupt is at 90% less at most one, before the last entry if there is more than one, and not on a link |
| TopaTable.ChainVisitsPages | DBKKernel/ultimap2.c:1171-1194 | Following the links the hardware visits output pages 0 to n-1 once each and in order, and stops after the last |
| TopaTable.MarksOnPages | DBKKernel/ultimap2.c:1196-1222 | Stop and interrupt bits are on data entries only, and an interrupt precedes the stop if there is more than one entry |
| TopaTable.InterruptsAlternate | DBKKernel/ultimap2.c:1209-1222 | From the first interrupt on, of two neighbouring data entries exactly one has the interrupt bit, across a link the pattern goes on as if the link counted, and the last entry has none |
| TopaTable.SavedSizeIsFlatOffset | DBKKernel/ultimap2.c:331-342 | For every page and offset the size expression gives the flat byte offset in the output buffer, using the recorded table positions |
| TopaTable.SavedSizeAtLink | DBKKernel/ultimap2.c:331-342 | A position on the link entry gives the same size as the start of the next table |
| TopaSwap.StepKeepsInv | DBKKernel/ultimap2.c:489-578 | Every single step of hardware, DPC, writer and swapper keeps the swap invariant |
| TopaSwap.RegistersGiveSize | DBKKernel/ultimap2.c:331-342 | At every position in a chain as set up, the writer's size expression on the output base and mask registers gives the number of bytes put out |
| TopaSwap.TargetIsPosition | DBKKernel/ultimap2.c:1171-1194 | The page entry and offset the hardware is at address the byte at its flat position |
| TopaSwap.OutputInsideBuffer | DBKKernel/ultimap2.c:1153-1190 | Every byte put out lies in the buffer if and only if its size is a multiple of 4096 |
| TopaSwap.BuffersDiffer | DBKKernel/ultimap2.c:535-573 | In every run the buffer being filled and the buffer being saved differ, buffer, MDL, header and lookup table move together, and the saved output base, in whichever table of the chain it lies, is always found with the number of bytes put out as its size |
| TopaSwap.SavedIsTrace | DBKKernel/ultimap2.c:315-387 | In every run the saved segments concatenate to the beginning of the trace, the rest is in the buffer being saved and then in the one being filled; once the writer rests and the hardware is rewound all is saved |
| TopaSwap.StepKeepsTracing | DBKKernel/ultimap2.c:473-578 | Whether tracing is on, read from the control register outside a DPC and from the remembered value inside, is changed by no step but a toggle |
| TopaSwap.TracingIsToggles | DBKKernel/ultimap2.c:473-578 | Over every run tracing outside a DPC is on if and only if it was toggled an even number of times |
| TopaSwap.EmitRecords | DBKKernel/ultimap2.c:473-578 | While tracing is on and the buffer has room a byte put out joins the trace |
| TopaSwap.FlushSavesAll | DBKKernel/ultimap2.c:489-603 | From every reachable state with the swapper at its wait and the other buffer ready, one round of swapper, DPC and writer saves the whole trace, leaves tracing as it was and the buffer ready for the next round |
| BreakHandshake.StepKeepsInv | DBKKernel/debugger.c:636-719 | Every single step of any breaking thread or the debugger keeps the handshake invariant |
| BreakHandshake.OneInSection | DBKKernel/debugger.c:636-710 | For any number of threads, at most one is in the break section |
| BreakHandshake.SavedStateBelongsToBlocked | DBKKernel/debugger.c:651-668 | Between report and continue the saved stack pointer, registers, branch records, FPU state and thread id are those of one thread that is blocked on the continue |
| BreakHandshake.EachBreakHandledOnce | DBKKernel/debugger.c:390-424 | Each break is reported once, in order and with its own state, and returns exactly the handled flag and frame the debugger gave for it |
| BreakHandshake.DebuggerKeepsInv | DBKKernel/debugger.c:528-600 | Whatever the debugger does to saved state concerns the blocked thread only |
| BreakHandshake.EditReaches | DBKKernel/debugger.c:528-600 | In every run an edit while a break is being handled sets exactly the frame of the thread that was reported |
| BreakHandshake.QuietBetweenHits | DBKKernel/debugger.c:636-719 | In every run the handshake is back at rest whenever no thread is in the section |
| BreakHandshake.HitIsHandled | DBKKernel/debugger.c:636-719 | From rest a break is reported with its own state, and after the debugger's edit and continue the thread returns with exactly that frame and flag and the handshake is at rest again |
| DebugRegisters.Cpu.constructor | DBKKernel/debugger.c:190-199 | The guest's registers start as those in hardware |
| DebugRegisters.Cpu.HandleAccess | DBKKernel/debugger.c:813-1094 | A guest read of DR0 to DR3 returns the guest's value in the decoded register (in none if it decodes above 15), a write sets it, other opcodes change nothing, execution continues after the instruction, and the hardware holds the overlay |
| DebugRegisters.Decode | DBKKernel/debugger.c:813-831 | The loops find the opcode after the prefixes, the debug register and the general register |
| DebugRegisters.DecodeEncode | DBKKernel/debugger.c:813-831 | For every debug register, general register and choice of prefixes the length and debug register are decoded right, and the general register if and only if no prefix is 0x65, 0x67 or 0xF3 |
| DebugRegisters.SegmentPrefixMisread | DBKKernel/debugger.c:821-829 | A GS prefix makes an access to RAX look like one to R8 |
| DebugRegisters.Cpu.Epilogue | DBKKernel/debugger.c:1413-1494 | The k-th active breakpoint is in the k-th slot the guest leaves free, as many as there are of both; every other slot is as the guest left it |
| DebugRegisters.Cpu.PlaceOne | DBKKernel/debugger.c:1433-1487 | The inner loop takes the next free slot for one breakpoint or finds that the slots ran out |
| DebugRegisters.ArmedCount | DBKKernel/debugger.c:1424-1494 | The slots the debugger uses number min(active breakpoints, free slots) |
| DebugRegisters.AllArmed | DBKKernel/debugger.c:1424-1494 | If the active breakpoints are at most the slots the guest leaves disabled, every active breakpoint has such a slot with its address, local bit set and global clear, RW its type and LEN its length |
| DebugRegisters.UsedSlotsWatch | DBKKernel/debugger.c:1448-1487 | Any two slots the debugger uses watch two different active breakpoints, each with address, type and length of its own |
| DebugRegisters.GuestSlotsUntouched | DBKKernel/debugger.c:1443-1443 | Slots the guest has enabled keep its address and control in hardware |
| DebugRegisters.GuestSeesItsOwn | DBKKernel/debugger.c:837-1047 | Over every sequence of guest accesses and breakpoint edits guest reads return the last value written, and enabled slots keep the guest's address in hardware at every moment |
| SpinLock.StepKeepsInv | dbvm/vmm/common.c:379-413 | Every single read or write of any CPU keeps the lock invariant |
| SpinLock.StrangerStep | dbvm/vmm/common.c:383-412 | A CPU that does not own the lock never passes the "already mine" test, and can change the lock only by taking it when it is free; its leaves do nothing |
| SpinLock.OwnerStep | dbvm/vmm/common.c:402-411 | The owner keeps the lock fields in order, and frees the lock only with enters and leaves balanced |
| SpinLock.MutualExclusion | dbvm/vmm/common.c:379-413 | For any number of CPUs in every interleaving: at most one inside, the "already mine" test succeeds exactly for CPUs inside, nobody waits for itself, and the lock is dropped only when balanced |
| SpinLock.QuietLock | dbvm/vmm/common.c:397-413 | When no CPU is in the routines the lock is held if and only if some CPU's enters outnumber its leaves, and records that CPU and the difference |
| SpinLock.EntersFreeLock | dbvm/vmm/common.c:379-395 | A CPU that runs alone enters a free lock, which then records it with count one |
| SpinLock.EntersAgain | dbvm/vmm/common.c:379-395 | The holder enters again without waiting and the count goes up by one |
| SpinLock.LeavesInner | dbvm/vmm/common.c:397-413 | A leave that is not the last only counts down |
| SpinLock.LeavesLast | dbvm/vmm/common.c:397-413 | The last leave frees the lock with owner -1 and count zero |
| Numbers.Itoa | dbvm/vmm/common.c:607-649 | The buffer holds the digits, or what fits of them; return value, wrong bases and untouched bytes as in the code |
| Numbers.ReversedDigits | dbvm/vmm/common.c:627-636 | The digits in reverse, as many as fit |
| Numbers.AppendZero | dbvm/vmm/common.c:483-507 | The string is padded with zeros to the wanted width, or unchanged if it does not fit |
| Numbers.Power | dbvm/vmm/common.c:507-519 | The power modulo 2 to the 64 |
| Numbers.Atoi | dbvm/vmm/common.c:521-605 | The value of the digits after the last bad character, which is the reported error; prefixes change base and start; modulo 2 to the 64, and with the sign applied once per digit after minus signs |
| Numbers.ValueDigits | dbvm/vmm/common.c:607-649 | The digits of a number in a base stand for that number |
| Numbers.AtoiItoa | dbvm/vmm/common.c:521-649 | For every 32-bit value and base 2 to 36, parsing what was printed gives the value without error if and only if the buffer had room for the digits and the terminator (or the value is zero) |
| Numbers.MarkedHex | dbvm/vmm/common.c:545-566 | "0x" or "$" before any hexadecimal digits gives their value modulo 2 to the 64, whatever base was asked for |
| Numbers.DigitCodes | dbvm/vmm/common.c:571-633 | Digits are printed as 0 to 9 and a to z, and read in lower and upper case |
| Numbers.PrintedNotNegative | dbvm/vmm/common.c:545-566 | Nothing printed is read as negative |
| Numbers.MinusParses | dbvm/vmm/common.c:594-597 | A minus sign before a printed number below 2 to the 31 is read right if and only if every second digit is zero |
| Numbers.MinusTwelve | dbvm/vmm/common.c:594-597 | Minus twelve is read as minus eight |
| Numbers.PaddedHex | dbvm/vmm/common.c:483-507 | Hexadecimal output padded to width 8 has exactly eight places and parses to the same value |
| Numbers.PaddedParses | dbvm/vmm/common.c:483-507 | In every base zeros in front leave the value read unchanged if and only if it is not a single zero before a digit x |
| Numbers.PaddedMarkExample | dbvm/vmm/common.c:559-563 | 33 in base 34, padded to width two, is read as zero |
| Numbers.ErrorAtZero | dbvm/vmm/common.c:569-601 | An error is reported as success if and only if the first character, with nothing in front, is the only bad one |
| Numbers.ErrorAtZeroExample | dbvm/vmm/common.c:569-601 | Every single character that is not a digit is parsed as zero without an error |
| MemoryMap.ChooseRegion | dbvm/vmloader/vmloaderc.c:181-201 | The first of the usable regions of at least 8MB that end highest below 4GB, or none if there is none |
| MemoryMap.ChoiceIsHighest | dbvm/vmloader/vmloaderc.c:181-201 | The chosen region is of type 1, at least 8MB long and ends below 4GB; no other such region ends higher, and none before it ends as high |
| MemoryMap.AdjustMap | dbvm/vmloader/vmloaderc.c:215-288 | The list becomes the rewritten list in place: merged into a reserved neighbour or with one entry inserted |
| MemoryMap.ShiftUp | dbvm/vmloader/vmloaderc.c:275-276 | The entries after the chosen one move up by one |
| MemoryMap.LoadMap | dbvm/vmloader/vmloaderc.c:181-288 | Choice and rewrite together: which region, where the carved area starts, and the whole memory of the list afterwards, end mark included |
| MemoryMap.EndMarkKept | dbvm/vmloader/vmloaderc.c:215-288 | The new list ends with an end mark (all fields zero, type 255) if and only if the carved area was merged or memory happened to hold a mark behind the old one |
| MemoryMap.EndMarkLost | dbvm/vmloader/vmloaderc.c:274-285 | A map with one usable region has no end mark afterwards |
| MemoryMap.CarvedInside | dbvm/vmloader/vmloaderc.c:242-249 | The carved start is 4MB-aligned, above the region's base, at least 4MB and less than 8MB below its end |
| MemoryMap.OthersKept | dbvm/vmloader/vmloaderc.c:260-288 | All other entries are kept in order, and no usable entry is added |
| MemoryMap.UsableAfter | dbvm/vmloader/vmloaderc.c:242-288 | Usable memory afterwards is the old usable memory without the carved area at exactly the addresses where no other usable entry meets the carved area, so everywhere if usable regions are disjoint |
| MemoryMap.InsertedReserves | dbvm/vmloader/vmloaderc.c:279-283 | An inserted entry reserves exactly the carved area |
| MemoryMap.ExtendedExactly | dbvm/vmloader/vmloaderc.c:262-267 | The extended neighbour is exactly the range from the carved start to its old end if and only if its base is below 4GB and its low parts sum to between start and start + 4GB |
| MemoryMap.ExtendedReserves | dbvm/vmloader/vmloaderc.c:262-267 | A reserved neighbour below 4GB at or above the chosen end covers the carved area and all it covered before |
| MemoryMap.CarvedIsReserved | dbvm/vmloader/vmloaderc.c:260-288 | Every carved address lies in an entry of type 2 of the new list, provided an entry of type 2 that follows the chosen one lies below 4GB at or above the chosen end |
| MemoryMap.OtherTypesKept | dbvm/vmloader/vmloaderc.c:260-288 | Every entry but the chosen one and a following entry of type 2 is in the new list unchanged, at its place or one further |
| MemoryMap.HighNeighbourIsMoved | dbvm/vmloader/vmloaderc.c:262-267 | A neighbour above 4GB is moved and the carved area is not reserved |

## Left out

- 1GB pages: memscan.c never tests PS in a PDPTE, so no page that a walk or query reaches is assumed to be part of one; the attach to a process, the exception handlers, allocation failures and the 32-bit and PAE variants of the walk are not modelled.
- The search for the self-map base (DBKKernel/memscan.c:452-549): the base is a parameter.
- PageWalk.Scanner.WalkPagingLayout: concurrent changes to the tables by the processor during a walk are not modelled; `AccessedPages.MarkThenEnumerate` lets the processor set bits between walks.
- RegionQuery.GetMemoryRegionData: the size is stated for canonical addresses; for the last page of the address space the code reports nothing, and so does the model.
- Debug protocol: commands are atomic steps. The nested dispatch at Cheat Engine/ceserver/api.c:1636, thread and process exit notifications, and waits for a temporary pause that fail are not modelled; clients continue the thread whose event they were given.
- DebugServer.ProcessData.WaitForThread: waits that time out, and the commands dispatched during a wait, are not modelled; the event such a command leaves in the queue is (`Dequeued`).
- DebugServer.ProcessData.AccessMemory: thread ids are not zero, as on Linux; the search for a paused thread reports zero for none.
- DebugSafety.NoStopIsLost: events are not claimed to be unique, since suspending the current thread copies its event.
- DebugServer.ProcessData.PauseFor: the breakpoint and register writes inside the pause are not modelled; an edit for all threads is one command per thread.
- WordPoke.ReportedIsStored: a poke of a word that is only partly mapped is taken to store nothing; a kernel that copies the mapped part would store bytes that are not counted.
- Attach and detach of WriteProcessMemory, and the fall-back for debugged processes.
- BlockPool.ItemsConserved: the CpuID field of a block, which names the CPU that filled it rather than the one whose data it is, the mode that saves to a file, timeouts and shutdown are not modelled; every wait that succeeds is followed by one continue, and a wait whose mapping fails by none.
- TopaTable.SetupToPA: allocation failures and buffers smaller than a page, which the pool need not align; SetupUltimap2 currently selects the single-entry mode, whose layout has one entry and is not modelled.
- TopaSwap.SavedIsTrace: one swapper at a time and no shutdown; the hand-over of data to user mode instead of a file; trace the hardware drops when the buffer is full never becomes part of the trace.
- BreakHandshake.EachBreakHandledOnce: breaks at raised IRQL, which are not handled, and waits that time out.
- DebugRegisters.Cpu.HandleAccess: accesses to DR4 to DR7 (a DR7 write stores a constant, DBKKernel/debugger.c:1070), and writes from RSP in kernel mode or from a decoded register above 15, for which the code uses an uninitialised value; a fault while the epilogue itself runs is repeated by the code, not emulated.
- DebugRegisters.Cpu.Epilogue: DR6 and the bookkeeping of the epilogue flag. DR7 is modelled as the enable, type and length fields of its four slots.
- SpinLock.MutualExclusion: weak memory ordering, nesting deeper than 2 to the 31, and CPUs that share an APIC id; `spinlock` is the test and exchange loop of dbvm/vmm/commona.asm.
- Numbers.MinusParses: numbers of 2 to the 31 and above, for which the code also truncates to 32 bits.
- Numbers.AppendZero: a string longer than a wanted size that fits the buffer, for which the code writes in front of its local buffer (dbvm/vmm/common.c:488-499).
- MemoryMap.UsableAfter: the chosen descriptor is a range of 64-bit addresses; the page tables and copies the loader makes in the carved area are not modelled.
- Driver plumbing, interrupt hooking, vmcall packing, signature checks, process and module enumeration, region listing, the CETC scanner, ARM breakpoints, the extension loader, symbol and ELF handling: interfaces or easy members.
