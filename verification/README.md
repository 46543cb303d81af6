# LiteBox in Dafny

Models of five parts of LiteBox, each with the properties that span its loops, functions or whole runs.

- **Pipe** (`Pipe.dfy`, `PipeInvariant.dfy`, `PipeTheorems.dfy`, `PipeCalls.dfy`, `PipeResults.dfy`, `PipeWitness.dfy`, `PipeStandoff.dfy`). A step system in which the peer check (upgrade of the weak pointer, then the load of the flag), the vacancy check, the push, the pops, the two halves of every notification, the release of a reference and the two halves of a drop are separate steps, and any number of reader and writer threads interleave, open, detach and close handles, and are interrupted. One inductive invariant carries reference counts, shutdown flags, the producer mutex, the byte stream and the debt of every pending notification. What callers are told is tied to what the queue does, in every step and over every run. The same attempts are also written as updates in place, and proved equal to what the step system does undisturbed.
- **Hybrid mutex** (`HybridMutex.dfy`). The three-state lock word with an auto-reset event, and the worker with its split counter update, for any number of threads, iterations, spins and pauses. The protocol is proved on values and as a class whose fields change in place.
- **ELF loader** (`Memory.dfy`, `Segments.dfy`, `Relr.dfy`, `RelrStream.dfy`, `Relocations.dfy`, `TableBytes.dfy`, `Reserve.dfy`, `Loader.dfy`). Memory is a map from addresses to bytes with protections, changed by mapper calls. Segment loop, dynamic-table scan, both relocation tables, trampoline footer and placement, span request and reservation trimming are methods over it, each proved equal to a function of the old memory, about which the image theorems are stated. What the table formats mean is stated apart from the decoders: compressed tables entry by entry and bit by bit, explicit and dynamic tables byte by byte and by encoders that the decoders undo.
- **Path normalisation** (`Path.dfy`). The right-to-left scan with one counter, against the left-to-right stack.
- **Archive realignment** (`Archive.dfy`, `ArchiveLayout.dfy`). Both passes of the rewrite, against what an archive means to a reader that follows links and against how a tar file is laid out.

`Tally.dfy` holds the sums behind the counting invariants, `Bytes.dfy` the byte type. `dafny verify dfyconfig.toml` checks everything.

Results that go against first expectations, each with the exact condition and a failing input:

- A large file in a rewritten archive is aligned if and only if its own header is a whole number of 64 KiB longer than one block (`Archive.LargeFilesAligned`). The extra header blocks that the writer spends on long paths move it off the boundary (`Archive.LongNameMisaligned`), although the position itself is asked of the writer. The header comment of the script promises alignment for every file of at least 64 KiB; the code is followed.
- Every path of an archive keeps its contents if and only if no path with other contents has the name of a padding entry written after it and every link the dictionary makes, followed through the members, the other such links and the padding, leads to the file it replaces (`Archive.ContentsKept`, for every archive; nothing in the condition looks at the output). In an archive clear of the padding directory the first half is void and padding drops out of the second (`Archive.PlainContentsKept`). When no non-empty file is repeated with other contents and the digest tells contents apart, the second half is void (`Archive.KeptIffHarmless`); with both, every path keeps its contents (`Archive.PlainArchiveKept`). Names in the padding directory break the first half (`Archive.PadNameClash`), repeated names the second: two names that each occur twice end as links to each other (`Archive.CrossedLost`).
- Everything mapped for a position-independent file stays inside the reserved span if and only if every piece that maps a page ends by the span; when every piece maps one, if and only if the file's lowest page is page 0, because the lowest address is not subtracted when segments are placed (`Loader.ContainedIff`, `Loader.LinkedHigh`).
- For the same reason the room asked for in front of the lowest segment is kept of the reservation if and only if it is empty or the lowest address is within the span (`Loader.CowViewIsReserved`, `Loader.RoomPastTheEnd`).
- The over-sized reservation suffices for every address the kernel may return if and only if rounding head room and request up separately costs no extra page (`Reserve.FitsIff`, whose only-if half builds the failing address in `Reserve.FitsNot`).
- The loader accepts exactly the footers the rewriter calls hooked, and those whose offset and size add up past 2^64 (`Loader.HookedIffAccepted`, `Loader.WrappedFooter`).
- A reader and a writer can sleep on each other in some run if and only if the slice is longer than the capacity and within the guarantee (`PipeStandoff.MutualSleepIff`, with the run built in `PipeStandoff.StandoffReachable`).
- The comment on the bitmap format places bit `i` at `current + 8*i`; the code (and the format) place it at `current + 8*(i-1)`. The code is followed.

## Model

| member | source | states |
|---|---|---|
| `HybridMutex.InvStep` | advisor/probes/xproc_mutex_probe.c:91-180 | every interlocked operation, load, store and kernel call of every thread keeps exclusion, accounting and the wakeup debt, and strictly lowers a potential in which a set event pays for the one retry it can cause |
| `HybridMutex.EveryRunIsShort` | advisor/probes/xproc_mutex_probe.c:91-180 | every schedule is finite: at most threads * iters * (13 + hold + spin) steps, retries included; the invariant holds at its end |
| `HybridMutex.NoDeadlock` | advisor/probes/xproc_mutex_probe.c:111-148 | no lost wakeup: in any state that keeps the invariant, nobody can move if and only if everybody is done, though signals merge and fast-path threads barge in |
| `HybridMutex.TotalCorrectness` | advisor/probes/xproc_mutex_probe.c:91-180 | a run that cannot go on has finished all threads with counter = threads * iters, no violation, fast + slow = acquisitions, the word FREE and nobody inside |
| `HybridMutex.CanFinish` | advisor/probes/xproc_mutex_probe.c:111-148 | from every state that keeps the invariant some schedule finishes all threads |
| `HybridMutex.WordsStaySmall` | advisor/probes/xproc_mutex_probe.c:94-179 | in every reachable state the occupancy is 0 or 1 and 0 when someone enters, no violation is counted, and counter and tallies never exceed the number of acquisitions |
| `HybridMutex.Section.constructor` | advisor/probes/xproc_mutex_probe.c:68-75 | the shared section starts FREE with all words zero |
| `HybridMutex.Section.Step` | advisor/probes/xproc_mutex_probe.c:91-180 | one step of any thread, in place, is the step of the model |
| `HybridMutex.Section.Hammer` | advisor/probes/xproc_mutex_probe.c:182-194 | whatever the scheduler picks, hammering ends, with all threads done and the final check passed |
| `HybridMutex.DoneTotals` | advisor/probes/xproc_mutex_probe.c:311-321 | when all threads are done, the counter and the sum of both acquisition tallies equal threads * iters |
| `HybridMutex.TalliesAreExact` | advisor/probes/xproc_mutex_probe.c:91-120 | at the end of any run the fast tally counts exactly the acquisitions by compare-exchange and the slow one those by exchange |
| `HybridMutex.SpinsOut` | advisor/probes/xproc_mutex_probe.c:91-109 | against a held lock a thread tries once and `spin` times more, and then takes the slow path |
| `HybridMutex.HoldsOut` | advisor/probes/xproc_mutex_probe.c:165-175 | inside, it pauses `hold` times between its update of the counter and leaving |
| `PipeInvariant.InvStep` | litebox/src/pipes.rs:614-815 | every step of every thread, under every interleaving, keeps the invariant: reference counts, shutdown flags only on dead ends, one producer, the stream, and a ring owed to every waiter whose test has changed its answer |
| `PipeInvariant.InvInit` | litebox/src/pipes.rs:835-859 | a new pipe starts in it |
| `PipeInvariant.NeedsStep` | litebox/src/pipes.rs:638-645 | after a step of a thread that then owes an end nothing, a waiter of that end whose test has changed its answer was already in that position before, and the step was no ring it could have consumed: what makes a retry possible leaves a debt |
| `PipeTheorems.StreamConservation` | litebox/src/pipes.rs:614-646 | in every reachable state bytes popped followed by bytes queued are the slices pushed, in order; the queue fits its capacity; a slice within the guarantee went in whole and contiguous |
| `PipeResults.StepTold` | litebox/src/pipes.rs:614-767 | in every step of every thread: what leaves the queue is what the step's reader is handed, what enters is what its writer is told was taken, reads get the longest prefix that is queued and fits, writes all of the slice or as much as fills the queue |
| `PipeResults.ResultStays` | litebox/src/event/polling.rs:56-99 | a result, once there, is what the call returns, whatever the other threads do |
| `PipeResults.RunTold` | litebox/src/pipes.rs:614-767 | over every run the histories of the queue grow by exactly the results of the run, in order |
| `PipeResults.EndToEnd` | litebox/src/pipes.rs:614-767 | over every run from a new pipe: the bytes handed to readers, followed by those still queued, are the bytes writers were told were taken, in order |
| `PipeResults.NoticeOf` | litebox/src/pipes.rs:638-815 | every push is told to the reader's end as IN, every pop to a writer that is left as OUT, the end of all writers as HUP and that of all readers as ERR |
| `PipeResults.HandlesCounted` | litebox/src/pipes.rs:571-602 | only opening and closing change the number of handles of an end, by one each |
| `PipeTheorems.RunExtends` | litebox/src/pipes.rs:687-697 | over every run histories only grow, dead ends stay dead, and without writers nothing more is pushed |
| `PipeTheorems.EofIsFinal` | litebox/src/pipes.rs:742-767 | a read with a non-empty buffer returns nothing only when every byte ever pushed has been popped and nothing is pushed or popped in any continuation |
| `PipeTheorems.EofIsStable` | litebox/src/pipes.rs:302-338 | a peer found gone stays gone; with the queue found empty at any later instant, it stays empty and nothing is read any more |
| `PipeTheorems.EveryReadEnds` | litebox/src/pipes.rs:742-767 | once the peer is gone and the queue empty, a thread that starts reading is, in every continuation, only ever on its way to an end of file: never waiting, never returning bytes or try-again |
| `PipeTheorems.HandleLifetime` | litebox/src/pipes.rs:571-602 | a shutdown flag implies no handle and no operation in flight, so no caller sees "this end shut down", a read never sees "peer shut down", and neither end of file nor a broken pipe is reported while a handle of the other end, detached or not, is left |
| `PipeTheorems.NoLostNotification` | litebox/src/pipes.rs:638-645 | a sleeping call that could proceed has been rung already, or some thread is on its way to ring it and can take its next step |
| `PipeTheorems.QuiescentSleepers` | litebox/src/event/polling.rs:56-99 | when nothing moves, no drop or notification is left over and every call in progress is asleep and could not proceed |
| `PipeTheorems.NoMutualSleep` | litebox/src/pipes.rs:614-646 | reader and writer both asleep for good means a slice longer than the capacity and within the guarantee |
| `PipeTheorems.WhenWritesFit` | litebox/src/pipes.rs:626-636 | a slice fits an empty pipe exactly unless it is longer than the capacity and within the guarantee; such a slice never fits |
| `PipeTheorems.SpendStep` | litebox/src/event/polling.rs:56-99 | every step a thread takes by itself spends from a fund of the threads and the two ends |
| `PipeTheorems.Settles` | litebox/src/event/polling.rs:56-99 | with no new calls, handles or interrupts every run is bounded by that fund, whoever wakes whom how often |
| `PipeTheorems.CanSettle` | litebox/src/event/polling.rs:56-99 | from every state that keeps the invariant the threads' own steps can bring the pipe to rest |
| `PipeStandoff.NeverWritten` | litebox/src/pipes.rs:626-645 | in no run does a write of a slice longer than the capacity and within the guarantee get to its push or return a count |
| `PipeStandoff.StandoffReachable` | litebox/src/pipes.rs:614-646 | for every such slice a run from a new pipe in which a reader and its writer sleep and nobody can move |
| `PipeStandoff.StandoffLasts` | litebox/src/event/polling.rs:56-99 | whatever wakes the two, short of an interruption, neither ever returns |
| `PipeStandoff.MutualSleepIff` | litebox/src/pipes.rs:614-646 | a reader and a writer of a slice can sleep on each other in some run exactly if it is longer than the capacity and within the guarantee |
| `PipeCalls.ReadUndisturbed` | litebox/src/pipes.rs:711-767 | an undisturbed try_read answers as its one-look form says, and says try-again exactly when poll would not report IN |
| `PipeCalls.WriteUndisturbed` | litebox/src/pipes.rs:614-646 | the same for try_write once the producer mutex is free |
| `PipeCalls.WriteReadiness` | litebox/src/pipes.rs:674-684 | a write is told to try again exactly when the reader is there and the slice does not fit; for one byte exactly when poll reports neither ERR nor OUT; for longer guaranteed slices OUT is not enough |
| `PipeCalls.PollTellsTheEnd` | litebox/src/pipes.rs:674-730 | a read returns nothing exactly under HUP with an empty queue; a write reports a broken pipe exactly under ERR |
| `PipeCalls.PollMeans` | litebox/src/pipes.rs:674-730 | in every state that keeps the invariant: HUP and ERR exactly when the other end is gone, data queued or not; IN exactly when something is queued or the writers are gone; OUT exactly when there is room |
| `PipeCalls.ReadinessIsStable` | litebox/src/pipes.rs:674-730 | over any run in which nobody reads, IN is not withdrawn; over any run in which nobody writes, OUT is not; HUP and ERR never are |
| `PipeCalls.PeekIsAGift` | litebox/src/pipes.rs:774-782 | what a peek copied are the next bytes of the stream and stay the first bytes of what any later read of that length or more would take, as long as nobody reads |
| `PipeCalls.PeekIsLongest` | litebox/src/pipes.rs:774-782 | a peek copies as much of the front of the queue as is queued or asked for |
| `PipeCalls.Channel.constructor` | litebox/src/pipes.rs:835-859 | a new pipe: empty, both ends open |
| `PipeCalls.Channel.TryWrite` | litebox/src/pipes.rs:614-646 | in place: the answer, exactly the accepted prefix appended, the reader rung exactly when something was accepted, all error cases |
| `PipeCalls.Channel.Admit` | litebox/src/pipes.rs:618-636 | the tests before the push and how much they let in: all of a guaranteed slice or nothing |
| `PipeCalls.Channel.TryRead` | litebox/src/pipes.rs:742-767 | in place: the answer, exactly the returned prefix removed, the writer rung exactly when something was taken by the first pop and a writer is left |
| `PipeCalls.Channel.PopSlice` | litebox/src/pipes.rs:753-753 | the longest prefix that fits is removed and returned |
| `PipeCalls.Channel.Drop` | litebox/src/pipes.rs:687-697 | giving up a handle: the last one shuts the end down and rings the peer with HUP or ERR if there is one |
| `PipeWitness.SecondPopIsNeeded` | litebox/src/pipes.rs:753-765 | a reachable run in which the queue is found empty, then the writer gone, with a byte queued in between: without the second pop, or with at_eof's tests in the other order, the byte would be lost |
| `Segments.MapSegment` | litebox_common_linux/src/loader.rs:480-530 | one round of the segment loop, in place, with its header checks, wrapped file offset and error exits |
| `Segments.MapParts` | litebox_common_linux/src/loader.rs:500-530 | the file pages, the zeroed rest of the last one and the zero pages beyond, in that order |
| `Segments.MapFilePages` | litebox_common_linux/src/loader.rs:500-524 | the file pages and the zeroed rest of the last one; refused exactly when the file offset is not page-aligned |
| `Segments.CoAligned` | litebox_common_linux/src/loader.rs:501-509 | an accepted file part has its offset co-aligned with its address; no wrap-around of the subtraction can pass for that |
| `Segments.SegmentImage` | litebox_common_linux/src/loader.rs:480-530 | a successful round replaces exactly the segment's pages by its image |
| `Segments.MapSegments` | litebox_common_linux/src/loader.rs:479-542 | the loop, in place: memory, break and program-header address as the model says, up to the first failing segment |
| `Segments.Elsewhere` | litebox_common_linux/src/loader.rs:479-542 | the loop changes nothing outside the pages of the segments |
| `Segments.LoadSucceeds` | litebox_common_linux/src/loader.rs:485-509 | the loop succeeds exactly when every segment passes the header checks and its file part is page-aligned, whatever was mapped before |
| `Segments.LoadsIff` | litebox_common_linux/src/loader.rs:485-509 | at a page-aligned base, exactly when every header passes the checks and every file part has its offset co-aligned with its address |
| `Segments.SegmentOutcome` | litebox_common_linux/src/loader.rs:485-509 | what one round answers for every header, with the limits written out; a refusal maps nothing |
| `Segments.MemoryImage` | litebox_common_linux/src/loader.rs:479-542 | with page ranges apart, every page of every segment shows that segment's image after a loop that succeeded |
| `Segments.SegmentBytes` | litebox_common_linux/src/loader.rs:479-542 | byte by byte over every page of a segment: what precedes its address in the file; file bytes; behind them zeros for a writable segment with memsz above filesz and otherwise what follows in the file, up to the page-rounded end of the file part; zeros on pages beyond; the header's protection |
| `Segments.LoadedImage` | litebox_common_linux/src/loader.rs:479-542 | so headers that pass the checks, co-aligned and on pages apart, load at any page-aligned base, and to just those bytes |
| `Segments.DataByte` | litebox_common_linux/src/loader.rs:496-509 | every file-backed byte is at its address with its file value |
| `Segments.HeaderBytes` | litebox_common_linux/src/loader.rs:535-541 | the reported program-header address shows the file's program-header bytes, as far as the holding segment goes |
| `Segments.NoHeaders` | litebox_common_linux/src/loader.rs:535-541 | without a segment that holds them the reported address is 0 |
| `Segments.BrkIsAbove` | litebox_common_linux/src/loader.rs:532-533 | the break is page-aligned, at or above every segment end, and equal to one of them |
| `Relr.BitSlotsDenote` | litebox_common_linux/src/loader.rs:728-745 | a bitmap denotes exactly the words whose bit is set |
| `Relr.Relocate` | litebox_common_linux/src/loader.rs:720-726 | one slot, in place: overflow, fault, or the base added modulo 2^64 |
| `Relr.ApplyBitmap` | litebox_common_linux/src/loader.rs:728-745 | the bit loop fixes exactly the slots of the bitmap, in order |
| `Relr.ApplyWords` | litebox_common_linux/src/loader.rs:715-748 | the stream loop fixes the denoted slots in turn, up to the first failing one |
| `Relr.ApplyRelr` | litebox_common_linux/src/loader.rs:703-750 | the whole table, read beforehand; size not a multiple of 8 and unreadable tables are refused unchanged |
| `Relr.FixApart` | litebox_common_linux/src/loader.rs:715-748 | on slots that do not overlap, fixing in turn succeeds exactly when each slot can be fixed, and is then one simultaneous addition with everything else unchanged |
| `Relr.FixOnce` | litebox_common_linux/src/loader.rs:715-748 | a slot that overlaps no other has the base added exactly once, whatever the others do to each other |
| `Relr.FixSucceeds` | litebox_common_linux/src/loader.rs:715-748 | overlaps or not, fixing succeeds exactly when every slot can be fixed |
| `Relr.FixOutside` | litebox_common_linux/src/loader.rs:715-748 | overlaps or not, and however far it gets, nothing outside the slots changes |
| `Relr.SlotsRise` | litebox_common_linux/src/loader.rs:715-748 | streams whose address entries never go below the current address denote increasing slots at least 8 apart |
| `Relr.RelrMeaning` | litebox_common_linux/src/loader.rs:703-762 | such a stream adds the base, modulo 2^64, exactly once to each denoted slot and changes nothing else, or fails exactly when some slot cannot be fixed |
| `RelrStream.BitIs` | litebox_common_linux/src/loader.rs:728-745 | the bit test finds exactly the ones of the binary numeral |
| `RelrStream.StreamDenotes` | litebox_common_linux/src/loader.rs:715-748 | for every stream: the slots are exactly the address of each even entry and, for each odd one, `8 * (i - 1)` past the current address for every one at place `i` from 1 on, where the current address is 8 past the last even entry, or 0, and 504 further for every odd entry since |
| `RelrStream.DenotedSlotFixed` | litebox_common_linux/src/loader.rs:703-762 | on a climbing stream whatever an entry denotes has the base added exactly once |
| `RelrStream.UndenotedByteKept` | litebox_common_linux/src/loader.rs:703-762 | on any stream, however far it gets, a byte that no entry denotes is kept |
| `Relr.ApplyRela` | litebox_common_linux/src/loader.rs:656-670 | the RELATIVE fixups of an explicit table, in place, other types skipped |
| `Relr.RelaMeaning` | litebox_common_linux/src/loader.rs:656-670 | for every explicit table: it succeeds exactly when every RELATIVE target is below 2^64 and writable, changes nothing outside the targets however far it gets, and leaves base plus addend, modulo 2^64, in every target no later entry overlaps |
| `Relr.ApartLasts` | litebox_common_linux/src/loader.rs:656-670 | with all targets apart that is every RELATIVE entry |
| `Relr.RelrIsRela` | litebox_common_linux/src/loader.rs:656-748 | fixing a compressed table equals applying the explicit RELATIVE entries whose addends are the stored words |
| `Relocations.ScanDynamic` | litebox_common_linux/src/loader.rs:624-640 | the loop over the dynamic table finds the last value of each of the six tags |
| `TableBytes.DynsAt` | litebox_common_linux/src/loader.rs:614-640 | entry `k` of the dynamic table: tag and value are its first and second eight bytes |
| `TableBytes.DynsCount` | litebox_common_linux/src/loader.rs:614-640 | as many entries as there are whole ones of 16 bytes |
| `TableBytes.DynRoundTrip` | litebox_common_linux/src/loader.rs:614-640 | a dynamic table written entry by entry reads back |
| `TableBytes.LastIs` | litebox_common_linux/src/loader.rs:624-640 | the value under a tag is that of the last entry with it, none exactly if there is no such entry |
| `TableBytes.TableTags` | litebox_common_linux/src/loader.rs:600-640 | address, size and entry size are tags 7, 8, 9 for the explicit table and 36, 35, 37 for the compressed one |
| `TableBytes.RelasAt` | litebox_common_linux/src/loader.rs:649-669 | entry `k` of an explicit table, byte by byte: offset, type in the low half of the info word, RELATIVE exactly if it is 8, signed addend |
| `TableBytes.RelasCount` | litebox_common_linux/src/loader.rs:649-669 | as many entries as there are whole ones of 24 bytes |
| `TableBytes.RelaRoundTrip` | litebox_common_linux/src/loader.rs:649-669 | an explicit table written entry by entry, of any types and symbols, reads back |
| `TableBytes.SignedIs` | litebox_common_linux/src/loader.rs:649-669 | addends are signed numbers of 64 bits |
| `TableBytes.WordsAt` | litebox_common_linux/src/loader.rs:716-717 | entry `k` of a compressed table is its eight bytes |
| `TableBytes.WordsCount` | litebox_common_linux/src/loader.rs:716-717 | as many entries as there are whole words |
| `Memory.LittleEndian` | litebox_common_linux/src/loader.rs:717-717 | the value of eight bytes, first byte lowest |
| `Memory.LeInverse` | litebox_common_linux/src/loader.rs:717-717 | writing the value of some bytes gives those bytes |
| `Memory.PageIs4096` | litebox_common_linux/src/loader.rs:116-122 | rounding goes to the nearest multiple of 4096 below or above |
| `Relocations.RunRela` | litebox_common_linux/src/loader.rs:642-671 | the explicit table: skipped unless address and size are known, refused for another entry size |
| `Relocations.RunRelr` | litebox_common_linux/src/loader.rs:673-681 | the same for the compressed one |
| `Relocations.ApplyRelocations` | litebox_common_linux/src/loader.rs:595-684 | dynamic segment, both tables in order, all error exits, as a function of the old memory |
| `Relocations.RelocationKeepsMap` | litebox_common_linux/src/loader.rs:595-684 | whatever the tables say and however far they get, nothing is mapped, unmapped or reprotected |
| `Relocations.RelocationSucceeds` | litebox_common_linux/src/loader.rs:595-684 | with no explicit target in the compressed table: relocation succeeds exactly if the dynamic segment and both tables can be read, entry sizes fit, and every target and slot can be written; it is then the explicit fixups followed by the compressed ones, both as the loaded memory shows them |
| `Relocations.LoadedBytes` | litebox_common_linux/src/loader.rs:496-509 | tables and words in a segment's file part are readable and are the file's own bytes |
| `Relocations.LoadsToIff` | litebox_common_linux/src/loader.rs:479-546 | loading with relocations succeeds exactly if the segments load and the loaded memory relocates |
| `Relocations.RelocatedSlot` | litebox_common_linux/src/loader.rs:479-750 | after loading and relocating through the file's dynamic segment, the word in every compressed slot clear of other slots and explicit targets is the file's own word plus the base, modulo 2^64 |
| `Relocations.RelocatedTarget` | litebox_common_linux/src/loader.rs:595-684 | every explicit target clear of later ones and of compressed slots holds base plus addend, modulo 2^64, after both tables |
| `Relocations.RelocatedElsewhere` | litebox_common_linux/src/loader.rs:479-750 | and every byte outside targets and slots is still the segment's |
| `Reserve.Placement` | litebox_common_linux/src/loader.rs:967-967 | the aligned pointer is the next multiple of the alignment past the head room, page-aligned, and costs at most the head room in whole pages plus the alignment less a page |
| `Reserve.Partition` | litebox_common_linux/src/loader.rs:960-1003 | head trim, kept range and tail trim are page-aligned and partition the mapped pages; the kept range holds head room and request with under a page of slack at each side |
| `Reserve.WholePages` | litebox_shim_linux/src/loader/elf.rs:93-93 | for a request of whole pages and any returned address the kept range holds the room and ends with the request |
| `Reserve.FitsIff` | litebox_shim_linux/src/loader/elf.rs:93-93 | the mapped length suffices for every returned address if and only if rounding head room and request separately costs no page; always for whole-page requests |
| `Loader.FooterRoundTrip` | litebox_syscall_rewriter/src/lib.rs:386-402 | what the rewriter appends the loader finds: the code, page-aligned in the file, at its address; and the rewriter sees it as hooked |
| `Loader.SentinelRoundTrip` | litebox_syscall_rewriter/src/lib.rs:350-365 | the empty footer reads as hooked with no trampoline |
| `Loader.MagicSpells` | litebox_syscall_rewriter/src/lib.rs:84-84 | the magic of the footer |
| `Loader.Refusals` | litebox_common_linux/src/loader.rs:247-339 | which refusal a file gets, by its length and its magic, letter by letter |
| `Loader.HookedIffAccepted` | litebox_syscall_rewriter/src/lib.rs:593-632 | hooked if and only if the loader accepts the footer and its sum does not wrap |
| `Loader.WrappedFooter` | litebox_common_linux/src/loader.rs:327-330 | a 32-byte file, footer only, with offset 2^64 minus a page and size one page: accepted by the loader, not hooked for the rewriter |
| `Loader.ParsedIsPlaceable` | litebox_common_linux/src/loader.rs:247-339 | a parsed trampoline is page-aligned in file and memory and not empty |
| `Loader.MapTrampoline` | litebox_common_linux/src/loader.rs:773-806 | map writable, write the entry point, make executable, with all error exits |
| `Loader.LoadTrampoline` | litebox_common_linux/src/loader.rs:765-810 | in place, with the break moved past it |
| `Loader.TrampolineImage` | litebox_common_linux/src/loader.rs:765-810 | it always loads; its pages hold the entry point and then the code, executable and not writable, nothing else changes |
| `Loader.ScanHeaders` | litebox_common_linux/src/loader.rs:404-429 | lowest and highest address, widest power-of-two alignment, offset of the lowest segment, or the overflow error |
| `Loader.ComputeRequest` | litebox_common_linux/src/loader.rs:402-473 | the span, alignment and hint asked of the mapper, trampoline included, and every overflow refused |
| `Loader.SpanOverflowsIff` | litebox_common_linux/src/loader.rs:402-445 | a file with segments is refused exactly for an address sum beyond 2^64 - 1, rounding up to a page included |
| `Loader.NoViewNoRoom` | litebox_common_linux/src/loader.rs:462-470 | without a copy-on-write alignment no room is asked for |
| `Loader.SegmentWithinBounds` | litebox_common_linux/src/loader.rs:402-530 | the pages mapped for a segment lie between the bounds computed for the span |
| `Loader.TrampolineWithinBounds` | litebox_common_linux/src/loader.rs:765-808 | so do the trampoline's |
| `Loader.ContainedIff` | litebox_common_linux/src/loader.rs:402-530 | for every file: everything mapped stays inside the span exactly if every piece that maps a page ends by the span; if all map one, exactly if the lowest page is 0 |
| `Loader.LinkedHigh` | litebox_common_linux/src/loader.rs:402-530 | a file linked one page up ends one page past its reservation |
| `Loader.AlignedForAll` | litebox_common_linux/src/loader.rs:426-428 | a base aligned as requested is aligned for every segment with a power-of-two alignment |
| `Loader.StaysReserved` | litebox_common_linux/src/loader.rs:402-473 | for every address the kernel may return: trims and kept range partition the mapping, the base suits every segment, the kept range holds head room and span, and for lowest page 0 everything mapped |
| `Loader.CowViewIsReserved` | litebox_common_linux/src/loader.rs:462-473 | rounding the lowest segment's file offset down to the copy-on-write alignment moves its start back by exactly the hint; those bytes are kept of the reservation exactly if there are none or the lowest address is within the span, as for lowest page 0 |
| `Loader.RoomPastTheEnd` | litebox_common_linux/src/loader.rs:462-473 | a one-page file linked sixteen pages up: the room in front of it starts fourteen pages past what is kept |
| `Loader.Load` | litebox_common_linux/src/loader.rs:478-566 | segments, relocations when asked, trampoline or reserved room, and the reported base, break, entry point and program headers |
| `Loader.FinalBrkIsAbove` | litebox_common_linux/src/loader.rs:548-563 | the final break is page-aligned and at or above every segment, the trampoline and the room set aside |
| `Loader.FinalBrkIs` | litebox_common_linux/src/loader.rs:548-563 | and no higher: the end of a segment or of the trampoline, or the highest segment end plus the room in whole pages |
| `Loader.WholeImage` | litebox_common_linux/src/loader.rs:478-566 | with page ranges apart, the trampoline leaves every segment page as relocation left it, with the segment's protection, and holds entry point and code |
| `Path.NormalizedComponents` | litebox/src/path.rs:67-90 | the reverse scan with one counter yields, for every path, what the forward stack yields, after the empty root component of an absolute one |
| `Path.FilterBack` | litebox/src/path.rs:68-84 | the filtering loop from the right: the components kept and the count left over |
| `Path.ScanIsStack` | litebox/src/path.rs:67-84 | pending ".." met from the right are pops on the stack of what lies to the left |
| `Path.ForwardShape` | litebox/src/path.rs:67-84 | the result is a run of ".." followed by names; the run is as long as the largest excess of ".." over names in any prefix |
| `Path.DotsDoNotMatter` | litebox/src/path.rs:67-84 | dropping every "." and every empty component changes nothing |
| `Path.NameThenUp` | litebox/src/path.rs:67-84 | a name followed by ".." goes away with it, wherever the two stand |
| `Path.UpsThenNames` | litebox/src/path.rs:67-84 | a run of ".." and then names is kept as it is |
| `Path.NoDots` | litebox/src/path.rs:67-90 | no component of a normalised path is ".", and none is empty but the root of an absolute one, which is always there |
| `Path.Normalized` | litebox/src/path.rs:93-97 | the components joined by slashes |
| `Path.Compose` | litebox/src/path.rs:67-90 | normalising a concatenation is normalising after the left part has been normalised |
| `Path.Reread` | litebox/src/path.rs:67-97 | splitting a normalised path again gives the same stack, and it is absolute exactly if the path was and is not a bare root |
| `Path.Idempotent` | litebox/src/path.rs:93-97 | normalising twice is normalising once, the bare root that joins to the empty string included |
| `Path.SplitJoin` | litebox/src/path.rs:93-97 | joining and splitting give the components back |
| `Archive.GroupByDigest` | advisor/probes/realign_tar.py:29-44 | the dictionary holds, for every digest of a non-empty file, the names with it in archive order; its keys are in the order first met |
| `ArchiveLayout.GroupInOrder` | advisor/probes/realign_tar.py:29-44 | a group lists the names of exactly the non-empty files with its digest, in archive order, one for each occurrence |
| `ArchiveLayout.KeysInOrder` | advisor/probes/realign_tar.py:29-44 | the keys are the digests of the non-empty files, each once, in the order of first occurrence |
| `Archive.ShortestIsFirst` | advisor/probes/realign_tar.py:50-50 | the name kept is the first of the shortest |
| `Archive.Redirect` | advisor/probes/realign_tar.py:51-53 | every other name of the group is mapped to the kept one, no other entry changes |
| `Archive.MapGroup` | advisor/probes/realign_tar.py:45-53 | one group maps its names to the one kept and changes no other entry |
| `Archive.MapGroups` | advisor/probes/realign_tar.py:48-53 | the groups merged into the dictionary in the order of their keys |
| `Archive.FindDuplicates` | advisor/probes/realign_tar.py:29-53 | for every archive, repeated names included: a name is in the dictionary exactly if some group redirects it, mapped to the name kept by the last such group |
| `ArchiveLayout.LastGroupDecides` | advisor/probes/realign_tar.py:48-53 | a name is mapped to what the last group that redirects it keeps, and to nothing exactly if none does |
| `Archive.DuplicatesMapped` | advisor/probes/realign_tar.py:45-53 | when no non-empty file is repeated with other contents, the dictionary maps exactly the duplicates, each to the file that stays |
| `Archive.KeeperIs` | advisor/probes/realign_tar.py:50-53 | the file that stays is in the archive, has the same contents and no longer a name, and is not replaced |
| `Archive.OneStays` | advisor/probes/realign_tar.py:45-53 | of two files with equal non-empty contents at least one is replaced |
| `Archive.ComputeGap` | advisor/probes/realign_tar.py:76-81 | the loop that widens the gap ends with the gap of the model |
| `Archive.GapAligns` | advisor/probes/realign_tar.py:76-82 | the gap is whole blocks, none or room for a padding entry with data, and reaches a boundary |
| `ArchiveLayout.GapIsLeast` | advisor/probes/realign_tar.py:76-82 | no smaller gap reaches a boundary with room for a padding entry; none when aligned already |
| `ArchiveLayout.DigitsAreDecimal` | advisor/probes/realign_tar.py:83-83 | the number in a padding name is the offset in decimal, without leading zeros |
| `ArchiveLayout.PadNamesDiffer` | advisor/probes/realign_tar.py:83-83 | padding entries at different offsets have different names |
| `Archive.WriteOne` | advisor/probes/realign_tar.py:62-91 | one round of the writing loop |
| `Archive.Realign` | advisor/probes/realign_tar.py:28-91 | both passes: the dictionary of all duplicates and the archive written from it |
| `ArchiveLayout.AllLaid` | advisor/probes/realign_tar.py:55-91 | for every archive and dictionary: headers and data follow one another from offset 0 to the reported position, each starting at the first 512-byte boundary at or after the end of what precedes it |
| `ArchiveLayout.NoOverlap` | advisor/probes/realign_tar.py:55-91 | so no two entries share a byte |
| `ArchiveLayout.EntryFor` | advisor/probes/realign_tar.py:62-91 | members keep their order and names; each becomes its own body or the link of the dictionary, with the header of what it became; at most one more entry is written for it, zeros in the padding directory in front of a file of 64 KiB or more |
| `Archive.LargeFilesAligned` | advisor/probes/realign_tar.py:74-91 | every kept file of at least 64 KiB is written, starting on a 64 KiB boundary if and only if its header's extra blocks are whole multiples of 64 KiB; always with one-block headers |
| `Archive.LongNameMisaligned` | advisor/probes/realign_tar.py:55-91 | a large file alone in an archive misses the boundary by exactly the blocks its header needs beyond the first |
| `Archive.LookupRewritten` | advisor/probes/realign_tar.py:62-91 | what a reader finds under any name: padding that covers it, else what was there, or the link that replaced it |
| `ArchiveLayout.MemberFound` | advisor/probes/realign_tar.py:28-91 | what a reader finds under a name of an archive: the last member of that name |
| `ArchiveLayout.EntryFound` | advisor/probes/realign_tar.py:28-91 | and of a written one: the last entry |
| `Archive.ReplacedFile` | advisor/probes/realign_tar.py:50-72 | when no non-empty file is repeated with other contents, a replaced file is not empty, and its link leads to a file with the same contents that is not itself replaced |
| `Archive.ContentsKept` | advisor/probes/realign_tar.py:28-91 | for every archive and dictionary: every path keeps its contents through whatever links if and only if every path covered by padding led to just those zeros or nowhere, and every link the dictionary makes, followed beforehand, leads to the file it replaces |
| `Archive.SeenIsFound` | advisor/probes/realign_tar.py:62-91 | following paths beforehand, through members, dictionary and padding positions, finds exactly what following them in the written archive finds |
| `Archive.PlainContentsKept` | advisor/probes/realign_tar.py:28-91 | in an archive clear of the padding directory, repeated names and colliding digests included: every path keeps its contents if and only if every link the dictionary makes, followed through the members and the other such links, leads to the file it replaces |
| `Archive.LinksAreTrue` | advisor/probes/realign_tar.py:45-72 | all these links are true when padding is harmless, no non-empty file is repeated with other contents and the digest tells contents apart |
| `Archive.KeptIffHarmless` | advisor/probes/realign_tar.py:28-91 | under the same two conditions on files and digest, every path keeps its contents if and only if padding is harmless |
| `Archive.PlainIsHarmless` | advisor/probes/realign_tar.py:83-83 | padding is harmless whenever no member lies in its directory |
| `Archive.PlainArchiveKept` | advisor/probes/realign_tar.py:28-91 | so with plain names, no non-empty file repeated with other contents and an injective digest every path keeps its contents |
| `Archive.CrossedLost` | advisor/probes/realign_tar.py:49-72 | two names that each occur twice with crossed contents end as links to each other and lead nowhere |
| `Archive.SameMeaning` | advisor/probes/realign_tar.py:28-91 | with true links, on paths that lead to no padding entry, each leads to given bytes afterwards exactly if it did before |
| `Archive.OnlyPadNames` | advisor/probes/realign_tar.py:83-83 | only names in the padding directory can be covered |
| `Archive.PadNameClash` | advisor/probes/realign_tar.py:83-86 | a member named like a padding entry, in front of a large file, reads as zeros afterwards |
| `Archive.BytesConserved` | advisor/probes/realign_tar.py:62-91 | bytes written plus bytes saved are the original bytes plus padding, at most 64 KiB of it per large file |

## Left out

- Wait timeouts: a wait ends by a notification, an interruption or the external wake; how sleeping works is not modelled.
- Memory ordering: steps of the pipe and the mutex are sequentially consistent.
- Consumer mutex: each pop is one step; poll and peek are looks at one instant, so how long they hold a lock is not modelled.
- Descriptor-table errors (closed descriptor, wrong direction) and status flags: handles are counts per end; whether a call is non-blocking is fixed when it starts.
- Ring-buffer, pollee and descriptor-table internals: the queue is a sequence from which the largest fitting prefix is pushed or popped.
- Windows calls, section mapping, process start, the ten-second wait limit of the mutex and its fatal exits.
- `xproc_mutex_clone_probe.c`, the other probes, and what the rewriter does to code: they would add easy members or are third-party behaviour.
- ELF header and program-header parsing, 32-bit footers, the secondary trampoline and interpreter reading: program headers are given.
- Mapper failures other than misalignment, and address-space limits below 2^64: a mapping call fails exactly for unaligned arguments.
- Segment and table addresses are unbounded sums: where the source would panic or wrap on overflow of base plus address, the model goes on above 2^64; `Loader.StaysReserved` bounds them by the reservation.
- Relr.RelrMeaning: needs a stream that climbs without wrapping, as the format requires; on other streams slots may repeat, and `Relr.ApplyRelr` says what happens, slot by slot.
- Relr.ApplyWords: the current address wraps modulo 2^64, as in a build without overflow checks.
- Archive.ContentsKept: link texts are resolved by any function that reads an absolute text as the member of that name.
- Relocations.RelocatedSlot: needs explicit targets outside the compressed table, which is read after they are written; otherwise `Relocations.ApplyRelocations` says what happens, step by step.
- Extended attributes, modes, owners and the number of header blocks a name costs: the last is a parameter of each member.
- `increasing_ancestors` and string conversion errors in path.rs: simple beside normalisation.
