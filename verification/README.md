# NodeFusion in Dafny

NodeFusion records a guest kernel from inside QEMU with a C plugin, stores what it saw in a binary
trace, and rebuilds memory, page tables, kernel containers and call chains from that trace on the host,
in Python. This project models the parts whose correctness is not visible from any one function, and
proves what they promise for all inputs, all memories and all runs.

The modules follow the program's structure:

* **Recording.** `Recorder` says what each callback of the plugin does, as a function on its state: the log of
  records, what the host holds of guest memory, the byte budget, the schedule and the counters. `RecorderLaws`
  proves what every run of callbacks keeps, in whatever order they get the lock, and `RecorderSays` which records
  each of them writes, in the numbers of the format. `Plugin` is the plugin's global state as a class, with the
  shadow copy in which a null page stands for the zero page; its methods are the C functions, proved to do just
  what `Recorder` says. `Scheduler` holds the timing rules, which `RecorderPace` carries to whole runs, and
  `WatchThrottle` the hit and drop counters that several vCPUs update outside the lock, as a machine of atomic
  steps. `Recording` drives the plugin by arbitrary interleavings of both and says what the host makes of the
  file; `HitRecords` ties the counters to the records in the log. `TraceFile` holds the framing of records, the
  loader, the packed rows and the indexed pages; `TraceMeaning` says record by record what a file means, without
  the loader; `LittleEndian` has the field layouts.
* **Replaying.** `RamImage` is the host's memory image, as a value and as the object updated in place.
  `HostReplay` says what loading and replaying a log gives. The invariant of `RecorderLaws` ties what the plugin
  takes the host to hold to that replay, so the encoder and the decoder cannot drift apart.
* **Reading the guest.** `PageTable` is the Sv39 enumerator (sections 4.3.2 and 4.4 of the RISC-V Privileged
  Architecture, 20211203), and `PageWalk` its whole walk, against entries put together from flags and page
  numbers. `BTreeMap` and `LinkedList` read containers from raw, possibly corrupt memory, against representation
  predicates; `BTreeRead` is the reader that starts from the map itself. `PointerWalk` is the breadth-first walk
  over a pointer graph. `CallStack` rebuilds call chains from entry and return streams, `CallStackMerge` says
  what their merge depends on, and `CallStackLaws` what makes, breaks and ends a chain. `EventSampler` bounds the
  event stream; `SamplerLaws` says what is kept of it in numbers.
* **Parsing.** `RustV0` is the demangler for Rust's v0 symbol names (RFC 2603), `RustV0Stack` the stack it needs,
  `RustV0Grammar` the grammar it accepts, with printing, and `RustV0Laws` the text of a demangled name and the
  letters of the grammar. `Paths` joins the segments of a name, and `Segments` takes it apart. `Leb128` and
  `DieTree` are the variable-length integers and the entry tree of DWARF (DWARF 5, sections 2.3 and 7.6);
  `DieLaws` says what a unit leaves in the dictionaries, entry by entry.

Where the source updates something in place, the model is a class or a loop, and its contract ties the new
state to a function; the lemmas are about that function.

Eight places where the proofs say something the source's comments do not:

* The byte budget holds exactly when the limit lies at least one page below 2^64 (`BudgetGuard`); otherwise the
  C addition wraps and a page that overruns the limit is admitted (`BudgetHole`).
* A snapshot may come when the output is closed, and the C code then calls ftell on no file. A setup keeps all
  its snapshots within the output, whatever the run, if and only if it takes none or has no instruction limit
  (`LateSnapshots`). With both, which takes only `maxinsn=` since snapshots are on by default, reaching the limit
  and the end of a vCPU are enough (`LimitThenExitIsTooLate`); of any one run `AllowedUnlessTooLate` says whether
  it happens.
* A watch of rate r that was hit n times gives exactly ceil(n / r) records as long as the output is open
  (`RecordsOfAWatch`). Hits that settle after the END record are counted and not written (`RecordsUntilClosed`,
  with an instance in `LateHitIsLost`).
* Call chains of one CPU do not depend on the others if both streams are in time order and the CPU has a return
  whenever there is one (`CpusAreSeparate`). Without time order an entry of one CPU can hold up the merge for
  another, whose return then pops nothing (`OutOfOrderPopsNothing`). What decides is the largest count so far in
  either stream: a CPU's part of the merge is the merge of its parts if and only if for its entries and returns
  the largest counts compare alike in the whole streams and in its own (`MergeOnExactly`). A CPU without returns
  is reported only if another one has some (`NoReturnsNoReports`).
* The enumerator lists every entry with R, W or X set as a leaf. It agrees with the standard exactly on paths
  without reserved encodings (`StandardAgrees`); a writable entry that is not readable is listed where the
  standard has a page fault (`WriteOnlyIsListed`). Its check for visited tables never fires.
* A back reference of the demangler that passes the check `val < i` may still enclose itself; the body NvB_1a
  has one (`AroundIsNoName`). A symbol runs out of every stack if and only if reading its path, or that of its
  instantiating crate, comes upon a path that comes upon itself (`RunsOutForEveryStack`). All others have their
  result within a stack of (n + 2) (2n + 3) calls for a symbol of n characters, and larger ones do not change it
  (`ResultSettles`).
* An identifier printed without separator reads back exactly if what follows its length is neither a digit
  nor an underscore (`IdentRoundTrip`); the parser takes all the digits it finds, where RFC 2603 ends an
  empty identifier's length after its zero (`EmptyNameMisread`). The printer of `RustV0Grammar` therefore puts
  a separator after an empty identifier's length too, which the RFC allows and does not ask for.
* Among several layouts of one struct path, the conflict mark depends on their order only through layouts
  without fields (`ConflictIff`).

## Model

| member | source | states |
|---|---|---|
| LittleEndian.FieldsOfPacked | nodefusion/plugin/nf_plugin.c:359-381 | a packed C struct, whatever follows it, decodes to the values packed, each within its width |
| LittleEndian.LongWord | nodefusion/host/guest.py:117-119 | eight bytes make the sum of their values times the powers of 256, the first byte the lowest; Words says the same of one, two and four |
| TraceFile.RewriteInPlace | nodefusion/plugin/nf_plugin.c:624-636 | seeking back and writing a record of the same size changes that record and no other byte |
| TraceFile.ScanOfStream | nodefusion/host/nftrace.py:342-364 | whole records are found one after another, each at its own place, whatever follows them |
| TraceFile.CutPoint | nodefusion/plugin/nf_plugin.c:359-381 | every cut of a written stream falls after some number of whole records, at the start of or inside the next |
| TraceFile.ScanOfCut | nodefusion/host/nftrace.py:342-364 | from any prefix of a written file exactly the records wholly inside it come back, and truncation is reported if and only if the cut is inside a record |
| TraceFile.Load | nodefusion/host/nftrace.py:335-438 | the load loop, interpreting records while scanning, returns what the specification says of the whole file, errors included; the returns, and the watch hits if they are to be compact, are in packed rows that are just the rows eager loading has |
| TraceFile.LoadOfCut | nodefusion/host/nftrace.py:335-438 | loading any prefix of a written file gives what the whole records inside it mean, with the truncation mark exactly when the cut splits a record |
| TraceFile.LoadOfFile | nodefusion/host/nftrace.py:335-438 | a finished file loads as its log, not truncated |
| TraceFile.LogTraceAppend | nodefusion/host/nftrace.py:366-436 | writing one more record is one more step of the load loop, wherever it lies in the file |
| TraceFile.PlaceReadsBack | nodefusion/host/nftrace.py:300-312 | a page read back later from its recorded place is its eager decoding, errors included |
| TraceFile.IndexedLoadSame | nodefusion/host/nftrace.py:283-317 | a file that loads eagerly loads indexed with the same rows, snapshots and page order, and every page reads back the same |
| TraceFile.RowsKept | nodefusion/host/nftrace.py:154-218 | appending a packed row disturbs no earlier row |
| TraceFile.PackedRowDecodes | nodefusion/host/nftrace.py:154-218 | a packed row decodes to its prefix and to the fields of its payload |
| TraceFile.PackedRows.AppendRecord | nodefusion/host/nftrace.py:160-162 | the rows are those before and the eager decoding of the new payload |
| TraceFile.PackedRows.Get | nodefusion/host/nftrace.py:167-176 | indexing returns the eager row, counting negative indices from the end, and fails exactly outside the rows |
| TraceMeaning.LoadMeans | nodefusion/host/nftrace.py:366-436 | of any records: loading fails exactly for the first there is trouble with (too short for its type, or a page whose contents do not inflate to the declared length), with that error; else there is, in order, exactly one row for each record of a row type, with its type, count, CPU and flags and the values packed in its payload at the widths written out for its type, one text for each text record and one snapshot for each mark, which has of each page number the last page recorded before the next mark |
| TraceMeaning.LogMeans | nodefusion/host/nftrace.py:335-438 | the same of a finished file: it loads into what its records mean, or fails for the first there is trouble with |
| TraceMeaning.HeaderDecides | nodefusion/host/nftrace.py:320-332 | of any file: it is refused exactly if its first sixteen bytes are not the magic, a version 1 or 2 and the header length 16, for that reason; otherwise it gives what the records found in it mean |
| TraceMeaning.ScanTiles | nodefusion/host/nftrace.py:342-364 | any bytes at all are the records found in them, one after another, and a rest that is nothing or too short for the record it begins, which is what the truncation mark says |
| TraceMeaning.FieldsComeBack | nodefusion/host/nftrace.py:372-434 | values packed at the widths of a row type come back as the fields of the row |
| TraceMeaning.FileBytes | nodefusion/plugin/nf_plugin.c:1164-1168 | the sixteen bytes a file begins with |
| TraceMeaning.RowsSplit | nodefusion/host/nftrace.py:379-395 | returns are kept packed, watch hits if that is asked for, and all other rows are not; none is lost |
| RamImage.ApplyWholePage | nodefusion/host/guest.py:79-85 | a page inside the image replaces that page, marks it seen and touches no other |
| RamImage.BlobOfPage | nodefusion/host/guest.py:91-99 | a page reads as its bytes once seen and as nothing before |
| RamImage.WordAt | nodefusion/host/guest.py:117-119 | a 64-bit word of memory is read exactly if its eight bytes lie inside and in pages seen, and is little-endian |
| RamImage.RamImage.Apply | nodefusion/host/guest.py:79-85 | updating the buffers in place gives the value the specification says, with the same exception |
| RamImage.RamImage.Off | nodefusion/host/guest.py:91-99 | the loop over the pages touched returns an offset exactly if all of them were seen and lie inside |
| HostReplay.ReplayInto | nodefusion/host/guest.py:79-85 | applying the snapshots of a trace one after another gives the replayed image |
| HostReplay.PageRecDecodes | nodefusion/plugin/nf_plugin.c:518-542 | a page record, stored or compressed, decodes to the page |
| HostReplay.ReplayAddPage | nodefusion/host/nftrace.py:399-419 | a page added to the open snapshot is one more page applied |
| HostReplay.MarkRewrite | nodefusion/plugin/nf_plugin.c:624-636 | rewriting the header of the last mark changes no page the loader sees |
| Recorder.BudgetGuard | nodefusion/plugin/nf_plugin.c:533-538 | the wrapping budget check keeps the total within the limit for every total and page if and only if the limit is at least a page below 2^64 |
| Recorder.StopsAtTheBudget | nodefusion/plugin/nf_plugin.c:533-538 | with such a limit a snapshot goes over all pages if and only if storing those that differ fits the budget, and otherwise stops at the first of them that does not fit |
| Recorder.AfterMoves | nodefusion/plugin/nf_plugin.c:559-638 | a callback changes the pages, the byte counter and the truncation only by taking a snapshot of its own guest, which reads up to the budget; only the callbacks that finish close the output |
| Recorder.LastReadWins | nodefusion/plugin/nf_plugin.c:559-638 | after any run the host holds of a page the bytes that the last snapshot to read it saw |
| Recorder.NeverRead | nodefusion/plugin/nf_plugin.c:559-638 | and of a page that no snapshot has read what it had before |
| Recorder.EveryoneAllowed | nodefusion/plugin/nf_plugin.c:665-675 | no callback meets a closed output with a snapshot to take if snapshots are off, or if no callback but the last closes the output |
| Recorder.AllowedUnlessTooLate | nodefusion/plugin/nf_plugin.c:559-568 | of any run: a snapshot is to be taken of a closed output if and only if some callback with a snapshot to take, the shadow copy still being there, comes after one that closed the output |
| Recorder.LimitThenExitIsTooLate | nodefusion/plugin/nf_plugin.c:916-923 | an instance, for every setup with snapshots and an instruction limit: the limit is reached, and then a vCPU goes down |
| Recorder.LateSnapshots | nodefusion/plugin/nf_plugin.c:665-697 | no run with nothing after the end of the process has a snapshot of a closed output if and only if the setup takes no snapshots or has no instruction limit |
| RecorderLaws.StorePage | nodefusion/plugin/nf_plugin.c:540-555 | writing a page record brings the host's image up to date in that page and no other |
| RecorderLaws.PagesKept | nodefusion/plugin/nf_plugin.c:577-614 | after each page of a snapshot, up to where the budget ends it, loading and replaying the log gives the host exactly the pages read, and the bytes counted are those stored |
| RecorderLaws.AfterInv | nodefusion/plugin/nf_plugin.c:506-998 | every callback keeps the invariant: the log loads and replays to what the plugin takes the host to hold, stored bytes are counted and within the limit, no event snapshot exceeds its maximum, each counter counts its records, and a closed log ends in its only END record |
| RecorderLaws.RunInv | nodefusion/plugin/nf_plugin.c:506-998 | so does every run, in any order of callbacks |
| RecorderLaws.RunContinues | nodefusion/plugin/nf_plugin.c:506-998 | along a run the log is only appended to, nothing follows the end of the output, and no snapshot follows a truncation |
| RecorderLaws.ClosedByOne | nodefusion/plugin/nf_plugin.c:956-987 | a closed output was closed by one callback, and ends in the END record with the total it read and the counters, bytes, truncation and drops of that moment |
| RecorderSays.SnapshotSays | nodefusion/plugin/nf_plugin.c:559-638 | a snapshot writes a mark with its number, the start of memory, the page size, the changed pages, all pages and the two flags where they belong, then in order a record for each page below its reach that was read and differs, deflated if that is shorter, then a warning for each way of being incomplete; it leaves the pages read on the host and keeps the shadow copy exactly if it got over all pages |
| RecorderSays.SnapshotStops | nodefusion/plugin/nf_plugin.c:533-538 | it gets over all pages if the bytes they take fit into the budget left, and else to the first that does not fit; the bytes are added up |
| RecorderSays.CallbackWrites | nodefusion/plugin/nf_plugin.c:665-987 | what every callback writes, in the numbers of the format: samples and snapshots when they are due, a hit with the event of the guest and the snapshot its watch asks for, the last snapshot before a vCPU goes down, four notes and the END record with its fields in their order; nothing once the output is closed |
| RecorderSays.CallbackSchedules | nodefusion/plugin/nf_plugin.c:679-696 | what every callback does to the deadlines, the phase, the throttle, the final snapshot and the drops |
| RecorderSays.LogOfRun | nodefusion/plugin/nf_plugin.c:665-998 | the log of any run is what its callbacks write, one after another |
| Plugin.ShadowInjective | nodefusion/plugin/nf_plugin.c:511-516 | comparing shadow pages, null for the zero page, is comparing pages |
| Plugin.SameAsShadow | nodefusion/plugin/nf_plugin.c:511-516 | the plugin's test of a page against its shadow copy says exactly whether the host has that page |
| Plugin.Plugin.constructor | nodefusion/plugin/nf_plugin.c:1113-1239 | the plugin starts with an open output, nothing recorded and the schedule's first deadlines, and with an empty shadow copy of the machine's size if snapshots are on |
| Plugin.Plugin.SnapshotPage | nodefusion/plugin/nf_plugin.c:506-557 | a page the host has is passed over; another one is written, compressed if that is shorter, exactly if the budget admits it, and then the host has it; if not, only a warning is written and snapshots are over |
| Plugin.Plugin.SweepChunk | nodefusion/plugin/nf_plugin.c:589-597 | the pages of a chunk read whole are dealt with in order, up to its end or to the first that overruns the budget |
| Plugin.Plugin.Sweep | nodefusion/plugin/nf_plugin.c:575-614 | over all chunks the readable pages that differ are recorded in order up to the first that overruns the budget; the changed ones are counted, and a failed read is reported if and only if there was one |
| Plugin.Plugin.Snapshot | nodefusion/plugin/nf_plugin.c:559-638 | one mark with the number of changed pages and the right flags, the records of the changed pages up to the budget, the warnings; the host has the pages read, and the shadow copy is released exactly if the budget ran out |
| Plugin.Plugin.Record | nodefusion/plugin/nf_plugin.c:647-661 | a callback's record is appended while the output is open, and counted under its kind in any case |
| Plugin.Plugin.Finish | nodefusion/plugin/nf_plugin.c:956-987 | an open output gets four notes and the END record with the total, the counters, the truncation and the drops, and is closed for good |
| Plugin.Plugin.Sampling | nodefusion/plugin/nf_plugin.c:680-683 | a sample is recorded, and the next deadline set, exactly if one is due |
| Plugin.Plugin.TimerSnapshot | nodefusion/plugin/nf_plugin.c:684-695 | a snapshot of this guest is taken, and the timer moved, exactly if one is due or the phase is crossed |
| Plugin.Plugin.LockedCheck | nodefusion/plugin/nf_plugin.c:679-696 | sample and snapshot as the schedule says, whenever the lock comes after the first look at the deadlines |
| Plugin.Plugin.TbCheck | nodefusion/plugin/nf_plugin.c:665-697 | at the instruction limit the run ends; below both deadlines nothing happens; otherwise the locked part runs |
| Plugin.Plugin.WatchHit | nodefusion/plugin/nf_plugin.c:793-842 | the hit is recorded with the guest's own record, and leads to a snapshot of this guest exactly if its watch asks for one and the throttle allows it |
| Plugin.Plugin.VcpuDown | nodefusion/plugin/nf_plugin.c:916-927 | the last snapshot is taken once, and the vCPU's end recorded each time |
| Recording.Drive | nodefusion/plugin/nf_plugin.c:665-998 | for any interleaving of arriving hits, settling hits and callbacks the plugin's state is that of the run of the callbacks they amount to, to the end if and only if none of them would snapshot a closed output; the file then loads and replays, and the host holds of each page what the last step to read it saw |
| Recording.Record | nodefusion/plugin/nf_plugin.c:665-998 | the same from the installation of the plugin on: a new recording of any steps loads and replays to what its last snapshots read, and of a page that none has read has nothing |
| Recording.RunRemembers | nodefusion/plugin/nf_plugin.c:559-638 | which page bytes a whole run leaves on the host: those of the last snapshot that read the page, or what was there |
| Recording.HostSees | nodefusion/host/nftrace.py:335-438 | the file of a log loads without truncation and replays to exactly the pages the plugin takes the host to hold |
| Recording.EndRowCounts | nodefusion/plugin/nf_plugin.c:956-987 | the last row the loader returns is the only END record, and its fields are the total, the truncation flag and the drops it was written with and the counts of the records and page bytes before it |
| Recording.StepSays | nodefusion/plugin/nf_plugin.c:755-842 | a hit that arrives is counted only if its watch has a rate, takes no snapshots and reads no event, and is dropped unless the count is a multiple of the rate; a hit that settles is one drop, or one record with the number of its watch and its settings |
| HitRecords.AfterWatched | nodefusion/plugin/nf_plugin.c:793-796 | a callback adds a record of a watch if and only if it is a hit of that watch and the output is open |
| HitRecords.RecordsOfAWatch | nodefusion/plugin/nf_plugin.c:755-796 | for any interleaving, the hits of a watch in the log and those on their way to it are what its rate lets through of the hits that arrived, exactly while the output is open and at most that afterwards; the drop counter counts the rest |
| HitRecords.RecordsWhenQuiet | nodefusion/plugin/nf_plugin.c:755-796 | with no hit on its way and the output open, a watch of rate r hit n times has exactly ceil(n/r) records, or n if no rate applies |
| HitRecords.RecordsUntilClosed | nodefusion/plugin/nf_plugin.c:956-987 | once the output is closed, the log holds the hits that settled before it was |
| HitRecords.LateHitIsLost | nodefusion/plugin/nf_plugin.c:793-796 | an instance: a hit that settles after the end is due and never written |
| Scheduler.TimerKeepsPace | nodefusion/plugin/nf_plugin.c:665-697 | on one vCPU, snapshots are less than the chosen interval plus one block apart and not closer, and the phase crossing happens at most once, within one sampling period plus one block |
| Scheduler.EventsBounded | nodefusion/plugin/nf_plugin.c:827-840 | however the counts of the vCPUs arrive, no more event snapshots are taken than the maximum |
| Scheduler.EventsSpaced | nodefusion/plugin/nf_plugin.c:827-840 | for counts above zero that never decrease they are at least the minimum apart |
| RecorderPace.RunTimer | nodefusion/plugin/nf_plugin.c:665-697 | on one vCPU the timer of any run of callbacks is that of the counts it sees, and the snapshots of its block starts are those of the schedule |
| RecorderPace.SnapshotsKeepPace | nodefusion/plugin/nf_plugin.c:665-697 | so along a paced run these snapshots are the chosen interval apart, to within a block, but for the one that crosses into the phase |
| RecorderPace.RunEvents | nodefusion/plugin/nf_plugin.c:827-840 | the event snapshots of any run, on any number of vCPUs, are those that the throttle grants to the hits that ask for one |
| RecorderPace.EventSnapshotsSpaced | nodefusion/plugin/nf_plugin.c:827-840 | so they never exceed the maximum, and are the minimum apart if the counts are above zero and do not decrease |
| WatchThrottle.RunTallied | nodefusion/plugin/nf_plugin.c:774-796 | in every state of every interleaving of the counters, what was let through or held back of each watch has settled as a hit, as a drop, or is on its way, and the drop counter is the sum over the watches |
| WatchThrottle.QuiescentTotals | nodefusion/plugin/nf_plugin.c:774-796 | with no hit on its way, n hits at rate r have settled as exactly ceil(n/r) hits and n - ceil(n/r) drops |
| PageTable.EntryRange | nodefusion/host/guest.py:287-296 | of the addresses of a table, those an entry covers are exactly those that select it |
| PageTable.Walker.Rec | nodefusion/host/guest.py:270-299 | what walking one table adds is sound, ascending and, without error, complete for its addresses, and only tables of that range are visited, so no visited table comes up again |
| PageWalk.EntryParts | nodefusion/host/guest.py:294-298 | an entry composed of ten flag bits, a page number of 44 bits and anything above points to page number times 4096, and is valid, and a leaf, by its flags alone |
| PageWalk.ListedIsResolved | nodefusion/host/guest.py:287-298 | the rule finds a mapping at its first address exactly if the tables hold it: 1 GiB by an entry of the root, 2 MiB or 4 KiB by one of a table one or two pointers away, each at the index that bits 30, 21 and 12 of the address begin |
| PageWalk.UnderRootIsMet | nodefusion/host/guest.py:287-298 | the tables met on the way to some address are the root and those one and two pointers away |
| PageWalk.WalkPagetable | nodefusion/host/guest.py:253-302 | a listed mapping is one the tables hold in the Sv39 format, with the address and flags its entry is composed of, and is what its addresses translate to; without error all of them are listed, from all tables under the root, every one observed; an error has its reason, which is a limit exceeded or a table under the root that was not observed; mappings ascend and are disjoint; sizes stay within the limits even for self-referencing tables |
| PageTable.StandardAgrees | nodefusion/host/guest.py:287-299 | translation by the standard succeeds exactly where the enumerator's rule finds a mapping over entries without reserved encodings, with the same address |
| PageWalk.ReservedIs | nodefusion/host/guest.py:287-299 | which entries the standard reserves, by their flag bits, the bits above the page number, and the page number of large pages |
| PageTable.WriteOnlyIsListed | nodefusion/host/guest.py:287-299 | an instance: a memory with an entry that is writable and not readable, where the enumerator lists a mapping and the standard has a page fault |
| BTreeMap.VisitComplete | nodefusion/model/readers/containers.py:468-533 | a tree of distinct unvisited nodes within the budget is returned whole and in order |
| BTreeMap.VisitSound | nodefusion/model/readers/containers.py:468-533 | a visit that does not stop went over such a tree |
| BTreeMap.VisitPaid | nodefusion/model/readers/containers.py:454-533 | whatever the memory, each node visited and each entry emitted is paid for from the budget |
| BTreeMap.VisitExtends | nodefusion/model/readers/containers.py:454-533 | a smaller budget gives a prefix of what a larger one gives, and the same where it sufficed |
| BTreeMap.ReadIsWholeTree | nodefusion/model/readers/containers.py:406-466 | for every memory a read carries no marker if and only if memory holds a tree of distinct nodes with as many entries as the length says, within the budget, and then it is exactly its entries in order |
| BTreeMap.ReadsGrow | nodefusion/model/readers/containers.py:454-533 | a larger limit only adds to what was read, and no limit is exceeded in nodes or entries |
| BTreeMap.Traversal.Emit | nodefusion/model/readers/containers.py:520-533 | the loop appends the entries of its slots, in place, until the budget runs out |
| BTreeMap.Traversal.Visit | nodefusion/model/readers/containers.py:468-518 | the recursion over output, budget and visited set, updated in place, gives the specified outcome |
| BTreeRead.VisitTells | nodefusion/model/readers/containers.py:468-533 | what makes a visit stop is so: the marker names a node reached over readable edges, a cycle is a node reached along two different paths, a bad length or edge is one in memory; and every entry returned is one stored in a node reached |
| BTreeRead.Read | nodefusion/model/readers/containers.py:406-466 | the reader returns entries without marker exactly if memory holds their number in the length field and either a null root and none, or a root and a height of at most 32 at their own places and under them a tree of distinct nodes within the budget with these entries in order, key and value at their offsets; with a marker, what that says is so; and each reason for having nothing is given exactly when it applies |
| LinkedList.Read | nodefusion/model/readers/containers.py:581-648 | the reader returns elements without marker exactly if memory holds a list of them within the limit, ended by the sentinel, by the list's own address, or, with a head pointer, by null or the first link after at least one element; otherwise they are those behind the first links, pairwise distinct and none of them an end, and the marker states the true reason for stopping; it is unavailable exactly for bad offsets or an unreadable head |
| LinkedList.CycleIsEndless | nodefusion/model/readers/containers.py:603-621 | after a cycle marker the chain really never ends nor breaks |
| LinkedList.WholeChain | nodefusion/model/readers/containers.py:581-648 | there is no marker if and only if the chain ends within the limit with element addresses that exist, and then all of it was read |
| CallStack.MergeRestores | nodefusion/host/callstack.py:30-36 | merging the entry and return streams of an ordered trace gives the trace |
| CallStack.ChainsAreProper | nodefusion/host/callstack.py:36-82 | for every trace each reported chain has at most 64 frames, one address space, stack pointers that do not grow inwards, and return addresses that resolve to the parent |
| CallStack.CpusAreIndependent | nodefusion/host/callstack.py:36-82 | in a merged stream, what is reported, popped and kept on the stack for one CPU depends on that CPU's items only |
| CallStack.MergeOn | nodefusion/host/callstack.py:30-36 | if both streams are in time order, a CPU's part of their merge is the merge of its parts of them |
| CallStack.CpusAreSeparate | nodefusion/host/callstack.py:11-82 | for two streams in time order, and a CPU that has a return if there is any, what is observed of it depends on its own events and returns only |
| CallStack.OutOfOrderPopsNothing | nodefusion/host/callstack.py:30-45 | an instance without time order: another CPU's entry keeps a return from popping what it pops on its own |
| CallStackMerge.MergeOrder | nodefusion/host/callstack.py:30-36 | whatever their order, the merge takes an entry before a return if and only if no count up to the entry is above all counts up to the return |
| CallStackMerge.MergeOnExactly | nodefusion/host/callstack.py:30-36 | a CPU's part of the merge is the merge of its parts if and only if, for each of its entries and returns, the largest counts up to them compare alike in the whole streams and in its own |
| CallStackMerge.CpusAreSeparateWherever | nodefusion/host/callstack.py:11-82 | then, with a return if there is any, what is observed of the CPU depends on its own events and returns only |
| CallStack.NoReturnsNoReports | nodefusion/host/callstack.py:28-29 | an instance of a CPU without returns that is reported with another CPU's return and not on its own |
| CallStack.RetentionOnlyRestricts | nodefusion/host/callstack.py:36-82 | asking for some entries only leaves out the others |
| CallStack.CallRuns | nodefusion/host/callstack.py:34-80 | on a well-nested call each entry is reported with its true chain, every return pops its own entry, and the stack is as before |
| CallStack.EveryReturnMatches | nodefusion/host/callstack.py:73-80 | in a well-nested trace there are as many matches as returns |
| CallStack.WellNestedIsObserved | nodefusion/host/callstack.py:36-82 | a CPU whose items in the merged stream are a well-nested trace gets its true chains and matches, whatever the items of the other CPUs |
| CallStack.WellNestedAmongOthers | nodefusion/host/callstack.py:11-82 | from two streams of any number of CPUs in time order: a CPU whose own entries and returns are those of an ordered well-nested trace gets its true chains and matches |
| CallStack.WellNestedOnOneCpu | nodefusion/host/callstack.py:28-82 | from the two recorded streams of a well-nested single-CPU trace: exactly the true chains, and matched equals the number of returns |
| CallStack.ObservedStacks | nodefusion/host/callstack.py:11-82 | the loop over dictionaries returns the paths, call sites and counts of the specified reports |
| CallStackLaws.ChainsAreTold | nodefusion/host/callstack.py:11-82 | for every merged stream: a reported chain consists of entries of its CPU in order, at most 64, each called by the one before it; from the outermost of them on the CPU has no trap, switch or entry without a frame up to the reported entry, and every other entry there has had its return |
| CallStackLaws.BreakStartsOver | nodefusion/host/callstack.py:46-52 | the first entry with a frame after a trap, a switch or an entry without a frame is reported alone |
| CallStackLaws.EntryLaw | nodefusion/host/callstack.py:53-80 | an entry joins the innermost frame exactly if that called it, by raw or displayed name, address space and stack pointer, and fewer than 64 frames are there; it is reported with what is then on the stack exactly if it was asked for |
| CallStackLaws.ReturnLaw | nodefusion/host/callstack.py:36-45 | a return takes the innermost frame away exactly if its registers were read and target, stack pointer and address space are those of the frame |
| CallStackLaws.RelevantKinds | nodefusion/host/callstack.py:30-32 | which events go into the stream |
| CallStackLaws.FrameShown | nodefusion/host/callstack.py:69-78 | how each frame of a chain is named, and where it stands |
| CallStackLaws.DictionariesSay | nodefusion/host/callstack.py:68-78 | the dictionaries have an id exactly if it was reported, with what its last report shows |
| PointerWalk.Walk | nodefusion/model/exec.py:258-295 | the list is, of the roots and the nodes behind the edges of what is listed, in this order, the first one of each address; in ascending depth, with a true trail of the least number of edges, and nothing nearer than the last node missing, even if the limit cuts the walk short; otherwise every reachable address is listed, and roots and edges add up to nodes and cycles |
| PointerWalk.AllListed | nodefusion/model/exec.py:258-295 | at every moment, whatever is reachable over k edges is listed at depth at most k, unless the queue still begins with depth k or less |
| PointerWalk.LeastDepth | nodefusion/model/exec.py:258-295 | a listed node has the least depth at which its address can be reached, wherever the walk stops |
| PointerWalk.TrailLength | nodefusion/model/exec.py:13-22 | a trail is one root's trail with one label for each edge |
| PointerWalk.EdgesNext | nodefusion/model/exec.py:280-291 | an item leads on exactly if it is an address from 0x1000 up to below the last page, labelled by its key or its place, in order |
| PointerWalk.ProblemsNext | nodefusion/model/exec.py:275-294 | the problems of a node: children that cannot be had, or each of them that cannot be read or is no address |
| EventSampler.ExtrasTelescope | nodefusion/host/bundle.py:70-77 | the shares beyond the floors sum to exactly what remains and none exceeds what its kind has left |
| EventSampler.QuotasFit | nodefusion/host/bundle.py:62-78 | a budget no larger than the events is used up exactly; every quota lies between the lesser of count and floor and the count |
| EventSampler.KeptSoFar | nodefusion/host/bundle.py:117-126 | how many of the first n events of a kind are kept, in closed form |
| EventSampler.QuotaIsKept | nodefusion/host/bundle.py:117-126 | over all its events a kind keeps exactly its quota |
| EventSampler.KeptAtPosition | nodefusion/host/bundle.py:117-126 | a kept event of rank j stands at ceil(j * (t - 1) / (q - 1)) among its kind |
| EventSampler.EvenlySpread | nodefusion/host/bundle.py:117-126 | the first and the last event of a kind are kept and the gaps differ by at most one |
| EventSampler.SampleIsExact | nodefusion/host/bundle.py:81-135 | of a stream over the limit exactly MAX_EVENTS are kept, in order, and every kind keeps exactly its quota, which does not exceed its count |
| EventSampler.ChosenAtPosition | nodefusion/host/bundle.py:114-132 | in the whole stream, the j-th kept event of a kind is the one at the specified position |
| EventSampler.KeptOrDropped | nodefusion/host/bundle.py:114-132 | what was kept and what was dropped of a kind is what there was |
| EventSampler.KindBudgets | nodefusion/host/bundle.py:62-78 | the loops over the dictionaries give every kind its quota in dictionary order, and the floor |
| EventSampler.Sample | nodefusion/host/bundle.py:114-132 | the pass keeps the chosen events in order and tallies the kept and the dropped by kind |
| EventSampler.EventSelection | nodefusion/host/bundle.py:81-154 | a stream that fits is kept whole; of a longer one exactly the limit is retained, the semantic kinds exactly their budget, and the report has the quotas and floors of both groups and accounts for every event by kind |
| SamplerLaws.GroupsKept | nodefusion/host/bundle.py:100-107 | of a stream of more than 150000 events that many are kept, of the semantic ones all exactly if they are 125000 at most, of the diagnostic ones (kinds that begin with "func.") all exactly if they are 25000 at most, and else as many as there is room for |
| SamplerLaws.BudgetIsRoom | nodefusion/host/bundle.py:100-107 | the budgets of the report are this room |
| SamplerLaws.KindsKept | nodefusion/host/bundle.py:62-78 | a kind keeps at least 64 events, or its even share of the room of its group, or all of them, whichever is least |
| SamplerLaws.QuotaIsShare | nodefusion/host/bundle.py:65-77 | the quota of a kind: its floor, and the excess of the kinds up to it scaled to what the floors leave and rounded down, less the same for the kinds before it |
| SamplerLaws.KindsInOrder | nodefusion/host/bundle.py:83-83 | kinds are taken in the order in which they first occur |
| SamplerLaws.KeptExactly | nodefusion/host/bundle.py:117-126 | which event of a kind is kept, by its number, the quota and the count |
| RustV0.ReadIdent | nodefusion/model/symbols.py:105-119 | the loop reads the identifier the specification says |
| RustV0.ReadBase62 | nodefusion/model/symbols.py:125-143 | the loop reads the number the specification says |
| RustV0.ReadList | nodefusion/model/symbols.py:191-197 | the loop over generic arguments, or over tuple types, ends where the specification says |
| RustV0.PathStable | nodefusion/model/symbols.py:201-244 | unless the stack was exhausted, more of it gives the same result |
| RustV0.DemangleStable | nodefusion/model/symbols.py:247-263 | a name that demangles does so the same with more stack |
| RustV0.ReadSucceeds | nodefusion/model/symbols.py:214-219 | a path that was read has had every path below it, through back references too, read with less stack |
| RustV0.NeverInsideItself | nodefusion/model/symbols.py:214-219 | a path that is read again while being read is never read to the end |
| RustV0.SelfEnclosing | nodefusion/model/symbols.py:214-219 | a back reference to a path that encloses it never succeeds, whatever the stack, although it points backwards |
| RustV0.AroundIsNoName | nodefusion/model/symbols.py:214-219 | an instance: the body NvB_1a refers back to its own beginning and demangles with no stack |
| RustV0Stack.PathReadsOn | nodefusion/model/symbols.py:201-244 | reading composes: what reads a path reads all that this one reads, with any larger fuel too |
| RustV0Stack.PathDeep | nodefusion/model/symbols.py:201-244 | a path that exhausts the stack reads one that does with at most 2n + 3 calls less, n being the length of the name |
| RustV0Stack.DeepForEveryStack | nodefusion/model/symbols.py:201-244 | a path exhausts every stack if and only if it comes upon a path that comes upon itself, and if and only if it exhausts one of (n + 2) (2n + 3) calls |
| RustV0Stack.RunsOutForEveryStack | nodefusion/model/symbols.py:247-263 | a symbol runs out of every stack if and only if its path, or that of its instantiating crate, comes upon a path that comes upon itself |
| RustV0Stack.ResultSettles | nodefusion/model/symbols.py:247-263 | with that stack or any larger one every symbol has the same result, and only those that come back to themselves run out |
| RustV0Grammar.Base62RoundTrip | nodefusion/model/symbols.py:125-143 | a printed base-62 number is read back wherever it stands |
| RustV0Grammar.IdentRoundTrip | nodefusion/model/symbols.py:105-119 | an identifier reads back exactly if its separator is there or what follows its length is neither digit nor underscore |
| RustV0Grammar.EmptyNameMisread | nodefusion/model/symbols.py:105-119 | an instance: a path in a crate without name never demangles as RFC 2603 prints it, and does with a separator |
| RustV0Grammar.PathRoundTrip | nodefusion/model/symbols.py:201-244 | where a path is printed its segments are read and nothing beyond its end, exactly if the stack has room for its depth |
| RustV0Grammar.TypeRoundTrip | nodefusion/model/symbols.py:176-198 | the same of a type |
| RustV0Grammar.ConstRoundTrip | nodefusion/model/symbols.py:155-173 | the same of a constant |
| RustV0Grammar.ArgsRoundTrip | nodefusion/model/symbols.py:234-243 | the same of a list of generic arguments or tuple types |
| RustV0Grammar.SymbolRoundTrip | nodefusion/model/symbols.py:247-263 | a printed symbol, with or without its instantiating crate, demangles to the segments of its path |
| Paths.JoinAppend | nodefusion/model/symbols.py:263-263 | joined segments stand in their order with two colons between them |
| Segments.SplitJoin | nodefusion/model/symbols.py:263-263 | segments without a colon are recovered from the joined name |
| RustV0Laws.NamesInOrder | nodefusion/model/symbols.py:201-263 | the demangled text of a printed symbol: the name of a crate, the text of the parent with two colons and the name after it, the text of the type an implementation is for, the text of a path without its generic arguments |
| RustV0Laws.SegmentsRecovered | nodefusion/model/symbols.py:247-263 | the segments of the path, in order, can be read off the demangled text |
| RustV0Laws.BackReference | nodefusion/model/symbols.py:214-219 | a reference to a printed path reads as that path, exactly if it points backwards and the stack suffices |
| RustV0Laws.FirstLetters | nodefusion/model/symbols.py:201-263 | what a symbol that demangles begins with, by the forms that are switched on |
| RustV0Laws.NothingFollows | nodefusion/model/symbols.py:247-263 | nothing but an instantiating crate may follow a symbol |
| RustV0Laws.BasicTags | nodefusion/model/symbols.py:146-181 | of all letters, which ones are basic types |
| RustV0Laws.PrefixTags | nodefusion/model/symbols.py:185-190 | which letters are slices, pointers and references |
| RustV0Laws.HexDigits | nodefusion/model/symbols.py:155-173 | which characters a constant is written in |
| RustV0Laws.AlnumDigits | nodefusion/model/symbols.py:94-102 | which characters a disambiguator is written in |
| RustV0Grammar.UncompressedOk | nodefusion/model/symbols.py:201-244 | the path with its back references replaced is printable, has the same segments and fits the same stack |
| RustV0Grammar.CompressionIsMeaningless | nodefusion/model/symbols.py:247-263 | a name with back references that demangles gives the same as the name written out in full |
| Leb128.Reader.Uleb | nodefusion/host/dwarf.py:110-120 | the loop returns the unsigned value and moves past it exactly if the number ends within 19 bytes of the data, and otherwise says why not |
| Leb128.Reader.Sleb | nodefusion/host/dwarf.py:122-134 | the same for two's complement |
| Leb128.UnsignedRoundTrip | nodefusion/host/dwarf.py:110-120 | an encoded number is read back, whatever follows, if and only if it is below 2^133 |
| Leb128.SignedRoundTrip | nodefusion/host/dwarf.py:122-134 | an encoded signed number is read back if and only if it fits in 133 bits |
| Leb128.ShortestEncoding | nodefusion/host/dwarf.py:110-120 | of all byte strings with a value, the standard encoding is the shortest |
| DieTree.DwarfInfo.CommitLayout | nodefusion/host/dwarf.py:439-452 | a second layout of a path is kept, replaced or marked as the specification says |
| DieTree.DwarfInfo.PopFrame | nodefusion/host/dwarf.py:337-347 | closing an entry commits its struct and registers its enumerators |
| DieTree.DwarfInfo.ReadEntry | nodefusion/host/dwarf.py:384-428 | an entry changes the dictionaries and the stack as one step of the machine |
| DieTree.DwarfInfo.ParseUnit | nodefusion/host/dwarf.py:334-437 | after a unit the dictionaries are what a recursive visit of the trees in the stream gives, with no stack |
| DieTree.LoopIsRecursion | nodefusion/host/dwarf.py:334-437 | for every stream, balanced or not, the stack machine is structural recursion |
| DieTree.ForestOfPreorder | nodefusion/host/dwarf.py:334-437 | reading a forest serialised in preorder with null entries gives it back |
| DieTree.UnitOfPreorder | nodefusion/host/dwarf.py:334-437 | the same for the parser, even with null entries missing at the end of the unit |
| DieTree.OwnChildren | nodefusion/host/dwarf.py:325-420 | a struct gets the members among its own children, an array the extents of its own subranges, and nothing from deeper down |
| DieTree.VisitCommits | nodefusion/host/dwarf.py:384-437 | exactly the structs of the forest are committed, inner ones first, each with its own members and the path of its namespaces, and exactly its enumerations registered |
| DieTree.VisitBuilds | nodefusion/host/dwarf.py:384-437 | every array and struct of the forest ends up complete at its offset |
| DieTree.UnitBuilds | nodefusion/host/dwarf.py:334-437 | the same for a unit whose entries stand one after another |
| DieTree.ConflictIff | nodefusion/host/dwarf.py:439-452 | of all layouts committed for a path the first with fields is kept, or else the first, and the path is in conflict if and only if two of them contradict each other |
| DieLaws.LayoutSays | nodefusion/host/dwarf.py:405-420 | the layout of a struct entry, and of nothing else: its name, size and path, the offset of the last own member of each name, by a constant or the operator 0x23 with a number, and the type of the last one that has any |
| DieLaws.PathIs | nodefusion/host/dwarf.py:405-416 | a path is the namespaces, outermost first, and the name, with two colons between them, and can be taken apart again |
| DieLaws.StructsStand | nodefusion/host/dwarf.py:384-428 | the structs of a forest are those entries that stand in it with one of the three tags, a name and no declaration mark |
| DieLaws.StructsOfUnit | nodefusion/host/dwarf.py:334-452 | a path has a layout after a unit exactly if a struct of this path stands in it, and then that of one of them |
| DieLaws.EntriesOfUnit | nodefusion/host/dwarf.py:384-420 | every struct and every array of a unit is to be found at its offset, with its layout, or with its element type and the length that the last of its own subranges gives by a count, or else an upper bound and one |
| DieLaws.EnumsOfUnit | nodefusion/host/dwarf.py:403-430 | the enumerations registered are those with an enumerator among their own children, or without children |
| DieLaws.EnumsMerge | nodefusion/host/dwarf.py:345-346 | enumerations of one path are merged, later values replacing earlier ones |
| DieLaws.DiesSay | nodefusion/host/dwarf.py:384-385 | tag, name and size of an entry with a name or a size are known by its offset |

## Left out

- The QEMU plugin API, register reads, guest memory reads, zlib and the file system: parameters, or a pair of functions of which one inverts the other. Texts of META and WARN records are one byte.
- Recording.Drive: what the C code does from a snapshot of a closed output on; the run stops before it.
- Plugin.Plugin.constructor: the META records of the install function and the reading of the watch list; the setup holds the options after their defaults, and Recording takes the watches as given.
- Plugin.Plugin.Snapshot: a failing seek when the mark of a snapshot is rewritten is a flag; the mark then keeps its first contents.
- Plugin.Plugin.WatchHit: the counters of guest records read and missed, which no record carries; a hit reaches this method with its registers read.
- Plugin.Plugin.Finish: the notes carry no text, so the counters of memory reads and fallbacks are not part of the state.
- TraceFile.Load: the splitting of META texts into a dictionary, and loading without pages.
- The time a snapshot takes, and iter_records.
- WatchThrottle.QuiescentTotals: hit counters are unbounded, not 64 bits wide.
- Scheduler.TimerKeepsPace: stated for one vCPU and deadlines below 2^64; with several vCPUs instruction counts may arrive out of order.
- Scheduler.EventsSpaced: stated for counts above zero that never decrease; a snapshot at count zero would read as none taken.
- PageWalk.WalkPagetable: bitwise or of an address and an index is written as a sum, the two having no bit in common.
- BTreeRead.Read and LinkedList.Read: memory is a function, and the readers of keys, values and elements are functions that do not look at the limit.
- The vec, array, vecdeque, string and strong readers, the legacy demangler, the compiler's suffixes on symbol names, and the walk over the rCore process tree: direct readings or simpler forms of what is here.
- RustV0.ReadIdent: characters are ASCII; the interpreter's limit on the digits of a number is not modelled; its stack is a number of nested calls.
- RustV0Grammar.CompressionIsMeaningless: a back reference to a constant is passed over unread by the parser, and a placeholder stands for it in the name written out in full.
- DieTree.DwarfInfo.ParseUnit: entries come decoded; the unit header, the abbreviation table and the attribute forms that decode them are not part of this model, nor is the text of a conflict. Struct layouts under construction are kept by offset instead of by reference.
- Reports, web pages, manifests, layouts of particular kernels and everything that only formats.
