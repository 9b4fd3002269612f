# A verified model of libgtop

libgtop reports system and process statistics. Most of it copies what a kernel says; this project
models the parts that compute something, and proves what they promise. The kernel is an arbitrary
input: a list of records, a file's text, a stream of bytes that arrives in pieces of any size.

`dafny verify dfyconfig.toml` checks everything.

## What is modelled

* **The client and the server.** `Wire` holds the version banner and the two fixed-size records,
  `Service` what the server does with one command. `Session` is a state machine whose steps are
  single system calls, signals and failing writes of a client and a daemon joined by two byte
  streams. `SessionProofs` has the invariant while both are in step and the measure,
  `SessionLosses` the invariant after a lost write of the daemon, `SessionRest` why every session
  comes to rest, and `SessionResults` safety, progress and the exact condition for success over
  every run. `Library` and `Daemon` are
  the C functions themselves as classes and methods over `Streams`, including the mutually
  recursive lazy initialiser. `CommandLoop` says by its number what becomes of one command, and
  `EndToEnd` shows that what one side writes is what the other side reads.
* **Kernel accounting.** `Swap` splits free extents over interleaved devices, `CpuTime` apportions
  run time by ticks. `SharedMemory` says what the shared-object table of Darwin means, and
  `SharedTable` is the chained hash table in the heap, the loops over it, and its release.
  `MemoryReport` says what each kind of region adds to the report, and what that adds up to.
* **The text of `/proc`.** `ProcText` has the scanners, `ProcFile` the file buffer and the scaled
  numbers, `ProcStat` and `CpuLines` the printed records and the proofs that the readers undo the
  printing, `ProcReaders` and `CpuStat` the readers. `Printed` and `Decimal` are about numerals.
* **Lists.** `ProcArgs` joins, cuts and splits argument vectors, `ProcList` builds the process
  lists of AIX and FreeBSD, `ProcMap` walks the circular list of memory maps, `MountList` reads,
  filters and frees the mount table.

## Where the code and its promises part

* Versions without the separator text do not make banners unambiguous, because the separator starts
  and ends with a space (`Wire.SeparatorFreeVersionsMayClash`); `Wire.VersionsRecovered` has the
  exact condition. The structure sizes are always recovered.
* A request of more than 16 bytes is announced in `data_size` and then never written, so the daemon
  waits for it for ever (`SessionResults.LongRequestHangs`, `SessionResults.FsusageHangs`). The
  commands `PROC_WD`, `NETLIST`, `PROC_OPEN_FILES` and `PROC_AFFINITY`, and unknown ones, get no
  reply from the parent's loop. `SessionResults.AllCallsReturnIff` says when a session completes.
* The daemon takes an interrupted read for the end of the stream. In the read of a command it drops
  the connection; in the read of data it goes on with what has come, and so answers a long request
  as an empty one (`SessionResults.FsusageMisheard`).
* The daemon only warns about a write that fails, and goes on with the next one. A response record
  that is lost leaves both sides waiting, or makes the client take the data behind it for a record;
  the call never returns what a direct one does (`SessionResults.LostRecordHangs`,
  `SessionResults.LostRecordMisleads`, `SessionResults.ProclistMisleads`).
* The `free` field of the swap report holds the capacity. It is the free space exactly when every
  active device is free throughout (`Swap.ReportedFreeIsFreeIff`, `Swap.FreeFieldWrong`).
* The shares of `calcru` are exact only while the product of ticks and microseconds fits 64 bits
  (`CpuTime.ShareExactIff`, `CpuTime.ShareLost`).
* The report of a process's memory may depend on the order of its regions
  (`SharedMemory.OrderMatters`). `SharedMemory.ReportOrderFreeIff` says exactly when it does not.
  The zeroed head of bucket 0 takes the registrations of object 0, which therefore counts nothing.
* `get_scaled` searches the whole rest of the buffer for its unit, so a number without one is scaled
  by the next `k` or `M` of any later line, and the product wraps around (`Printed.ScaledIff`,
  `Printed.WrongUnit`, `Printed.TooManyKilobytes`).
* A CPU line is recognised by a prefix, so with CPUs off line `cpu10` passes for `cpu1`
  (`CpuLines.PassesIff`, `CpuLines.TenTakenForOne`). `CpuLines.OwnRowsIff` says when every line is
  taken for its own CPU.
* The state reader dereferences a null pointer when the record has no closing parenthesis
  (`ProcStat.NullPointerIff`, `ProcStat.EmptyRecord`).
* FreeBSD's reader lists a process twice exactly when it has two runs of records whose first records
  pass the filter (`ProcList.NoRepeatIff`, `ProcList.NoRepeatIffGrouped`).
* Its query by effective user compares the real one. `ProcList.EffectiveUserIff` and
  `ProcList.EffectiveListIff` say exactly when that makes no difference, and
  `ProcList.WrongUserListed` shows that it can.
* Joined arguments are reported without the last terminator, so one empty argument at the end is
  lost when they are split (`ProcArgs.SplitReported`).

## Model

| member | source | states |
|---|---|---|
| Wire.EqualBanners | src/daemon/version.c:36-43 | equal banner texts force equal command, response, union and sysdeps sizes, and equal version strings up to where they are divided |
| Wire.VersionsRecovered | include/glibtop/version.h:27 | a banner determines both version strings if and only if the separator text occurs in it exactly once |
| Wire.SeparatorFreeVersionsMayClash | include/glibtop/version.h:27 | two different pairs of versions, none containing the separator, that print the same banner |
| Wire.CommandRoundTrip | include/glibtop/command.h:74-79 | the bytes of a command record decode to the same four fields |
| Wire.CommandWords | include/glibtop/command.h:74-79 | number, size, data size and parameter are found at their places in a written command record |
| Wire.HeaderWords | src/daemon/io.c:33-37 | offset, data size and union are found at their places in a written response record |
| Service.InlineParameterOfPack | src/daemon/main.c:81-90 | a short request reaches the handler as its own bytes, zero-padded to the whole parameter buffer |
| Service.CopyStaysInside | src/daemon/main.c:89 | for every command that the library packs the copy of the parameter stays inside the record |
| SessionProofs.Step | lib/command.c:78-110 | every enabled system call of either side that is not a lost write, and every signal that strikes a read, keeps the two sides in step |
| SessionProofs.DataCutStep | src/daemon/main.c:80 | after a signal in the read of the data the streams are still in step, with the call heard as one with an empty request |
| SessionProofs.CommandDropped | src/daemon/io.c:65-78 | a signal in the read of a command makes the daemon leave, wherever the client is |
| SessionProofs.CommandArrives | src/daemon/main.c:58-95 | a packed command is decoded as sent and makes the daemon send the reply of a direct call, skip it, leave, or wait for data, depending on the call alone |
| SessionProofs.ReplyArrives | lib/command.c:93-110 | with equal banners a reply is cut off the stream at its own length and read as the direct result |
| SessionProofs.WorkDecreases | lib/read.c:40-55 | while the sides are in step every system call that is neither an interrupted read of the client nor a lost write lowers a measure of the work left |
| SessionProofs.CompletedIsTerminal | lib/command.c:91-108 | in a completed session only signals and failing writes can still do something |
| SessionLosses.TextIsNoSize | src/daemon/version.c:47-61 | when the length of the banner is lost, its text is never taken for a length that the client expects |
| SessionLosses.UngreetedStep | src/daemon/version.c:47-61 | after a lost write of the banner no call is ever sent, whatever happens |
| SessionLosses.FirstLoss | src/daemon/io.c:36-53 | the first lost write turns the invariant of sides in step into that of a lost banner or reply |
| SessionLosses.WrongResult | lib/command.c:93-110 | whatever the client cuts out of what is left of a reply, the result is not the direct one |
| SessionLosses.AstrayStep | src/daemon/io.c:36-53 | every system call, signal and further lost write keeps that second invariant |
| SessionLosses.EveryStep | src/daemon/io.c:26-92 | every enabled action of either side, lost writes among them, keeps the whole invariant |
| SessionRest.EveryMoveRanks | src/daemon/slave.c:43-117 | in every state, in step or not, every action but an interrupted read of the client lowers a lexicographic rank |
| SessionRest.NoEndlessSession | src/daemon/slave.c:43-117 | no session goes on for ever without interrupted reads of the client |
| SessionRest.CanFinish | src/daemon/slave.c:43-117 | from every state some run without further signals and lost writes comes to rest |
| SessionResults.RunKeepsInv | src/daemon/main.c:58-258 | the whole invariant over whole runs, under every signal and lost write; what was lost first stays recorded |
| SessionResults.RunWorks | lib/read.c:40-55 | the bound on the number of system calls over whole runs without a lost write |
| SessionResults.RemoteCallsAreDirectCalls | lib/command.c:78-110 | in every interleaving and chunking, under every signal and whichever writes of the daemon are lost, the calls before the first lost write have returned exactly what direct calls return, in order, except that a request too long for its record whose data read was interrupted is answered as an empty one; the call whose reply the first lost write belongs to never returns its direct result; without a lost write both streams are empty between calls and each command has had one response; with different banners nothing is ever sent |
| SessionResults.Undisturbed | src/daemon/io.c:36-79 | a run without interrupted reads and lost writes of the daemon drops no command, cuts no request and loses nothing |
| SessionResults.SessionsEnd | src/daemon/main.c:58-95 | without a lost write a run has at most a fixed number of system calls other than interrupted reads of the client, and it is at rest if and only if every call before the first unanswered one is done |
| SessionResults.AllCallsReturnIff | lib/command.c:84-93 | a session at rest has done all its calls with their direct results if and only if the banners agree, every call was heard as one that can be answered, no signal ended the read of a command before the last call, and no write was lost |
| SessionResults.UndisturbedCallsReturnIff | lib/command.c:84-93 | without interrupted reads and lost writes of the daemon: if and only if the banners agree and every call fits its record and is answered; and the results are those of direct calls |
| SessionResults.LongRequestHangs | lib/command.c:84-93 | without a signal or a lost write, a request longer than the parameter field leaves the daemon waiting for data and the client waiting for its reply |
| SessionResults.FsusageHangs | lib/command.c:84-93 | a run in which a file system query for a path of 17 bytes hangs |
| SessionResults.FsusageMisheard | src/daemon/main.c:80 | a run in which a signal then makes the daemon answer it for the empty path |
| SessionResults.LostRecordHangs | src/daemon/io.c:36-42 | a lost response record without data leaves both sides waiting, or the daemon leaves |
| SessionResults.LostRecordMisleads | src/daemon/io.c:36-53 | when the data behind a lost record looks like a record without data, the client returns that and all its calls are done |
| SessionResults.ProclistMisleads | src/daemon/io.c:36-53 | such a session exists for every build: a process list that is taken for its response record |
| Daemon.DoRead | src/daemon/io.c:57-92 | reads exactly `size` bytes whatever the pieces, or 0 after end of file or a signal; what has come in is in the front of the buffer |
| Daemon.DoOutput | src/daemon/io.c:26-55 | writes one response record and then the trailing data; of two writes that may fail, exactly what the successful ones carry |
| Daemon.SendVersion | src/daemon/version.c:30-62 | the length of the banner and its text with the final NUL, each unless its write fails |
| Daemon.CopyParameter | src/daemon/main.c:81-90 | the inline parameter lies in a zeroed buffer |
| Daemon.FetchRequest | src/daemon/main.c:58-90 | takes one command and its parameter off the input, or ends the loop at end of file, at a signal, and at sizes of BUFSIZ and more; data cut by a signal is used as it is |
| Daemon.Answer | src/daemon/main.c:92-257 | what is written about a command, and whether the loop goes on |
| Daemon.Round | src/daemon/main.c:92-257 | one round, under any signal and any failed write, is the specified step from written and unread bytes to the new ones |
| Daemon.ServeCommands | src/daemon/slave.c:43-117 | output, unread input and end of the loop under all signals and failed writes it meets; none is made up when none can happen |
| Daemon.CalmRounds | src/daemon/slave.c:43-117 | without signals and failed writes the rounds make what the recursive description of the loop makes |
| Daemon.HandleConnection | src/daemon/slave.c:41-117 | the same behind the banner; undisturbed, the output is the banner and one exact function of the input |
| CommandLoop.LoopOnCommand | src/daemon/main.c:58-258 | for every command, by its number: both loops answer 0 and end; the parent's answers 1 to 23, 28 and 29 with one record and passes over all others; the slave's answers 1 and the privileged ones and ends at all others; sizes from 8192 on end both |
| CommandLoop.ParentAnswersIff | src/daemon/main.c:92-257 | for a command that fits, the parent's loop writes something if and only if its number is one of 0 to 23, 28 and 29, and that is exactly one record with its data |
| Library.Glibtop.constructor | lib/init.c:177-207 | a new server structure satisfies the library's invariant, with no state bits set |
| Library.Glibtop.InitServer | lib/init.c:39-155 | settles method, host and port as the specification of the command string says, or fails on an unknown method |
| Library.Glibtop.ParseInet | lib/init.c:104-135 | host and port are the first two colon-separated fields, with the defaults for those that are missing or not numbers |
| Library.Glibtop.InitS | lib/init.c:223-256 | runs every hook exactly once and sets the sysdeps bit |
| Library.Glibtop.FirstInit | lib/init.c:177-207 | allocates the machine data once, records the requested features, and settles method, host and port |
| Library.Glibtop.PickMethod | lib/init.c:181-206 | the method after both checks of the feature mask |
| Library.Glibtop.InitR | lib/init.c:157-221 | state bits only grow, a ready library is left alone, and the recursion with the open and call functions ends |
| Library.Glibtop.Fill | lib/read.c:40-55 | fills the buffer through interrupted and short reads if and only if that many bytes will arrive |
| Library.Glibtop.ReadL | lib/read.c:30-56 | the same behind lazy initialisation |
| Library.Glibtop.WriteL | lib/write.c:30-52 | appends the bytes after any number of interrupted writes; fails exactly on an error |
| Library.Glibtop.CallL | lib/command.c:30-111 | writes one packed command and returns the window and the data of the next reply; succeeds exactly when the whole reply will arrive |
| Library.Glibtop.ReadReply | lib/command.c:93-110 | consumes exactly one response record with its trailing data |
| Library.Glibtop.CheckVersion | lib/open.c:119-145 | succeeds exactly when the input starts with the client's own banner, and consumes that |
| Library.Glibtop.AskFeatures | lib/open.c:147-154 | one query and one reply, and the server's feature word from it |
| Library.Glibtop.Connect | lib/open.c:59-158 | ends with the server bit and the server's features exactly when the handshake bytes arrive |
| Library.Glibtop.OpenL | lib/open.c:35-166 | a direct method never gets the server bit; any other one succeeds exactly when the handshake does |
| Library.Drive | lib/init.c:172-255 | under any sequence of entries with any flags: state bits only grow, machine data, open body and every hook happen at most once, and a direct method has no server |
| Library.ScanDec | lib/init.c:131-132 | a printed port number is read back as far as it fits a `long`, and saturates beyond |
| Library.InetAddress | lib/init.c:88-135 | `:inet:host:port` with a colon-free host means that host, and that port if and only if it fits a `long` |
| Library.ScanNegative | lib/init.c:131-132 | so is a negative one |
| Library.AsksIff | lib/init.c:181-192 | which features an initialisation asks for: those named, or all but those named, or all 29 when these are none |
| Library.NameSettles | lib/init.c:96-152 | for every mask: `:direct` settles on the direct method, `:inet` on the Internet, `:unix` and `:pipe` on theirs if and only if a feature in the mask is asked for and on the direct method otherwise; every other name fails |
| Library.InternetSettles | lib/init.c:104-135 | host and port of every form of the Internet address, with `localhost` and 42800 for what is missing or no number |
| Library.PlainCommandStartsServerIff | lib/init.c:69-80 | with a plain path the server is started if and only if a feature in its mask is asked for |
| Library.InitNamed | lib/init.c:157-206 | the initialiser itself on a fresh library ends with that method, or fails |
| Library.InitInternet | lib/init.c:157-206 | and with that host and port, whatever the mask |
| Library.InitPlain | lib/init.c:157-206 | and for a path, and for a caller without server |
| Library.FeaturesComeBack | lib/open.c:147-154 | a set of features comes back from the 64-bit word that holds it |
| EndToEnd.FetchesCommand | src/daemon/main.c:58-90 | the daemon's method takes exactly the command that the client's method wrote |
| EndToEnd.DaemonAnswersAll | src/daemon/main.c:58-258 | the loop sends exactly one reply per command, in order, and leaves nothing unread |
| EndToEnd.ClientReadsNext | lib/command.c:93-110 | reading the next reply off that output gives the direct result and leaves the later replies |
| EndToEnd.GreetedIff | lib/open.c:125-145 | the banner check succeeds if and only if both sides print the same text |
| EndToEnd.OpeningAnswered | src/daemon/main.c:96-101 | both loops of the daemon answer the first command of a connection with exactly one record, and leave nothing unread |
| EndToEnd.HandshakeIff | lib/open.c:116-158 | on the banner and what the daemon's own loop makes of that command, opening succeeds if and only if the banners agree; the client then holds the server's feature word and nothing is left over |
| Swap.StripeStep | sysdeps/bsd/swap.c:314-319 | one turn of the inner loop moves to a later stripe and assigns all blocks passed to the device they lie on |
| Swap.LastStripe | sysdeps/bsd/swap.c:320-321 | what the loop leaves lies within one stripe |
| Swap.BlocksCounted | sysdeps/bsd/swap.c:302-313 | the number of blocks of an extent on a device is that of the blocks b with `(b / dmmax) % nswdev` that device |
| Swap.BlocksConserved | sysdeps/bsd/swap.c:302-313 | every block lies on exactly one device |
| Swap.FreeConserved | sysdeps/bsd/swap.c:288-324 | the devices' free blocks add up to the extents' free blocks |
| Swap.SplitExtent | sysdeps/bsd/swap.c:297-321 | adds to each device exactly the extent's blocks b with `(b / dmmax) % nswdev` that device; ends |
| Swap.CountFree | sysdeps/bsd/swap.c:283-324 | `perdev[d]` is the number of free blocks on d, `nfree` all free blocks, and the first adds up to the second |
| Swap.ReportTotals | sysdeps/bsd/swap.c:329-364 | used, free and total in terms of the capacity of the active devices |
| Swap.ReportedFreeIsFreeIff | sysdeps/bsd/swap.c:330-364 | when no device has more free blocks than room, the capacity that `free` reports is the free space if and only if every active device is free throughout |
| Swap.GetSwap | sysdeps/bsd/swap.c:281-364 | the report as a function of devices and extents, with that condition for its `free` field |
| Swap.FreeFieldWrong | sysdeps/bsd/swap.c:354-364 | a half-used device that is reported as all free |
| CpuTime.Timeval.SetMicros | sysdeps/bsd/proctime.c:98-99 | the microsecond part is below a million and `tv2sec` returns the share exactly |
| CpuTime.Calcru | sysdeps/bsd/proctime.c:61-108 | each time is the share of its ticks in the clamped run time, with the 64-bit wrap-around; no ticks count as one system tick |
| CpuTime.ShareExactIff | sysdeps/bsd/proctime.c:96-106 | a share is the exact rounded one if and only if its product fits 64 bits |
| CpuTime.ShareLost | sysdeps/bsd/proctime.c:96-97 | a product of 2^64 leaves a share of 0 |
| CpuTime.SharesConserve | sysdeps/bsd/proctime.c:96-106 | exact shares add up to the whole or fall short by at most two microseconds |
| CpuTime.TwoMicrosecondsLost | sysdeps/bsd/proctime.c:96-106 | the bound of two is reached |
| CpuTime.TimesAddUp | sysdeps/bsd/proctime.c:73-107 | the computed times of a process add up within that bound when the products fit |
| CpuTime.SharesOfTicks | sysdeps/bsd/proctime.c:67-105 | in the numbers of the process: without wrap-around each time is the run time times its ticks by all ticks, rounded down; a negative run time counts as none, and no ticks at all as system time |
| SharedMemory.TableContents | sysdeps/darwin/procmem.c:90-117 | after any sequence of regions: exactly the registered non-zero objects are in the table, with the attributes of their first region and as many references as registrations |
| SharedMemory.PagesConserved | sysdeps/darwin/procmem.c:220-233 | every object's pages count once, as private or as shared |
| SharedMemory.OrderFreeIff | sysdeps/darwin/procmem.c:90-117 | any sum over the table is the same for every order of the regions if and only if, for each object, all its regions would leave entries that count the same |
| SharedMemory.ReportOrderFreeIff | sysdeps/darwin/procmem.c:165-243 | the exact condition of that kind for `rss`, for `share` and for `size` |
| SharedMemory.OrderDoesNotMatter | sysdeps/darwin/procmem.c:165-233 | in particular for attributes that are the same in all regions of an object |
| SharedMemory.OrderMatters | sysdeps/darwin/procmem.c:106-113 | two orders of the same two regions, reported as 10 and as 20 shared pages |
| SharedTable.SharedInfo.Free | sysdeps/darwin/procmem.c:84 | only an allocated node can be freed, and it is gone afterwards |
| SharedTable.Heads | sysdeps/darwin/procmem.c:68-72 | 137 distinct zeroed heads, each the whole of its chain |
| SharedTable.Find | sysdeps/darwin/procmem.c:96-104 | the first node with the identifier, or the last node when no node has it |
| SharedTable.Bump | sysdeps/darwin/procmem.c:98-101 | one more reference to one object and nothing else changed |
| SharedTable.Append | sysdeps/darwin/procmem.c:106-116 | the chain with one new node at its end, still acyclic |
| SharedTable.RegisterIn | sysdeps/darwin/procmem.c:96-117 | registration within a chain refines registration in the map |
| SharedTable.RegisterAt | sysdeps/darwin/procmem.c:90-117 | all other chains stay as they are |
| SharedTable.RegisterObject | sysdeps/darwin/procmem.c:90-117 | the whole table keeps refining a map in which each object is stored once, in bucket `obj_id % 137` |
| SharedTable.FreeChain | sysdeps/darwin/procmem.c:79-87 | every node behind a head is freed once, the head is not |
| SharedTable.FreeTable | sysdeps/darwin/procmem.c:74-88 | the same for all chains |
| SharedTable.SumOfTable | sysdeps/darwin/procmem.c:220-233 | adding up all chains is adding up the map |
| SharedTable.SumChain | sysdeps/darwin/procmem.c:221-232 | private, virtual and shared sums of a chain |
| SharedTable.SumTable | sysdeps/darwin/procmem.c:220-233 | the sums over the table are sums over the map |
| SharedTable.CountRegion | sysdeps/darwin/procmem.c:194-212 | what one region adds to the sums and to the table |
| SharedTable.WalkRegion | sysdeps/darwin/procmem.c:183-214 | the same with the treatment of the shared segments |
| SharedTable.WalkRegions | sysdeps/darwin/procmem.c:165-215 | table, sums and split flag in terms of the list of regions |
| SharedTable.GetProcMem | sysdeps/darwin/procmem.c:122-245 | the report as a function of the regions alone |
| SharedTable.ReportConserves | sysdeps/darwin/procmem.c:194-233 | `rss` and `share` together are the pages counted directly plus each distinct object once |
| MemoryReport.DirectAdds | sysdeps/darwin/procmem.c:194-208 | a private region adds its private pages and its size, and an unshared copy outside the segments its shared pages, too |
| MemoryReport.NothingAdds | sysdeps/darwin/procmem.c:183-212 | regions inside the segments that are not private, of other modes, and without an object add no pages |
| MemoryReport.FirstAdds | sysdeps/darwin/procmem.c:194-233 | the first region of an object adds its shared pages to `rss` if it is shared memory of one reference, and else to `share` |
| MemoryReport.FurtherAdds | sysdeps/darwin/procmem.c:219-233 | a further one only counts references, and moves the object's pages between the two fields exactly when the count reaches or leaves the object's |
| MemoryReport.ReportAddsUp | sysdeps/darwin/procmem.c:183-233 | both fields together are what each region brings, the pages of an object with its first region |
| MemoryReport.AloneIsResident | sysdeps/darwin/procmem.c:183-233 | when no other task uses an object of this one, `share` is 0 and `rss` is all resident pages of the regions looked at, those of an object once |
| MemoryReport.SplitIff | sysdeps/darwin/procmem.c:183-192 | the virtual size is reduced if and only if a reserved empty region lies inside the segments |
| ProcArgs.MeasureString | sysdeps/common/procargs.c:20 | length up to the first NUL, inside the buffer |
| ProcArgs.SplitArgs | sysdeps/common/procargs.c:13-29 | the strings that start within the given size, every scan inside the buffer |
| ProcArgs.CopyString | sysdeps/bsd/procargs.c:98-99 | copies one argument with its terminator and nothing else |
| ProcArgs.JoinedSize | sysdeps/bsd/procargs.c:91-92 | the first loop measures the joined vector |
| ProcArgs.JoinArgs | sysdeps/bsd/procargs.c:91-103 | the joined vector with two spare NULs, and the reported size |
| ProcArgs.SplitJoin | sysdeps/common/procargs.c:13-29 | splitting a command line with all its terminators returns the vector |
| ProcArgs.SplitReported | sysdeps/bsd/procargs.c:91-103 | splitting what was reported returns the vector except for one empty argument at its end |
| ProcArgs.Truncate | sysdeps/cygwin/procargs.c:60-64 | cuts to the limit and puts a NUL at its end; 0 is no limit |
| ProcArgs.CutArg | sysdeps/cygwin/procargs.c:60-64 | the argument that the limit falls into |
| ProcArgs.SplitCut | sysdeps/cygwin/procargs.c:60-69 | after the cut all arguments before the last are whole and the last is a prefix of the original |
| ProcArgs.SplitUncut | sysdeps/cygwin/procargs.c:60-69 | without a limit, or with one that is not reached, all arguments come back |
| ProcList.Realloc | sysdeps/aix/proclist.c:198-199 | a longer chain with the same start |
| ProcList.Memcpy | sysdeps/aix/proclist.c:200 | a copy in bounds that leaves the front alone |
| ProcList.Flush | sysdeps/aix/proclist.c:196-203 | the chain followed by the block |
| ProcList.GetProclistAix | sysdeps/aix/proclist.c:65-246 | the filtered subsequence in order with matching `number`, `size` and `total`; nothing exactly when no process passes |
| ProcList.QueryDecoded | include/glibtop/proclist.h:89-111 | flags and kind are found in any query word, whatever its other bits |
| ProcList.PassesIff | sysdeps/aix/proclist.c:80-190 | each documented kind compares its own field, and each exclusion excludes its processes |
| ProcList.AixOrigins | sysdeps/aix/proclist.c:80-203 | every listed identifier is that of a process that passes, in increasing order |
| ProcList.AixOriginsComplete | sysdeps/aix/proclist.c:80-203 | and every such process is listed |
| ProcList.AcceptsIff | sysdeps/freebsd/proclist.c:107-150 | on numbers that fit their fields each kind compares its own field, both user kinds the real user, and each exclusion excludes its records |
| ProcList.GetProclistBsd | sysdeps/freebsd/proclist.c:94-164 | the identifiers of the picked records in order, with matching fields |
| ProcList.Origins | sysdeps/freebsd/proclist.c:94-155 | every listed identifier comes from a record that starts a run and passes, in increasing order |
| ProcList.OriginsComplete | sysdeps/freebsd/proclist.c:94-155 | every such record is listed |
| ProcList.ListedIff | sysdeps/freebsd/proclist.c:99-155 | with the threads of a process together, it is listed if and only if its first record passes |
| ProcList.ListedInOrder | sysdeps/freebsd/proclist.c:99-155 | and only once, in order of first appearance |
| ProcList.NoRepeatIff | sysdeps/freebsd/proclist.c:94-155 | for every filter the list has no repeats if and only if no process has two runs whose first records pass |
| ProcList.NoRepeatIffGrouped | sysdeps/freebsd/proclist.c:94-155 | for a filter that takes everything: if and only if the records of each process are together |
| ProcList.UngroupedMayRepeat | sysdeps/freebsd/proclist.c:99-106 | records that are apart, and a process listed twice |
| ProcList.EffectiveUserIff | sysdeps/freebsd/proclist.c:117-120 | the query by effective user picks the right records for every user if and only if real and effective user agree in every record that starts a run and is not excluded |
| ProcList.EffectiveListIff | include/glibtop/proclist.h:75-80 | with the records of each process together, the lists agree with the documented ones under the same condition |
| ProcList.WrongUserListed | sysdeps/freebsd/proclist.c:117-120 | a process with two users is listed under the real one |
| ProcList.ApartMayAgree | sysdeps/freebsd/proclist.c:99-120 | with records apart the lists may agree though the users do not |
| ProcMap.Period | sysdeps/freebsd/procmap.c:303-396 | the least number of steps that lead round the circle |
| ProcMap.CircleDistinct | sysdeps/freebsd/procmap.c:303-396 | no node is visited twice before the circle closes |
| ProcMap.CircleClosed | sysdeps/freebsd/procmap.c:303-396 | every node that can be reached is visited |
| ProcMap.GetProcMap | sysdeps/freebsd/procmap.c:276-404 | visits each node of the circle once from `first`, through any finite number of failed reads, and returns the qualifying entries in order with `total == number * size` |
| ProcMap.Sources | sysdeps/freebsd/procmap.c:303-396 | every reported entry is a map of a file, in the order of the walk, with its addresses, device, inode and the bits of its permissions |
| ProcMap.SourcesComplete | sysdeps/freebsd/procmap.c:303-396 | and all such maps are reported |
| MountList.StrcmpEqual | sysdeps/common/mountlist.c:569-571 | the comparison is 0 for equal strings only, and antisymmetric |
| MountList.StrcmpTransitive | sysdeps/common/mountlist.c:569-571 | the comparison is transitive |
| MountList.IgnoredIsSorted | sysdeps/common/mountlist.c:539-565 | the table of ignored types is in the order that the search needs |
| MountList.Bsearch | sysdeps/common/mountlist.c:569-571 | binary search in a sorted table finds exactly its members |
| MountList.ReadFilesystemList | sysdeps/common/mountlist.c:224-297 | an acyclic list of the whole table in its order; the dummy head is freed |
| MountList.CopyEntry | sysdeps/common/mountlist.c:594-604 | an entry is copied, cut to its fields, unless its type is ignored |
| MountList.ConsumeOne | sysdeps/common/mountlist.c:594-611 | one round: the entry is copied or not, freed, and the next one is found |
| MountList.Consume | sysdeps/common/mountlist.c:592-612 | the kept entries in order, and every node freed once |
| MountList.GetMountlist | sysdeps/common/mountlist.c:575-623 | the same for the whole query, with matching `number` and `total` |
| MountList.ShownIff | sysdeps/common/mountlist.c:592-604 | what is not ignored is shown, and nothing else |
| MountList.ShownAll | sysdeps/common/mountlist.c:592-604 | with `all_fs` the whole table is shown line by line |
| MountList.ShownInOrder | sysdeps/common/mountlist.c:592-604 | what is shown are exactly the lines of types that are not ignored, in their order, each field the line's own, cut to 79 characters |
| ProcText.NextToken | sysdeps/cygwin/glibtop_private.h:35-40 | skips exactly the leading white space, inside the text |
| ProcText.SkipTokenAt | sysdeps/cygwin/glibtop_private.c:50-57 | skips white space, one word, and white space |
| ProcText.SkipMultipleToken | sysdeps/cygwin/glibtop_private.h:45-52 | the same a given number of times |
| ProcText.SkipLineAt | sysdeps/cygwin/glibtop_private.h:55-60 | goes behind the next newline, or to the end of the text |
| ProcText.Strtoull | sysdeps/cygwin/proctime.c:74-84 | value and rest of a number with its base taken from the prefix; saturating, a minus sign negates |
| ProcText.Strtol | sysdeps/cygwin/procuid.c:66-73 | the signed variant |
| ProcText.Strstr | sysdeps/cygwin/procuid.c:62-63 | the text from the first occurrence of the key, or nothing |
| ProcText.LastParen | sysdeps/cygwin/glibtop_private.h:112 | the last closing parenthesis divides the text |
| ProcText.ProcStatAfterCmd | sysdeps/cygwin/glibtop_private.h:109-116 | cuts the buffer there in place: two texts, before and behind; without one nothing changes |
| ProcFile.TryFileToBuffer | sysdeps/cygwin/glibtop_private.c:73-121 | through interrupted and short reads the buffer holds the file's text up to its size, NUL-terminated; fails only if the file cannot be opened or read |
| ProcFile.FactorAt | sysdeps/cygwin/glibtop_private.c:36-44 | the factor of the first `k` or `M` of the remaining text |
| ProcFile.GetScaled | sysdeps/cygwin/glibtop_private.c:17-47 | the number behind the key, or at the front without one, times that factor modulo 2^64; 0 if the key is missing |
| Printed.ScanPrinted | sysdeps/cygwin/proctime.c:74-84 | a printed number scans back to itself up to the width of its field, and the cursor ends right behind it |
| Printed.ScanHex | sysdeps/cygwin/proctime.c:74-84 | a hexadecimal numeral scans back behind `0x` |
| Printed.ScanOctal | sysdeps/cygwin/proctime.c:74-84 | an octal one behind `0` |
| Printed.ScaledOf | sysdeps/cygwin/glibtop_private.c:17-47 | what `get_scaled` returns for any file with a line `key number unit` |
| Printed.ScaledFront | sysdeps/cygwin/glibtop_private.c:17-47 | the same for a text that starts with the number, without a key |
| Printed.ScaledIff | sysdeps/cygwin/glibtop_private.h:62-68 | for every number that fits 64 bits, that is the number in its own unit if and only if it is 0, or its value fits 64 bits and the line has a unit or no `k` or `M` follows anywhere |
| Printed.WrongUnit | sysdeps/cygwin/glibtop_private.c:36-44 | numbers that are scaled by a letter of a later line |
| Printed.TooManyKilobytes | sysdeps/cygwin/glibtop_private.c:36-44 | 2^54 kB are reported as 0 |
| ProcStat.StatSplits | sysdeps/cygwin/glibtop_private.h:109-116 | whatever the name contains, the record is divided behind it |
| ProcStat.SkipState | sysdeps/cygwin/proctime.c:71 | skipping n tokens behind the name leads to field n + 3 |
| ProcStat.ReadField | sysdeps/cygwin/proctime.c:74-84 | reading a number in front of a field gives that field and leads to the next |
| ProcStat.TimesRecovered | sysdeps/cygwin/proctime.c:67-86 | the time reader returns fields 14 to 17, 21 and 22 of every printed record |
| ProcStat.TimesExact | sysdeps/cygwin/proctime.c:73-87 | without overflow the six fields come back as printed, with run time their sum and the start in seconds of the epoch |
| ProcStat.JobRecovered | sysdeps/cygwin/procuid.c:95-112 | the id reader returns fields 5 to 8, 18 and 19 as 32-bit numbers, with -1 for no terminal |
| ProcStat.JobExact | sysdeps/cygwin/procuid.c:98-112 | fields within 32 bits come back as printed |
| ProcStat.StateRecovered | sysdeps/cygwin/procstate.c:76-117 | the state reader returns 1, 2, 4, 8, 16, 32 and 64 for the letters R, S, D, Z, T, W and X and 0 for every other, and the first 39 bytes of the name |
| ProcStat.NullPointerIff | sysdeps/cygwin/procstate.c:76-77 | the state reader follows a null pointer if and only if the text has no closing parenthesis |
| ProcStat.EmptyRecord | sysdeps/cygwin/procstate.c:76-77 | the empty text is one of those |
| ProcStat.IdsRecovered | sysdeps/cygwin/procuid.c:60-86 | the id reader returns the six ids of every printed status, whatever stands between their lines |
| ProcStat.IdsMissing | sysdeps/cygwin/procuid.c:60-86 | when a line is missing the ids of the lines before it come back and the part is not flagged |
| ProcReaders.ReadTicks | sysdeps/cygwin/proctime.c:71-84 | the six numbers at their places |
| ProcReaders.ProcTime.GetProcTime | sysdeps/cygwin/proctime.c:53-89 | the structure holds the times of the text that the file shows, or zeros with no flags |
| ProcReaders.Strlcpy | sysdeps/cygwin/procstate.c:117 | the text cut to the room that the field has, NUL-terminated |
| ProcReaders.ProcState.TakeApart | sysdeps/cygwin/procstate.c:76-119 | state, name, or the way in which the reader stops |
| ProcReaders.ProcState.GetProcState | sysdeps/cygwin/procstate.c:48-120 | owner known exactly if `stat` succeeded; the rest as the file's text says |
| ProcReaders.ReadIds | sysdeps/cygwin/procuid.c:60-86 | the ids found before the first missing key, and whether all were |
| ProcReaders.ReadJob | sysdeps/cygwin/procuid.c:98-112 | the six numbers of the `stat` record |
| ProcReaders.ProcUid.GetProcUid | sysdeps/cygwin/procuid.c:51-115 | both parts of the structure from both files; a part is flagged only if it was read to its end |
| ProcReaders.RecordRecovered | sysdeps/cygwin/procstate.c:76-117 | for every name without NUL and all fields of a record that fits the buffer, the three readers return the state, the name and the numbered fields |
| CpuStat.CheckCpuLine | sysdeps/cygwin/glibtop_private.c:196-204 | whether the text starts with `cpuN`, cut to nine characters |
| CpuStat.Server.Open | sysdeps/cygwin/open.c:36-68 | one less than the number of CPU lines in a row, and that capped at 1023 |
| CpuStat.ReadCounters | sysdeps/cygwin/cpu.c:69-72 | four numbers and the cursor behind them |
| CpuStat.ReadRow | sysdeps/cygwin/cpu.c:84-92 | one round of the loop over the CPUs |
| CpuStat.Cpu.SetRow | sysdeps/cygwin/cpu.c:89-97 | one row of the five arrays, the others unchanged |
| CpuStat.Cpu.ReadRows | sysdeps/cygwin/cpu.c:82-98 | the arrays hold the rows found, zeros behind them, and no index reaches 1024 |
| CpuStat.Cpu.GetCpu | sysdeps/cygwin/cpu.c:53-103 | whole-machine and per-CPU counters of the file's text; every total is the sum of its four counters modulo 2^64 |
| CpuLines.ReadLine | sysdeps/cygwin/cpu.c:87-92 | behind the label of a printed line the four counters are read exactly |
| CpuLines.PassesIff | sysdeps/cygwin/glibtop_private.c:196-204 | a printed line passes for a CPU of at most six digits if and only if these digits are the first of its label |
| CpuLines.OwnRowsIff | sysdeps/cygwin/open.c:49-57 | for all labels: every line that is taken is taken for the CPU that it belongs to, if and only if the first label out of turn does not pass for the one in turn |
| CpuLines.LinesCounted | sysdeps/cygwin/open.c:49-57 | for all labels: the opener's loop counts exactly the printed lines that pass in a row, and goes on with the text behind them when all do |
| CpuLines.RowsRecovered | sysdeps/cygwin/cpu.c:82-98 | for all labels: row i is the counters of the i-th line, for exactly the lines that pass in a row and are looked for; then it goes on behind them when these are all |
| CpuLines.StatFileCut | sysdeps/cygwin/cpu.c:67-99 | for every printed file, all labels and every buffer size that takes in the first line: whole-machine counters, count and rows, in terms of the lines that end inside the buffer and what is left |
| CpuLines.CutLineCounted | sysdeps/cygwin/open.c:47-57 | when the buffer cuts a line: the exact count, and as many rows as lines counted and looked for |
| CpuLines.AllCountedIff | sysdeps/cygwin/open.c:47-57 | all CPU lines of a file that the buffer cuts are counted if and only if it cuts only the last, behind its prefix, and all before pass |
| CpuLines.StatFileRecovered | sysdeps/cygwin/open.c:47-59 | when all N CPU lines are inside the buffer, of whatever size, and pass, N lines are counted, and the reader recovers the whole machine and the first min(1024, N) lines |
| CpuLines.OpenPrinted | sysdeps/cygwin/open.c:36-68 | opening a printed file of N CPU lines settles on N - 1 and on at most 1023 |
| CpuLines.GetPrinted | sysdeps/cygwin/cpu.c:53-103 | reading it then reports the printed counters of the whole machine and of the first 1024 lines, with totals that are their plain sums when these fit 64 bits |
| CpuLines.TenTakenForOne | sysdeps/cygwin/glibtop_private.c:196-204 | with CPUs 1 to 9 off line the counters of CPU 10 are row 1 |

## Left out

* Everything behind a kernel query: `kvm`, `sysctl`, Mach, `getprocs`, `statfs`, sockets, `fork`,
  `exec`, authentication, user switching. Results of the queries are parameters.
* The functions that only copy one structure (limits, load average, uptime, signal tables, network
  and disk counters), the example programs, and all floating point.
* Error messages. An error handler that ends the program is a failed state or a `false` result.
* Short writes: a write takes all bytes or fails, as the source assumes.
* The `size` word of the response record is sent as 0 and never read.
* `server_rsh`, the `server_ptr == NULL` entry of the initialisers, and a copy of `recv_size` bytes
  that would leave the response record.
* The per-CPU part of `sysdeps/cygwin/proctime.c` (lines 91-108): it goes on scanning from the old
  cursor in a buffer that has been filled with another file.
* `getpagesize` and the boot time are parameters; `read_boot_time` and `safe_readlink` are left out.
* The `right`-linked variant of the map walk, and the AIX error path of `getprocs`, which exits.
- CopyParameter: a `size` beyond the record's parameter field, which the library never sends (`Service.CopyStaysInside`), makes the source copy what lies behind the record; the model copies only the field.
- Step: a lost write of the daemon leads out of step and is treated in `SessionLosses.EveryStep`. A write of the client fails in the model only when the daemon has gone.
- SplitExtent: block numbers are unbounded; the source uses `int`.
- CountFree: block numbers and counts are unbounded; the source uses `int`.
- ReportTotals: 64-bit results of unbounded sums; the sums in the source are `int`.
- SumChain: the sums are unbounded; the source wraps them at `vm_size_t`.
- SumTable: the sums are unbounded, as for SumChain.
- CountRegion: the sums are unbounded, as for SumChain.
- WalkRegion: the sums are unbounded, as for SumChain.
- WalkRegions: the sums are unbounded, as for SumChain.
- GetProcMem: page counts, sizes and reference counts are unbounded; the source wraps them at `unsigned` and `vm_size_t`. The segment bounds are parameters and one pair bounds both segments.
- GetProcMap: an entry that can never be read is not modelled; the source tries to read it for ever.
- ReadFilesystemList: the mount table arrives as records, and reading it does not fail; the source then returns nothing.
- GetMountlist: the mount table arrives as records; the other ways to read one, chosen when the library is built, are not modelled.
- Truncate: the reallocated buffer is a new array.
- GetProcUid: a failing read may strike either file; what had been stored by then stays.
