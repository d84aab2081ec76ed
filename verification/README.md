# A verified model of coredumper and of the TINU test framework

This project models the two halves of the repository in Dafny and proves properties
of the model. The first half, `coredumper/`, suspends all threads of a process and
writes an ELF core file of it. The second half, `lib/` with `reporting/`, is a unit
test framework: a hook list, a leak watch, a log, a test runner with statistics, and
a report that a Python parser reads back.

`dafny verify dfyconfig.toml` checks everything.

## How it is organised

| files | what they hold |
|---|---|
| `Bytes`, `Decimal`, `Statistics` | bytes and little-endian fields; decimal numerals (`local_itoa`, `local_atoi`); the statistics record |
| `Writers`, `Emission` | `c_write`, `SimpleWriter`, `LimitWriter` over a kernel that interrupts, cuts short or fails; writing towards a known file |
| `ElfFormat`, `ElfReader`, `CoreRoundTrip`, `CoreContents` | the layout of a core file as a function of the process; a reader that follows only `e_phoff`, `e_phnum`, `p_offset`, `p_filesz`; the round trip; what the notes and headers hold, by offsets and values alone |
| `MapsReader`, `MapsTable`, `MapsText`, `MapsContents` | `GetChar`, `GetHex` and the parser of `/proc/self/maps`; leading zero pages and the in-place table; what kernel-formatted text is read as; what the table holds, by the text alone |
| `Prioritize`, `Vdso` | the greedy shrink loop; the vdso check |
| `HeaderWriter`, `NoteWriter`, `SegmentWriter`, `CoreWriter` | the loops of `CreateElfCore`, each proved against the layout |
| `CoreTheorems`, `CoreDump` | sizes and alignment of whole files; from the text of the memory map to the reader of the file |
| `DumpParameters` | the parameter setters and the dump to a file |
| `Kernel`, `Lister` | the threads and directories a lister meets; `ListerThread`, `SignalHandler`, `ResumeAllProcessThreads` |
| `CircularList` | `clist.c` on heap nodes, and its iterator |
| `LeakTable`, `Leakwatch` | the leak table against the allocator; reference counts and hooks |
| `Log`, `LogHistory` | handlers, cached priority, diversion; who gets a message, by the calls made before |
| `ReportParser`, `Report`, `ReportWriter` | the parser of `tinu.py`; the printed lines and the round trip; the printing loops and files |
| `TestRunner`, `RunContents`, `RunReport` | outcomes, statistics hooks, registry; what a run and its report come to, by the tests' scripts and the words of the report; registry to report and back |

## How the outside world is modelled

- A `read` or `write` is answered from a finite script of answers: interrupted, failed,
  or any number of bytes moved; behind its end calls succeed. Every chunking is such a
  script. A script without failures is called clean.
- Memory is a function from addresses to bytes; whether a page can be read through the
  loopback pipe is a predicate on addresses. Both are the same throughout a dump. The
  register blocks, the process information and the auxiliary vector are given as bytes
  of the sizes the x86-64 structures have. The vdso is given by the fields of its ELF
  header and a function that yields its program headers.
- `size_t` values read from a memory map wrap around at 2^64, and so does the address
  arithmetic of `SanitizeVDSO`. The layout arithmetic of `CreateElfCore` is unbounded;
  the round trip asks that the file and the fields fit (`CoreRoundTrip.Fits`).
- The other threads are `Kernel.Meanwhile`: between any two steps of the lister any
  threads may appear, and any may exit. A thread of ours appears in a directory only if
  one that this directory shows has not been stopped yet and could create it. A pass
  over a directory may return entries in any order and number, some of them twice; one
  that reaches its end has returned all that were there throughout. `quiet` is the
  absence of exits and of failed calls on a thread.
- The lister calls `Preempt` wherever another thread or a signal could come in. The
  precondition of `Preempt`, that every attached thread is on the published list, is
  exactly what `SignalHandler` needs.
- A test is what it does that the runner can see: assertions, messages of its own, and
  signals, which end it.
  Times are opaque tokens.

## Where code and documentation disagree

The model follows the code:

- `clist.h` says that `clist_prepend` inserts behind `self` and returns `self`; the code
  inserts in front of it and returns the new node.
- A comment in `CreateElfCore` describes four permission letters; the parser takes any
  number and keeps three of the bits.

## Properties that hold only under a condition

Each of these is proved as an equivalence, and a lemma names inputs for which the
property fails:

- room: written bytes and room left add up to the initial limit if and only if no
  writer call fails after a part of its buffer went out (`LimitWriter`,
  `FailureAfterProgress`);
- notes: the announced size is the written size if and only if at most one thread has
  the main thread's id (`NoteAccounting`, `NotesMiscounted`);
- the 16-bit header count survives if and only if there are fewer than 65536 headers
  (`HeaderCountSurvives`, `HeaderCountLost`);
- data of an accepted vdso header lies inside its mapping if and only if its end does
  not wrap around (`AcceptedDataInside`, `WrappingDataAccepted`);
- under prioritization a mapping is page-aligned in the file if and only if the excess
  over the limit does not end inside a mapping in front of it, or the limit less the
  vdso is a whole number of pages (`AlignmentUnderPriority`, `AlignmentLost`);
- a prioritized file is not cut off if and only if its fixed part fits
  (`PrioritizedFileFits`, `PrioritizedFileCut`);
- the leak table agrees with the allocator after every event if and only if no watched
  block is reallocated to size 0 (`TableAgrees`, `ShrinkingToNothingIsMissed`);
- the log macros deliver what a full dispatch would if and only if the log was not
  cleared during the diversion in force (`MacrosAgree`, `MacrosLose`);
- a report is read back if and only if no name has a dot or an equals sign
  (`ReportReadBack`, `FileReadBack`, `DottedSuiteLost`).

## Model

| member | source | states |
|---|---|---|
| Writers.OutFile.CWrite | coredumper/elfcore.c:332-365 | interrupted and short writes are made up for: without errors everything is out; in any case what is out is a prefix of the buffer, its length and the result determined by the kernel's answers |
| Writers.Handle.SimpleWriter | coredumper/elfcore.c:372-382 | the unlimited writer: what is out grows by a prefix of the buffer, and by all of it exactly when the caller sees the full count |
| Writers.Handle.LimitWriter | coredumper/elfcore.c:396-415 | without errors the output is the longest prefix of the buffer that the room allows; bytes written and room left keep their sum exactly if the call does not fail or nothing of its buffer went out, since a failed call leaves the room as it was |
| Writers.FailureAfterProgress | coredumper/elfcore.c:349-363 | a call for which the kernel takes a byte and then fails reports an error with that byte out |
| Writers.AttemptThen | coredumper/elfcore.c:404-415 | two writes in a row behave like one write of the concatenation, also when the first or the second is cut short |
| Writers.CleanAttemptIsPrefix | coredumper/elfcore.c:404-415 | without I/O errors a sequence of writes puts out exactly the part of the data that the limit allows, and it stops early only with no room left |
| Emission.Emit | coredumper/elfcore.c:934-936 | one writer call and the test of its result: either the front of the planned file has grown by the buffer, or the output is a front of the planned file and writing stops |
| MapsReader.Io.GetChar | coredumper/elfcore.c:527-544 | for every chunking of the reads the characters are those of the file, in order, and -1 comes at its end or after an error |
| MapsReader.GetHex | coredumper/elfcore.c:550-557 | the value of the longest run of hexadecimal digits, modulo 2^64, and the character behind it, which is consumed |
| MapsReader.HexPaddedValue | coredumper/elfcore.c:553-555 | every number below 2^64, in lower-case hexadecimal with any number of zeros in front, is read as itself |
| MapsReader.MatchDevice | coredumper/elfcore.c:827-834 | what the comparison with /dev/zero one character at a time finds, and where it leaves the stream |
| MapsReader.ReadLine | coredumper/elfcore.c:794-849 | one line, parsed from the stream exactly as the scanner on the text defines it, with the stream left behind its newline; malformed text is refused |
| MapsText.DeviceByMatching | coredumper/elfcore.c:827-834 | the test on the number of matched characters means: the path is under /dev/ and is not /dev/zero, alone or followed by a space |
| MapsText.PermissionBits | coredumper/elfcore.c:836-842 | of the four letters of a kernel line the first three become the ELF read, write and execute bits |
| MapsText.LineReadBack | coredumper/elfcore.c:794-849 | every well-formed line is parsed as what it says: addresses, offset, access bits, anonymous or not, device or not |
| MapsText.AddressesReadBack | coredumper/elfcore.c:794-808 | a line that states its addresses and offset in hexadecimal, in any width, is parsed as them |
| MapsText.NewlinesCounted | coredumper/elfcore.c:758-761 | the first pass counts exactly the lines |
| MapsText.MapReadBack | coredumper/elfcore.c:755-880 | for every list of well-formed lines both passes together give the order-preserving filter of what the lines say |
| MapsContents.HexDigits | coredumper/elfcore.c:550-557 | the digits in which the addresses are written, as characters |
| MapsContents.LineTold | coredumper/elfcore.c:794-849 | a line with its addresses in hexadecimal and four permission letters is read as its addresses, read, write and execute bits (4, 2, 1), anonymous exactly without a path or with one in brackets, and a device exactly under /dev/ but for /dev/zero |
| MapsContents.LineEntered | coredumper/elfcore.c:851-876 | such a line has an entry exactly if it is readable, no device and some page is not blank; the entry begins with the first page that is not blank and ends with the line, and nothing of it is to be written exactly if it is neither anonymous nor writable |
| MapsContents.TableOfText | coredumper/elfcore.c:755-880 | from the text of a whole map: both passes lead to a table that has these entries, in order, and no others |
| MapsTable.CountMappings | coredumper/elfcore.c:755-767 | the number of newlines in the file, for every chunking |
| MapsTable.LeadingZeros | coredumper/elfcore.c:562-594 | the byte-by-byte scan returns what the page-wise definition of leading zero pages says, unreadable pages counting as zero |
| MapsTable.LeadingZeroPagesIsLargest | coredumper/elfcore.c:562-594 | for whole pages it is the largest number of leading pages all of which are unreadable or zero |
| MapsTable.ReadMappings | coredumper/elfcore.c:770-880 | the table filled in place, with slots given up by lowering the count, is the filter of the parsed lines, of which `MapsContents.TableOfText` says what it holds; it fails exactly on malformed text, unless a read fails |
| Vdso.SanitizeVDSO | coredumper/elfcore.c:684-728 | accepts exactly the headers that are aligned, lie inside the mapping as far as sums that wrap around can tell, and start with its one loadable segment |
| Vdso.AcceptedWithoutWrap | coredumper/elfcore.c:684-728 | unless a sum wraps around: alignment of image, table and data, all of it inside the mapping, and one loadable header, the first, that starts with the mapping, are exactly what is accepted |
| Vdso.AcceptedDataInside | coredumper/elfcore.c:712-726 | the data of an accepted header lies inside the mapping exactly when its end does not wrap around |
| Vdso.WrappingDataAccepted | coredumper/elfcore.c:684-728 | an image that passes the whole check although the data of one of its headers reaches far beyond the mapping |
| Vdso.FindVdso | coredumper/elfcore.c:882-901 | the vdso is trusted if the first readable mapping that covers it passes the check, and left out otherwise |
| Vdso.FirstDecides | coredumper/elfcore.c:882-897 | the first mapping that can be read and has the address in it decides alone; without one nothing is trusted |
| Prioritize.ShrinkMappings | coredumper/elfcore.c:1016-1047 | the loop on the table ends with the sizes that repeatedly reducing the first largest one leads to, everything else unchanged |
| Prioritize.ShrunkTotal | coredumper/elfcore.c:1016-1047 | the total is the limit or the original total, whichever is smaller, or the fixed part if that exceeds the limit |
| Prioritize.ShrinkInOrder | coredumper/elfcore.c:1016-1047 | mappings are reduced in the order of their sizes, larger first and then by index: one that is touched means that all before it are gone |
| Prioritize.AtMostOnePartial | coredumper/elfcore.c:1029-1045 | of the reduced mappings at most one keeps a part |
| Prioritize.ShrinkCuts | coredumper/elfcore.c:1016-1047 | which mapping keeps a part can be told before the loop: the one in which the excess over the limit ends, after all that are larger, or as large and earlier |
| Prioritize.OrderDetermines | coredumper/elfcore.c:1016-1047 | that order and the total determine every size |
| Prioritize.ShrinkIsOptimal | coredumper/elfcore.c:1016-1047 | no other choice of sizes that meets the limit leaves more mappings untouched |
| CoreRoundTrip.NoteAccounting | coredumper/elfcore.c:944-974 | the announced size of the notes is the number of bytes the note loops write, for all names and descriptions, exactly if at most one thread has the main id |
| CoreRoundTrip.NotesMiscounted | coredumper/elfcore.c:1139-1155 | with two threads that both have the main id the announced size is wrong |
| CoreRoundTrip.EveryThreadOnceMainFirst | coredumper/elfcore.c:1134-1155 | with distinct ids every thread is written exactly once, the main thread first |
| CoreContents.DumpOrderAt | coredumper/elfcore.c:1134-1155 | the place of every thread in the file: the main thread comes first, the others follow from the last to the first |
| CoreRoundTrip.ReadNotesBack | coredumper/elfcore.c:1157-1192 | a note reader recovers every note, for all lengths and paddings |
| CoreRoundTrip.ReadHeadersBack | coredumper/elfcore.c:1050-1078 | a header reader recovers the program headers from their bytes |
| CoreRoundTrip.ReadSegmentsBack | coredumper/elfcore.c:1204-1226 | following the headers into the file yields each segment's bytes |
| CoreRoundTrip.ReadBack | coredumper/elfcore.c:901-1227 | the round trip: reading a complete file yields exactly the notes in order and every segment with its address and bytes |
| CoreRoundTrip.SegmentsContiguous | coredumper/elfcore.c:1050-1078 | the segments lie back to back from the first page behind the notes to the end of the file |
| CoreRoundTrip.HeaderCountSurvives | coredumper/elfcore.c:932-932 | the stored header count is the real one exactly below 65536 |
| CoreRoundTrip.HeaderCountLost | coredumper/elfcore.c:932-932 | with 65535 segments the stored header count is wrong |
| HeaderWriter.AlignNotes | coredumper/elfcore.c:986-989 | the padding behind the notes is the smallest that reaches a page boundary |
| HeaderWriter.SizeNotes | coredumper/elfcore.c:944-974 | the loop over the user's notes computes the announced size of all notes |
| HeaderWriter.WriteMappingPhdrs | coredumper/elfcore.c:1050-1063 | running offsets give every mapping's header the place its bytes will have, whenever the writer stops |
| HeaderWriter.WriteVdsoPhdrs | coredumper/elfcore.c:1064-1078 | the same for the vdso's headers |
| NoteWriter.WriteThreadRegs | coredumper/elfcore.c:606-651 | puts out a thread's two notes, with its id in bytes 32 to 35 and its registers in bytes 112 to 327 of the shared status record and nothing else changed in it, or stops inside them |
| CoreContents.ThreadNotesShown | coredumper/elfcore.c:606-632 | the two notes of a thread: type 1 with id, registers and the shared record around them, and type 2 with the floating-point registers, both named CORE |
| NoteWriter.WriteThreads | coredumper/elfcore.c:1134-1155 | both loops over the threads together put out the register notes in dump order |
| NoteWriter.WriteNotes | coredumper/elfcore.c:1080-1193 | the note section is put out as the layout has it, however the writer cuts it |
| CoreContents.CoreNotesShown | coredumper/elfcore.c:1080-1193 | the notes of a file one by one: process information (3), user area (4) if given, auxiliary vector (6) if there is one with its entries in order, two notes for each thread in dump order, and the user's notes |
| SegmentWriter.WriteMappings | coredumper/elfcore.c:1204-1211 | the mappings' bytes, of the final sizes and in order |
| SegmentWriter.WriteVdso | coredumper/elfcore.c:1212-1226 | the bytes of the vdso headers that are not loadable |
| CoreWriter.WriteFile | coredumper/elfcore.c:903-1227 | header, table, notes, padding and segments, written by separate loops, are together the planned file, or a front of it if the writer stopped |
| CoreWriter.CreateElfCore | coredumper/elfcore.c:734-1242 | without I/O errors the output is exactly the first bytes of the planned file that the limit allows, the result is 0, and written plus remaining is constant; with errors it is still a front of it, and 0 is returned only for a complete file or a used-up limit |
| CoreTheorems.DumpReadBack | coredumper/elfcore.c:734-1242 | a complete dump, read by its headers alone, yields the notes in order, the mappings with the sizes left to them, and for every segment the memory from its address on, as much as its header says |
| CoreContents.CoreFileIsOne | coredumper/elfcore.c:918-936 | every file says in its header that it is a version 1 core file of a 64-bit little-endian x86-64 machine |
| CoreContents.VdsoSegmentAt | coredumper/elfcore.c:1064-1078 | each header of the vdso that is not loadable has its segment, behind those of the headers before it |
| CoreContents.ExtraCounted | coredumper/elfcore.c:904-917 | as many headers are added for the vdso as it has that are not loadable |
| CoreDump.DumpAndReadBack | coredumper/elfcore.c:734-1242 | from the kernel's text of the memory map to the reader: if nothing goes wrong and there is room the dump is complete, and what a complete dump has appended is an x86-64 core file, read as the notes in their order, each with its type and bytes; the mappings that the lines describe, each with flags, address, memory size and the size left to it; the vdso's headers; and the memory behind every header |
| CoreTheorems.FileSize | coredumper/elfcore.c:1010-1023 | the total that the shrink loop computes is the size of the file |
| CoreTheorems.PrioritizedSize | coredumper/elfcore.c:996-1048 | if the fixed part fits, a prioritized file is exactly as long as the smaller of its full size and the limit |
| CoreTheorems.TableIsPaged | coredumper/elfcore.c:851-865 | trimming leading zero pages leaves mappings of whole pages |
| CoreTheorems.MappingsAligned | coredumper/elfcore.c:984-994 | without prioritization every mapping's file offset is congruent to its address modulo the page size, and no more is stored than it occupies |
| CoreTheorems.LimitedFits | coredumper/elfcore.c:1050-1063 | with prioritization, too, no more is stored for a mapping than it occupies |
| CoreTheorems.AlignmentUnderPriority | coredumper/elfcore.c:1033-1047 | with prioritization a mapping's file offset is congruent to its address exactly if the excess over the limit does not end inside a mapping in front of it or the limit less the vdso is a multiple of the page size |
| CoreTheorems.AlignmentLost | coredumper/elfcore.c:1033-1047 | a dump whose fixed part fits and in which a mapping is misaligned |
| DumpParameters.SettersKeepConsistency | coredumper/coredumper.c:244-286 | after any sequence of setters a prioritized dump is limited and uncompressed |
| DumpParameters.PriorityIsFinal | coredumper/coredumper.c:251-286 | no setter undoes prioritization |
| DumpParameters.SettersMean | coredumper/coredumper.c:244-294 | after any sequence of setters: prioritized exactly if a call asked for it with no limit and no compressors in its way; the length is that of the last call that could set it, 2^64 - 1 without one; compressors and notes are those set last, none in a prioritized dump |
| DumpParameters.RefusalsMean | coredumper/coredumper.c:251-286 | after which calls which setter refuses: limit and compressors exactly in a prioritized dump, prioritization exactly if a limit was asked for or compressors were set last and it is not in force yet |
| DumpParameters.RouteAfter | coredumper/elfcore.c:1984-2079 | which calls lead to a pipe, to nothing, and to a refusal |
| DumpParameters.CoreDumpParameters.SetCoreDumpLimited | coredumper/coredumper.c:251-259 | sets flag and length, or refuses, exactly after prioritization, and changes nothing |
| DumpParameters.CoreDumpParameters.SetCoreDumpCompressed | coredumper/coredumper.c:261-271 | sets the compressors, or refuses, exactly after prioritization, and changes nothing |
| DumpParameters.CoreDumpParameters.SetCoreDumpLimitedByPriority | coredumper/coredumper.c:273-286 | sets both flags and the length it is given, or refuses, exactly if a plain limit or compressors are set, and changes nothing |
| DumpParameters.DumpToFile | coredumper/elfcore.c:1984-2079 | takes its branch from the parameters and the pipeline; the planned file is prioritized exactly if that was asked for; what is not piped is never more than the limit, always a front of the planned file, complete exactly if it is all of it, and without errors its longest front within the limit, complete exactly if the planned file fits |
| DumpParameters.PrioritizedFileFits | coredumper/elfcore.c:996-1048 | nothing of a prioritized file is cut off exactly if its fixed part fits, and its size is then the smaller of full size and limit |
| DumpParameters.PrioritizedFileCut | coredumper/elfcore.c:1034-1040 | a file that prioritization cannot make fit |
| DumpParameters.DumpPrioritized | coredumper/elfcore.c:1984-2079 | end to end: whatever setters asked for prioritization, the dump is not piped, and the length given to the last of them is its limit; if nothing goes wrong and the fixed part fits, it is complete and exactly as long as the smaller of full size and limit, and otherwise as long as the limit |
| Decimal.LocalItoa | coredumper/linuxthreads.c:64-75 | writes the decimal numeral and a NUL in place, leaving the rest of the buffer alone |
| Decimal.LocalAtoi | coredumper/linuxthreads.c:126-134 | the number that the leading digits, after an optional minus sign, denote |
| Decimal.NumeralReadBack | coredumper/linuxthreads.c:64-134 | reading back what was written yields the number, whatever follows it |
| Decimal.TenDigits | coredumper/linuxthreads.c:64-75 | the digits and the sign, as characters |
| Lister.NamesParse | coredumper/linuxthreads.c:385-394 | a thread's directory name, hidden behind a dot or not, yields its id |
| Lister.RoomFor | coredumper/linuxthreads.c:419-424 | distinct threads fit into a list as large as the set of ids there are, so that growth retries end |
| Lister.MeanwhileGoing | coredumper/linuxthreads.c:358-376 | no step of other threads breaks the claim that a pass makes about the threads it has seen |
| Lister.MeanwhileSuspended | coredumper/linuxthreads.c:476-494 | once all threads are suspended no step of anyone else makes one escape |
| Lister.PassClosed | coredumper/linuxthreads.c:365-376 | a quiet pass that adds nothing has left no thread unsuspended |
| Lister.EntryHandled | coredumper/linuxthreads.c:381-467 | an entry is dealt with once its thread is on the list or is none of ours |
| Lister.Lister.Preempt | coredumper/linuxthreads.c:201-224 | any step of other threads keeps every attached thread on the published list |
| Lister.Lister.AttachThread | coredumper/linuxthreads.c:426-449 | publishes before attaching and withdraws after detaching: a failed attach or wait leaves the list as it was |
| Lister.Lister.SameAddressSpace | coredumper/linuxthreads.c:451-452 | the double probe of a changing variable tells threads from forked children, whatever a child's copy holds |
| Lister.Lister.HandleEntry | coredumper/linuxthreads.c:381-467 | one entry extends the list by at most its thread, keeps it free of duplicates and within its capacity, and asks for growth only if threads outnumber the capacity |
| Lister.Lister.ScanDirectory | coredumper/linuxthreads.c:358-469 | the passes end, each but the last making the list longer, and then all threads that the directory shows are suspended |
| Lister.Lister.ResumeAllProcessThreads | coredumper/linuxthreads.c:658-664 | no listed thread stays attached, and the result says whether any was |
| Lister.Lister.Callback | coredumper/linuxthreads.c:490-495 | what the callback may rely on: distinct threads, every attached one among them, and in a quiet run exactly the threads of ours that the directory shows, all stopped |
| Lister.Lister.SignalHandler | coredumper/linuxthreads.c:201-224 | entered between any two steps it resumes every attached thread, or on SIGABRT kills every listed one |
| Lister.Lister.ListerThread | coredumper/linuxthreads.c:251-515 | the run ends; unless a directory call failed no thread is left attached; a run that gets to the end of its passes calls the callback exactly if in some attempt, the last one or one before it, the parent was kept on a list; the callback got a complete suspension, and its result is passed on unless it forgot a thread |
| CircularList.Neighbours | lib/clist.c:83-135 | next and prev are inverse to each other all around the ring |
| CircularList.Rotation | lib/clist.c:110-135 | every node of a list is the head of the list rotated to it |
| CircularList.Append | lib/clist.c:83-101 | the ring has the new node behind all others; the contents are extended at the end |
| CircularList.Prepend | lib/clist.c:103-108 | the new node becomes the head; the contents are extended at the front |
| CircularList.Remove | lib/clist.c:110-135 | the ring without its head; the contents lose their first element |
| CircularList.Foreach | lib/clist.c:137-153 | visits the contents in order up to the first one refused, and reports whether there was none |
| CircularList.VisitOrder | lib/clist.c:42-62 | of every n+1 steps over n nodes n are valid and visit each node once, forwards from the head, or from the head and then backwards, and one leaves the list, after which it starts over |
| CircularList.Iterator.Next | lib/clist.c:176-180 | steps on the ring as the position function says |
| CircularList.Iterator.Prev | lib/clist.c:182-186 | the same, backwards |
| CircularList.Traverse | lib/test.c:76-95 | the loop over an iterator, as hooks are run, visits the contents exactly once and in order |
| LeakTable.TableAgrees | lib/leakwatch.c:155-211 | after every event the table holds exactly the live blocks whose chain began with an observed malloc, with latest size and backtraces, exactly if none of them is ever reallocated to size 0 |
| LeakTable.ShrinkingToNothingIsMissed | lib/leakwatch.c:93-106 | a block reallocated to size 0 stays in the table although it is freed |
| LeakTable.Summary | lib/leakwatch.c:361-367 | the sum of the sizes in the table, in whatever order it is walked |
| LeakTable.SummaryIsBalance | lib/leakwatch.c:361-367 | the summary is what the trace has allocated less what it has given back |
| Leakwatch.PutBalanced | lib/leakwatch.c:145-153 | an entry put into a table or taken out carries its references with it |
| Leakwatch.ReferredExists | lib/backtrace.c:242-262 | whatever is referred to has not been freed |
| Leakwatch.NothingSurvives | lib/backtrace.c:249-262 | when all tables are gone no backtrace is left |
| Leakwatch.Leakwatch.Reference | lib/backtrace.c:242-247 | counts one more reference of an object that exists |
| Leakwatch.Leakwatch.Unreference | lib/backtrace.c:249-262 | gives up one reference and frees the object exactly with the last |
| Leakwatch.Leakwatch.SimpleCallback | lib/leakwatch.c:155-211 | the table changes as specified, replaced entries are destroyed, and every count stays equal to the number of references in all tables and in flight |
| Leakwatch.Leakwatch.SendAlert | lib/leakwatch.c:58-76 | all watches are told, and the backtrace survives only if a table refers to it |
| Leakwatch.Leakwatch.AllocatorCall | lib/leakwatch.c:78-143 | a call is seen by every registered watch and by no other table, and leaves counts and hooks consistent |
| Leakwatch.Leakwatch.RegisterSimple | lib/leakwatch.c:242-303 | the first watch installs the hooks and saves the ones it found |
| Leakwatch.Leakwatch.Unregister | lib/leakwatch.c:306-343 | removes one watch, restores the original hooks with the last, and refuses an unknown handle without effect |
| Leakwatch.Leakwatch.DestroyTable | lib/leakwatch.c:145-153 | a destroyed table gives up all its references; after the last table no backtrace exists |
| Leakwatch.Leakwatch.Observe | lib/leakwatch.c:155-211 | over a whole run the table is the fold over the trace |
| Log.LogSystem.RegisterMessageHandler | lib/log.c:73-93 | new handlers come first and raise the cached priority; during a diversion they are refused |
| Log.LogSystem.UnregisterMessageHandler | lib/log.c:95-122 | the walk that deletes while it goes leaves the other handlers in order and the cached priority recomputed |
| Log.LogSystem.AlertHandlers | lib/log.c:57-71 | the loop calls the handlers that take the priority, newest first, up to the first that refuses propagation |
| LogHistory.CalledIfGets | lib/log.c:57-71 | a handler that takes the priority is called if all in front of it that do propagate the message, and in its place among them |
| LogHistory.GetsIfCalled | lib/log.c:57-71 | and nobody else is called |
| LogHistory.HandlersStand | lib/log.c:73-122 | after any sequence of calls the handlers are, newest first, those registered outside of a diversion and since then neither unregistered, cleared nor diverted |
| LogHistory.DivertedLast | lib/log.c:282-290 | messages are diverted to whatever the last such call named |
| Log.LogSystem.LogMessage | lib/log.c:201-250 | dropping early loses nothing: exactly the handlers that a walk over the whole list would call are called, in the same order |
| Log.LogSystem.LogDivert | lib/log.c:282-290 | clears the log, raises the cached priority, and sets or ends the diversion |
| Log.CacheBounds | lib/log.c:73-122 | over every sequence of calls the cached priority bounds every handler, and without diversion it is exactly their maximum, or -1 |
| Log.MacrosAgree | lib/tinu/log.h:151-152 | the logging macros deliver what a full dispatch would exactly if the log was not cleared during the diversion in force |
| Log.MacrosLose | lib/log.c:267-290 | after diverting and clearing, the macros lose a message that a full dispatch delivers |
| ReportParser.TinuResult.ParseItem | reporting/tinu.py:122-138 | one line updates summary, messages or a suite; or it raises an exception, and then it leaves behind the suite and test that it names, created if they were new, and nothing else |
| ReportParser.LinesKeepKeysClean | reporting/tinu.py:122-138 | no text whatever makes the parser see a suite or test whose name has a dot or an equals sign |
| ReportParser.SplitJoined | reporting/tinu.py:124-125 | splitting at the first separator undoes joining |
| Report.TestLineRead | reporting/tinu.py:90-96 | a test's line is read as an item of that suite and that test |
| Report.SuitesRead | lib/report-external.c:129-146 | the lines of all suites and tests are read back as those suites and tests |
| Report.ReportReadBack | lib/report-external.c:113-152 | with unique names the parser recovers summary, suites, tests, assertion and message counts exactly if all names are free of dots and equals signs |
| RunContents.WordOf | lib/test.c:662-669 | each result is printed as a word of its own |
| RunContents.ExpectedSays | lib/report-external.c:113-152 | what is recovered of a report, in its own words: totals, the six message counts by name, and of every suite and test, and no others, result, assertions and time, a count being itself below 2^31 |
| Report.DottedSuiteLost | reporting/tinu.py:131-138 | all dotted suites with the same front, and any counts, are read alike |
| ReportWriter.FileReadBack | reporting/tinu.py:143-157 | the same for the text of a file, for names and times without line ends |
| ReportWriter.Reporter.PutFile | lib/report-external.c:113-152 | the loops, with their global prefix, append exactly the report's lines |
| ReportWriter.ReportReplace | lib/report-external.c:73-92 | every %s of the template is replaced, from the left |
| ReportWriter.MarkersReplaced | lib/report-external.c:73-92 | what is between the markers stays and every marker becomes the argument; `TakenApart` takes every template apart like that |
| TestRunner.PassesIff | lib/test.c:156-172 | a test passes exactly if none of its assertions fails and no signal arrives |
| RunContents.OutcomeIff | lib/test.c:110-172 | the first signal decides the outcome, and without one a failed assertion |
| RunContents.TestMessages | lib/test.c:119-250 | how many messages of every priority a test leads to |
| RunContents.SuiteMessages | lib/test.c:297-299 | and a suite |
| TestRunner.ResultsOfSuite | lib/statistics.c:95-115 | each test of a suite counts as passed or failed, and the suite succeeds exactly if none failed |
| TestRunner.RunTotals | lib/test.c:572-585 | over a run passed plus failed is the number of tests, segmentation faults are failures, and the run succeeds exactly if nothing failed |
| TestRunner.TallyCounts | lib/statistics.c:44-50 | the counter of a priority goes up by the number of messages of that priority |
| TestRunner.TestStatistics.HookAssert | lib/statistics.c:52-63 | an assertion is counted once for the current test and once for its suite |
| TestRunner.TestStatistics.HookCaseEnd | lib/statistics.c:81-118 | the test's result is recorded and counted in exactly one of passed and failed |
| TestRunner.TestContext.RunSingleTest | lib/test.c:177-274 | one test contributes its outcome, the assertions it executed and the messages of its assertions, signal and result, to itself and its suite, and touches no other |
| TestRunner.TestContext.RunSuite | lib/test.c:276-303 | a suite's assertion counters are the sums over its tests and its result the conjunction of theirs |
| TestRunner.TestContext.RunAll | lib/test.c:572-585 | from fresh statistics a full run adds up, and returns TRUE exactly if nothing failed |
| TestRunner.TestContext.ValidateName | lib/test.c:98-109 | accepts exactly the names without dot and equals sign |
| TestRunner.TestContext.AddExtended | lib/test.c:435-490 | refuses bad names without effect, replaces a test that exists, and adds others to their suite, which is created if needed |
| TestRunner.RegistryWellNamed | lib/test.c:435-490 | however tests are added, suite names and the test names in each suite are unique and clean |
| RunContents.AddedKeeps | lib/test.c:435-490 | a test that is added is found under its name; all others stay in their places, and nothing else is added |
| RunContents.RegistryHolds | lib/test.c:435-490 | after any additions the registry holds exactly the tests of the last call with each name |
| RunReport.RunAndReport | lib/report-external.c:113-152 | registry to report and back: after any registrations a full run's report is parsed as exactly what the run did: each test with the word for its outcome and with its assertions in front of the first signal, each suite with theirs, the totals, and the number of messages of every priority |

## Left out

- Pipelines: `PipeWriter`, `FlushPipe`, `CreatePipeline` and the compressors they start (coredumper/elfcore.c:418-515, 1245-1496); the prefix property is about the limiting writer only.
- The other half of `InternalGetCoreDump`: forked dumps through a file descriptor, reading registers with ptrace, parsing `/proc/self/stat` and `status` (coredumper/elfcore.c:1552-1957).
- The 32-bit build: `fpxregs` notes (coredumper/elfcore.c:635-648), where a null base plus an index is not null and the announced note size can be wrong.
- CoreRoundTrip.ReadBack: asks that the file is shorter than 2^64 bytes, that every field fits, and that at most one thread has the main id (`SomeDumpFits` shows that this can be met, and `CoreDump.DumpFits` that the fields of mappings do fit); what happens otherwise is in `HeaderCountSurvives` and `NoteAccounting`.
- CoreWriter.CreateElfCore: the auxiliary vector is given and re-opening it does not fail; memory does not change while it is dumped; the running offsets do not wrap around.
- MapsText.MapReadBack: is about lines the kernel writes; what other lines are parsed as is the definition of the scanner, against which `MapsReader.ReadLine` is proved.
- MapsTable.LeadingZeroPagesIsLargest: is about whole pages; for other lengths `LeadingZeros` is proved against its definition only.
- DumpParameters.DumpToFile: what goes through a pipeline to a compressor is not modelled; the contract promises nothing about the file then.
- DumpParameters.CoreDumpParameters.SetCoreDumpLimited: the size by which versions of the parameter structure are told apart is not modelled.
- Decimal.LocalAtoi: integers are unbounded; a name of more than ten digits overflows in C, as does the most negative integer in `local_itoa`.
- Lister.Lister.ListerThread: file descriptors, alternate stacks and signal masks are not modelled; after a failing directory call threads can stay attached (exit code 1), as in the code, and the contract says which. That the parent was seen in an attempt that was given up counts in later attempts, as in the code, so that a callback can run without the parent on its list.
- Lister.Lister.SignalHandler: system calls of the handler are not interrupted by another signal, since it blocks them all.
- Lister.Lister.ResumeAllProcessThreads: when threads may have exited, the result only says that some thread was resumed.
- CircularList.Traverse: assumes that the list is not changed while it is walked; `clist_destroy` (which frees only the first node) and `clist_iter_remove` are left out, and so is `test_unregister_hook`, which uses them.
- Leakwatch.Leakwatch.RegisterSimple: only simple watches, each with a table of its own; the three hooks are saved and restored together, so that they are one value; `atexit` is left out.
- LeakTable.TableAgrees: asks that the allocator hands out no live address and that only live blocks are given back; reallocation to size 0 frees and returns NULL, as in the GNU C library.
- Log.LogSystem.LogMessage: a message is its priority; handlers do not call the log themselves.
- ReportParser.TinuResult.ParseItem: a time is an opaque token, so that `float` does not fail.
- Report.ReportReadBack: counters are 32 bits wide and printed as signed numbers, and recovered as printed; the 4096-byte prefix buffer is unbounded.
- TestRunner.TestContext.RunSingleTest: context switches do not fail, and signals are handled (otherwise they end the process); leak information is left out, and no other handler keeps messages from the statistics.
- TestRunner.TestContext.AddExtended: setup, function, cleanup and user data are one script; a replaced test keeps its old user data in the code.
- Looking up a suite that does not exist without creating it, which returns the last suite (lib/test.c:305-327), and `msg_copy` (lib/message.c).
- DWARF lookup, symbol resolution, option parsing, the standard report, the C++ wrapper, the SQLite backend and the meta files.
