# ePtracer, from a system call to a printed line

ePtracer traces one process. A kernel program filters system calls by process, copies each call into a
record in a ring buffer, and a user program renders each record as one line. A second kernel program
samples stacks into a per-CPU slot that the user program prints. This project models that path in
Dafny and proves what the printed output says about the traced process.

| file | contents |
|---|---|
| CTypes.dfy, Numerals.dfy | C integers, NUL-terminated buffers, `snprintf`; decimal, hexadecimal and pointer formats with their inverses and lengths |
| TargetFilter.dfy | `str_equals`, `is_target_program` |
| Identifier.dfy | `get_PID_to_trace`, `initialize_array`, and the way of a PID through printer, copy and parser |
| Tokenizer.dfy | `create_execvp_args`: the in-place `strtok` loop |
| SyscallEvents.dfy, Producer.dfy, CaseWrites.dfy | the record and its layout; `sys_enter_multiplexer`, case by case, as methods and as lists of writes |
| MetricLine.dfy, Consumer.dfy, FormatStrings.dfy | the shape of a metric, `syscall_event_handler`, what can be read back from a metric; the format strings under a model of printf |
| SyscallLine.dfy, MountLine.dfy, LineBreaks.dfy | one call through producer and consumer; what its line tells, the three strings of mount, strings with newlines |
| RingProtocol.dfy, SyscallTracing.dfy, OutputStream.dfy | CPUs and consumer sharing the ring, step by step; whole runs; the stream they write |
| StackSampler.dfy, StackPrinter.dfy, CpuAttach.dfy | `get_stacktrace`, `stack_event_handler` and below, the attach loop |

Code that works in place is a method on arrays or objects, proved against a function of the old
contents. `Producer.Complete` says what the record of each system call must hold, argument by argument
and independently of the order of writing. Each case of the producer's switch is a method that fills an
`EventRecord` field by field and is proved to leave such a record. It is also a list of writes
(`CaseWrites.Fills`), proved to lead there too (`CaseWrites.FillsComplete`); the protocol executes these
lists one write at a time, with any number of CPUs interleaved, so that its finished reservations are
the ones the methods leave (`SyscallTracing.ProtocolAgreesWithCode`). What a line should show is
written down once more, from the signatures of the system calls alone (`SyscallLine.CallLine`).

## What the output tells

Each call of the handler prints the line of one call of the target, in the order of reservations, and
none twice (`SyscallTracing.PrintedLines`, `PrintedCallsAreInOrder`). Every run can go on until all
readable calls have been shown (`EveryReservationIsShown`). A reader of standard output sees one stream,
though, and the paths in it are printed unescaped:

- Cut at its newlines, the stream gives back the lines of the shown calls exactly when no path or mount
  string among them holds a newline (`OutputStream.LinesComeBackIffSingle`).
- With newlines the output is ambiguous: one call with a suitable path writes what two calls write
  (`LineBreaks.OneCallPrintsTwoLines`; `OutputStream.AmbiguousRuns` gives the two runs, and
  `LineBreaks.BreakingTextFits` shows that such paths fit the 128 bytes copied).
- Without newlines, a line determines its call, quotes in the path included
  (`SyscallLine.LineDeterminesCall`), except for mount, where it does exactly when the three strings can
  be cut at the delimiters in one way (`MountLine.MountCallIsReadableIffOneCut`,
  `MountLine.AmbiguousCalls`).
- So two runs without newlines and without such mounts that write the same stream have shown the same
  calls (`OutputStream.StreamTellsCalls`).

## Assumptions about what is not in the repository

- `bpf_ringbuf_reserve` fails, or returns a record with arbitrary contents; it fails at least when the
  ring positions would end up 4096 bytes or more apart. Records carry an 8-byte header.
- The consumer sees reservations in order, stops at one still being filled and skips discarded ones.
- `bpf_probe_read_user` fills all 128 bytes, or fails with the destination zeroed.
- `bpf_get_current_comm` fills a buffer of 100 bytes, or fails. Only `LongNamesNeverMatch` and
  `TwentyDigitsCanWrap` use that a command name has at most 15 bytes.
- `bpf_get_stack` returns a negative error, or a byte count of at most the length passed with that many
  bytes of frames; the rest of the buffer is kept or cleared.
- `unsigned long` and pointers have 64 bits, and `%p` prints `(nil)` for a null pointer, as glibc does.
- The answers of these helpers during one call are part of the call (`Producer.Call`), so each statement
  about all calls and all runs covers every failure.

## Where the code and its comments differ

- `create_execvp_args` is documented to build the argument vector of the program. It holds the words of the
  line exactly when the line has a space or is empty (`Tokenizer.VectorHoldsTheWords`): `ls ` gets the
  vector `ls`, and `ls` an empty one (`Tokenizer.LoneCommandLosesItsName`).
- `get_PID_to_trace` is documented to return the PID of the spawned process. It checks the read from the pipe
  only for errors, so when the child ends before it writes, the PID printed is whatever the variable held
  (`Identifier.GetPidToTrace`).
- The comment beside `MAX_PID_LEN` speaks of PIDs up to 4194304. PIDs of up to nine digits are kept; of
  ten digits the last is dropped (`Identifier.PidRoundTrip`).
- `get_stacktrace` tests both stack sizes for being negative. The kernel's size is unsigned, so its test
  never holds and a failed capture is taken for a huge stack (`StackSampler.SampleIsolation`), which the
  printer then reads past the end of the record (`StackPrinter.ReportShowsTheSample`).
- `print_frame` omits the newline after a frame whose source file is known
  (`StackPrinter.EntriesEndingTheirLine`).

## Model

| member | source | states |
|---|---|---|
| TargetFilter.StrEquals | src/eptracer.bpf.c:61-72 | the loop returns -1, stored unsigned, exactly when at the first byte that differs, within the size and before any NUL, the first string has the smaller byte; 1 exactly when it has the larger one; and 0 otherwise, that is on equal bounded C strings |
| TargetFilter.StrEqualsIsTotalOrder | src/eptracer.bpf.c:61-72 | the result is a total order on bounded C strings: zero is equality, swapped arguments swap the non-zero results, and it is transitive |
| TargetFilter.ParseIdentifier | src/eptracer.bpf.c:101-110 | the decimal loop yields the value of the leading digit run modulo 2^64 |
| TargetFilter.IsTargetProgram | src/eptracer.bpf.c:75-119 | for every entry, name and thread: non-zero exactly when both helpers answered, the tgid is not 0, and the name equals the entry as a C string or the value of the leading digits modulo 2^64 is the tgid; and then it is the tgid |
| TargetFilter.NumericSelectionIsExact | src/eptracer.bpf.c:99-116 | with at most 19 leading digits nothing wraps: a process not matched by name is selected exactly when its tgid is the number written |
| TargetFilter.PidOfNumeral | src/eptracer.bpf.c:101-110 | the numeral of any number, followed by padding, is read back modulo 2^64 |
| TargetFilter.TwentyDigitsCanWrap | src/eptracer.bpf.c:101-113 | the limit of 19 digits is tight: 2^64 + pid, written out, selects pid |
| TargetFilter.LongNamesNeverMatch | src/eptracer.bpf.c:82-99 | an identifier of more than 15 bytes never selects by name |
| Identifier.GetPidToTrace | src/eptracer.c:133-205 | a given PID is returned as it is; otherwise a program of at most 100 bytes is cut into an argument vector and the PID variable is printed in decimal, its first nine characters: the PID read from the pipe, or, if the pipe was closed and empty, what the variable held before; longer programs and failed spawns exit; nothing given yields no target |
| Identifier.InitializeArray | src/eptracer.c:231-251 | an identifier over 100 bytes is refused without touching the map; any other is stored zero-padded unless the map update fails |
| Identifier.Entry | src/eptracer.c:233-242 | the entry has 100 bytes, the text and then NULs, and reads as that text even when the text fills it |
| Identifier.PidRoundTrip | src/eptracer.c:196 | for every positive PID: printed into ten bytes, stored and parsed, it comes back exactly when it has at most nine digits; with ten it comes back divided by ten |
| Identifier.SpawnedProcessIsTheTarget | src/eptracer.c:187-200 | the filter selects the spawned process, and besides it only processes named by the same digits |
| Identifier.IdentifierIsKept | src/eptracer.c:237-246 | any identifier up to 100 bytes, stored and looked up, selects exactly the processes of that name and the process that its leading digits number modulo 2^64 |
| Tokenizer.Strtok | src/eptracer.c:112-116 | one call finds the next maximal run from the saved position on, ends it in place, and changes nothing before the saved position |
| Tokenizer.CreateExecvpArgs | src/eptracer.c:100-119 | entry k points at the k-th maximal run, which reads as a C string in the overwritten line; NULL follows the last of at most 50; the limit on arguments never cuts the list, and every write is inside the 801 allocated bytes |
| Tokenizer.ArgvReadsAsWords | src/eptracer.c:112-118 | the strings found through such a vector are the words of the line |
| Tokenizer.RunsAreMaximal | src/eptracer.c:111-116 | the runs are non-empty, contain no space, are bounded by spaces or the ends, and are in order |
| Tokenizer.RunsAreAll | src/eptracer.c:111-116 | every maximal run of the line is among them |
| Tokenizer.RunCount | src/eptracer.c:113-117 | n bytes hold at most (n + 1) / 2 runs |
| Tokenizer.WordsKeepEverything | src/eptracer.c:111-116 | the words joined together are the line without its spaces |
| Tokenizer.WordsOfJoin | src/eptracer.c:111-116 | cutting words joined by single spaces gives the same words |
| Tokenizer.VectorHoldsTheWords | src/eptracer.c:104-118 | the argument vector holds the words of the line exactly when the line has a space or is empty |
| Tokenizer.RewritingTheLine | src/eptracer.c:104-118 | writing the vector back with single spaces gives the same vector, except exactly for a line with a space and a single word |
| Tokenizer.LoneCommandLosesItsName | src/eptracer.c:104-118 | the failing input: `ls ` gets the vector `ls`, `ls` an empty one |
| Producer.Kernel.Reserve | src/eptracer.bpf.c:181-182 | refused, or a fresh record with the stale contents of the ring, still being filled |
| Producer.Kernel.Close | src/eptracer.bpf.c:217-221 | submitting or discarding closes an open reservation with the record as it is then |
| Producer.Kernel.SendSignal | src/eptracer.bpf.c:189-190 | the signal is counted on a reservation that is already submitted |
| Producer.ProbeReadUser | src/eptracer.bpf.c:215-220 | 128 bytes as read, or NULs and a negative result, byte 128 kept |
| Producer.SysEnterMultiplexer | src/eptracer.bpf.c:168-468 | one invocation, through the case methods OnPtrace to OnKeyctl, changes the ring exactly when the process is selected, its number has a label other than open, an ioctl on Android is one of the two binder commands, and the reservation succeeds. It then leaves one more reservation, closed: discarded exactly when the path of its own label could not be read, and otherwise submitted with the type of that label, the PID of the caller (for ptrace of the tracee), each argument kept as a number, each path or mount string with a terminator behind it, and elsewhere the stale memory; with one signal if and only if it is ptrace. A readable open of a selected process leaves a message |
| Producer.PlanFollowsTheLabel | src/eptracer.bpf.c:168-468 | which calls are ignored, only reported, filtered or recorded, each as an equivalence on process, label and command; a recorded call is recorded under the label of its own number and the PID of its process |
| CaseWrites.AbortsExactlyOnUnreadablePath | src/eptracer.bpf.c:215-219 | a record is given up exactly when the path of execve, openat, chown or umount cannot be read |
| CaseWrites.FillsComplete | src/eptracer.bpf.c:177-465 | the writes of each case, one after the other on any memory, leave the record that SysEnterMultiplexer is proved to leave |
| MetricLine.TextDenotes | src/tracers/syscall.c:187-253 | what each conversion prints: for %lu and %lx the digits of the argument in base 10 and 16 without zeros in front, for %d the same behind a minus for negative arguments, for %p `(nil)` exactly at 0 and else 0x and the digits in base 16, for %s the string |
| Numerals.WritesOnlyNumeral | src/tracers/syscall.c:187-253 | digits of a base without a zero in front are determined by their value |
| Numerals.ValueIsWeighted | src/eptracer.bpf.c:103-110 | reading digits from the left, times the base each, is positional notation |
| MetricLine.ReadFields | src/tracers/syscall.c:187-253 | a list of fields with at most one string is determined by its text, even though the string may hold quotes and whole fields |
| MetricLine.ReadLine | src/tracers/syscall.c:187-256 | a line determines its time, pid and label, and the text of its fields |
| Consumer.LineDeterminesEvent | src/tracers/syscall.c:185-258 | for every type but mount, two events with the same metric have the same type, time, pid and printed arguments |
| Consumer.RenderingNeverTruncates | src/tracers/syscall.c:181-258 | with terminated strings and a 64-bit time every metric is shorter than its 1024-byte buffer |
| Consumer.SnprintfInto | src/tracers/syscall.c:182-187 | the buffer reads as the text, cut to what fits |
| Consumer.MicrosecondsKeepTheTime | src/tracers/syscall.c:178-181 | seconds and whole microseconds can be recovered from the printed time |
| FormatStrings.MetricIsPrintf | src/tracers/syscall.c:185-258 | the rendering of every event is what printf makes of its format string, conversion by conversion, with the PID as first and the time as last argument |
| Consumer.SyscallEventHandler | src/tracers/syscall.c:176-261 | what is printed is the untruncated rendering of the record and a newline |
| MountLine.SameMountLine | src/tracers/syscall.c:225-228 | two mount lines are equal exactly when time, pid, flags, data and the text around and between the strings are |
| MountLine.MountIsAmbiguous | src/tracers/syscall.c:225-228 | the property fails for mount: a family of pairs of different mounts with equal lines |
| MountLine.MountCallIsReadableIffOneCut | src/tracers/syscall.c:225-228 | the same for calls, on the texts they pass: no call that differs in label, PID or an argument prints the line of a mount call exactly when that line has a single cut |
| MountLine.MountCallsAreAmbiguous | src/tracers/syscall.c:225-228 | the family again, as mount calls with one line and different arguments |
| MountLine.AmbiguousCalls | src/tracers/syscall.c:225-228 | one concrete such pair |
| MountLine.MountIsDeterminedIffOneCut | src/tracers/syscall.c:225-228 | a mount line determines its event exactly when its text can be cut at the two delimiters in one way that fits the record |
| MountLine.NoQuotesMeansOneCut | src/tracers/syscall.c:225-228 | so it does whenever the three strings hold no double quote |
| SyscallLine.FormatsFollowSignatures | src/tracers/syscall.c:185-258 | each format has one field per parameter of its call, in order, under its name and in the notation for its type, and takes each value from the place where the producer put the argument in that position |
| SyscallLine.CompleteRecordIsTheCall | src/tracers/syscall.c:185-258 | a record that holds what the producer leaves renders as the line of the call itself: its label, its caller, and parameter by parameter its arguments and the texts they point to; its strings are terminated |
| SyscallLine.RenderedRecordIsTheCall | src/eptracer.bpf.c:177-465 | so does the record that the writes of a case leave, whatever the memory held |
| SyscallLine.StaleMemoryIsInvisible | src/eptracer.bpf.c:177-465 | any two initial contents of the reserved record lead to the same line |
| SyscallLine.LineDeterminesCall | src/tracers/syscall.c:185-258 | for every call but mount: calls with the same line have the same time, label, printed PID and arguments, and are the same system call up to umount and umount2 |
| SyscallLine.LineStartsWithPid | src/tracers/syscall.c:185-258 | the line of a ptrace starts with the PID of the tracee, every other line with that of the caller, and then the label |
| SyscallLine.TextOfMemory | src/eptracer.bpf.c:346-351 | a text is printed up to its first NUL, and as nothing if it could not be read |
| SyscallLine.LineIsSingle | src/tracers/syscall.c:185-258 | the line of a call holds a newline exactly when a text the call passes does |
| LineBreaks.OneCallPrintsTwoLines | src/tracers/syscall.c:259 | for every call, each text it passes and any strings x and y: one call with the combined text prints what two calls that pass x and y print |
| LineBreaks.BreakingTextFits | src/include/syscall_tracing.h:71-78 | for execve with null argv and envp the combined text takes 77 bytes besides PID, time, x and y, so it fits the 128 bytes with PIDs of four and times of sixteen digits |
| RingProtocol.RecordSize | src/include/syscall_tracing.h:71-78 | the layout gives 448 bytes, and 456 with the header |
| RingProtocol.RoomIsEight | src/eptracer.bpf.c:54-57 | there is room exactly while fewer than eight records wait |
| RingProtocol.NextIsOk | src/eptracer.bpf.c:181-222 | each statement of a case moves its reservation on, and an invocation ends only on a closed one |
| RingProtocol.ReserveKeepsInv | src/eptracer.bpf.c:181-182 | reserving keeps the invariant: every open record has one CPU, submitted records are complete, output is as expected |
| RingProtocol.AdvanceKeepsInv | src/eptracer.bpf.c:183-191 | so does every statement of every CPU |
| RingProtocol.ConsumeKeepsInv | src/tracers/syscall.c:271-280 | so does every record taken by the consumer |
| RingProtocol.QuietMeansSettled | src/eptracer.bpf.c:177-467 | when all CPUs are outside the program every reservation is closed and every signal sent |
| RingProtocol.SignalsFollowSubmissions | src/eptracer.bpf.c:189-190 | signals sent and signals about to be sent add up to the submitted ptrace records, at most one each, none before its submission |
| SyscallTracing.Run | src/eptracer.bpf.c:167-468 | the invariant of the ring holds after every run, in any interleaving |
| SyscallTracing.RunFollowsTrace | src/eptracer.bpf.c:167-468 | the reservations, clock readings and counters after a run are those read off its trace |
| SyscallTracing.PrintedLines | src/tracers/syscall.c:176-280 | in every run the texts printed by successive handler calls are, one for one and in reservation order, the lines of the consumed reservations whose path was readable |
| SyscallTracing.ReadableCallsAreShown | src/tracers/syscall.c:176-280 | in every run handler call k prints the line of one reserved call, under the label of its number and the PID of its process, with the time it was taken; the reservations shown are exactly those taken that did not have to read a path or could, in order |
| SyscallTracing.PrintedCallsAreInOrder | src/tracers/syscall.c:176-280 | the handler calls show a subsequence of the target's handled calls: none without having been made, none twice, none out of order |
| SyscallTracing.FateDecides | src/eptracer.bpf.c:168-468 | handled and reserved calls are those whose process, label, command and reservation say so |
| SyscallTracing.LineOfCall | src/tracers/syscall.c:185-258 | the line expected of a recorded call is that of the label of its number, for the PID of its process |
| SyscallTracing.NothingIsUnknown | src/tracers/syscall.c:255-257 | in every run, no record that reaches the handler is labelled unknown |
| SyscallTracing.Settle | src/eptracer.bpf.c:177-467 | from every reachable state the CPUs can leave the program by their own statements |
| SyscallTracing.Drain | src/tracers/syscall.c:280 | when all CPUs are outside the program the consumer can go on until every reservation is taken |
| SyscallTracing.EveryReservationIsShown | src/tracers/syscall.c:271-280 | every run can go on without new calls until each reservation with a readable path has been shown |
| SyscallTracing.CallsCanBeTaken | src/tracers/syscall.c:271-280 | every list of recordable calls is what some run reserves and takes |
| OutputStream.StreamOfCutLines | src/tracers/syscall.c:259 | cutting a stream at its newlines loses nothing |
| OutputStream.LinesComeBackIffSingle | src/tracers/syscall.c:259 | cut at its newlines, the stream of a run gives the lines of the handler calls back exactly when no text passed by a shown call holds a newline |
| OutputStream.StreamTellsCalls | src/tracers/syscall.c:176-280 | two runs that write the same stream, without newlines in texts and without mounts that have a second cut, have shown the same calls, at the same times, one by one |
| OutputStream.AmbiguousRuns | src/tracers/syscall.c:259 | the property fails with newlines: for any call that passes one text there are two runs with the same stream, one that made a single call and one that made two |
| SyscallTracing.StepPreservesReservations | src/eptracer.bpf.c:177-467 | no step removes, reorders or reuses a reservation or changes a closed record |
| SyscallTracing.FullRingRefuses | src/eptracer.bpf.c:54-57 | at most eight records ever wait, and a call that meets eight is refused without any effect on them |
| SyscallTracing.Accounting | src/eptracer.bpf.c:177-467 | handled calls equal submitted, discarded, in-flight and refused ones plus opens that only print and filtered ioctls, each counter being the number of calls of that kind in the trace; in-flight records always have a CPU |
| SyscallTracing.CountersFollowTrace | src/eptracer.bpf.c:177-467 | reservations and each of the three counters are tallies of the trace, by process, label, command and reservation |
| SyscallTracing.SignalsMatchSubmissions | src/eptracer.bpf.c:179-192 | in every run signals match submitted ptrace records one to one, once all CPUs are done |
| SyscallTracing.ProtocolAgreesWithCode | src/eptracer.bpf.c:167-468 | a reservation its CPU has left is what SysEnterMultiplexer leaves for that call |
| StackSampler.BpfGetStack | src/eptracer.bpf.c:142-153 | the captured frames at the front of the buffer, the rest kept or cleared |
| StackSampler.GetStacktrace | src/eptracer.bpf.c:123-161 | a trace is emitted exactly when the slot was found and the interrupted process is selected; it carries the PID of that process, both sizes and both captures, and the slot holds it; otherwise the slot is left alone |
| StackSampler.SampleIsolation | src/eptracer.bpf.c:139-158 | a reader of a sample takes exactly its own user frames, always, and exactly its own kernel frames if and only if the capture did not fail |
| StackSampler.EverySampleIsIsolated | src/eptracer.bpf.c:123-161 | over any sequence of samples on one CPU, those of other processes among them, the emitted traces are one for each sample of a selected process, in order, each with the PID and the frames of its own sample |
| StackPrinter.PrintFrame | src/tracers/stacktrace.c:29-59 | the text of a frame, or of an inlined call when the address is 0 |
| StackPrinter.EntryIsRead | src/tracers/stacktrace.c:29-59 | that text reads back: 0x and sixteen digits whose value is the address from the stack, then name, symbol address, offset and, as far as known, directory, file and line, each in its place |
| StackPrinter.ShowStackTrace | src/tracers/stacktrace.c:73-112 | for any symbolizer result the text printed falls into pieces that read as the entries of the stack, one after the other, and the addresses read from the pieces are the visible ones of the stack, in order |
| StackPrinter.StackEventHandler | src/tracers/stacktrace.c:130-167 | header, kernel part and user part, each with the frames its size claims; a size that claims more frames than the record has room for makes it read past them |
| StackPrinter.ReportShowsTheSample | src/tracers/stacktrace.c:140-165 | the report on a sample, from its first rule to its last: time, PID, CPU, sizes and frames of that sample behind their captions, whatever the slot held, exactly when its kernel capture succeeded; otherwise the printer reads past the record |
| StackPrinter.PrintedAddresses | src/tracers/stacktrace.c:96-109 | the printed addresses are the stack's, in order, without symbolized frames at 0 |
| StackPrinter.WholeStackIsVisible | src/tracers/stacktrace.c:96-109 | so they are the whole stack exactly when there is no such frame |
| StackPrinter.EntryCount | src/tracers/stacktrace.c:96-109 | one entry for each address and one for each inlined call of a symbolized frame |
| StackPrinter.EntriesOfAddress | src/tracers/stacktrace.c:96-109 | the entries of an address: without a symbol the bare address, else a frame with name, address, offset and position of its own symbol, and then the inlined calls with theirs, in order |
| StackPrinter.EntriesInOrder | src/tracers/stacktrace.c:96-109 | those of the i-th address stand behind one entry for each earlier address and each call inlined there |
| StackPrinter.EntriesEndingTheirLine | src/tracers/stacktrace.c:37-58 | an entry ends its line exactly when it is not a frame with a known source file |
| CpuAttach.AttachAll | src/tracers/stacktrace.c:188-228 | on success a CPU has descriptor and link exactly when it is below the mask's length and set in it; on failure exactly the online CPUs before the failing one do, and none after it is touched |

## Left out

- Consumer.SyscallEventHandler: requires the time in microseconds to fit a signed 64-bit integer, because C leaves the overflow undefined; and terminated strings, which every submitted record has.
- StackPrinter.StackEventHandler: says that the frames claimed run past the record, but not what is printed then, because C leaves it undefined.
- Tokenizer.CreateExecvpArgs: requires the length check its caller makes.
- Producer.SysEnterMultiplexer: covers one invocation; other CPUs' reservations are in RingProtocol and SyscallTracing.
- `perf_event_output` and its perf buffer: an emitted trace may be lost before it is printed.
- libbpf's poll functions, apart from the order in which they hand over records.
- `main`, threads, signals, `cleanup`, pipes, `fork` and `exec`: only the PID, the program line and the failures that reach `get_PID_to_trace` matter.
- Other writers to standard output: log messages, and stack reports when both tracers run.
- Memory allocation failures, and a null program or PID argument as distinct from an empty one.
- `decode_syscall`: uncalled, and a flat table.
- The JDWP filter and its reader, `argparse.h`, `log.h`, log messages, the generated skeleton, build files.
- Kernel, libbpf, perf and blazesym internals are not part of this model.
- A C byte is a Dafny `char`; values above 255 are allowed and make no difference.
