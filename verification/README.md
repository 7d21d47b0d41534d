# A verified model of the TRISTAN trace demonstrator

The demonstrator is a small RISC-V firmware that traces itself, and the host tools that configure the trace unit and
capture what it sends. This project models the parts of both that carry state or a protocol, and proves what they
promise. Code that changes things in place is modelled by classes, arrays and loops, each proved against a
specification function; the properties are lemmas about those functions, for every input and every interleaving.

| file | models |
|---|---|
| `Ctrace.dfy` | the command word, the typed trace messages, and a decoder for them |
| `CtraceTest.dfy` | the eight-phase producer of test messages |
| `SchedulerModel.dfy` | the scheduler as a transition system: one shared access per main step, one tick per interrupt |
| `SchedulerSafety.dfy` | slots, the two variants of the sweep, conservation of releases |
| `SchedulerTiming.dfy` | bounded bypass, response and return of the loop, counted in main steps |
| `SchedulerOverload.dfy` | exactly when no release is lost, and how many ticks it takes the loop to return |
| `SchedulerTrace.dfy` | the shape of a run and what its words decode to |
| `Scheduler.dfy` | the scheduler as a program with its volatile globals, interrupted before every shared access |
| `Led.dfy`, `Handler.dfy` | LED bits shared by main code and trap handler; the trap handler |
| `UdpLog.dfy`, `Udp2Nexus.dfy`, `Reassembly.dfy` | the capture log, its reader, the cutting into files, a lossy channel |
| `Watchpoints.dfy` | the watchpoint table built and written by the configuration script |
| `TraceContexts.dfy`, `Dhrystone.dfy` | the imperative kernels of the application |
| `Arithmetic.dfy`, `Wrappers.dfy` | quotients, an option type |

## How to read the models

*Scheduler.* A run is any finite list of `Tick` and `Main` events from a state in which the timer has just been started;
`scheduler_enabled` and the counter of the trace test hold anything, since nothing clears them. `MainStep` does one
shared access: read the flag, test a slot, read the id through the slot and announce the task, read the entry point,
one action of the task body, clear the slot. A timer interrupt is one atomic step that may come between any two of
them, also after `scheduler_disable`. History variables count ticks, completions and absorbed releases.
`SchedulerProgram` is the same code as a class with an interrupt schedule `irq`: `irq[k]` interrupts arrive before
shared access `k`. There ticks that arrive inside a task are counted at its next access; the transition system lets
them fall anywhere. The tick counter is 32 bits wide, and 2^32 is not a multiple of any period: conservation is proved
for runs of any length, and the lemma that restates it as ticks / period says exactly how far that form holds.

*Trace protocol.* Signed, floating-point and pointer values are carried by their bit patterns. `emit_pc` writes the
word of `emit_marker(0)`, so it is that message. The repository has no decoder; `Decode` is the one that the theorems
need, and it accepts exactly the streams that are encodings.

*Capture.* The first expected sequence number is 0xFFFF, which is also a legal number: a capture that begins with it
has no file open until the first jump, and its leading run is dropped. The theorems hold for every first number and say
which runs reach a file; `FirstRunDropped` is an input that loses its payload. A rest of one to three bytes at the end
of a log is taken for its regular end. A datagram shorter than six bytes leaves part of an older number in the shared
buffer and, with a file open, makes the length of a write wrap below zero. `Machine` models this with the buffer;
`OverrunExactly` says for every log whether it comes to such a write, behind which the C program has no meaning.

*Watchpoints.* The script pads every PC to ten decimal digits to sort the rows as text, and then compares the padded
text of the smallest PC in shell arithmetic, where a leading zero means octal and a digit 8 or 9 is an error that
makes the condition false. The check therefore rejects some small addresses it need not reject, and lets 8, 9, 18 and
19 pass where it should not; from 34 on it is right. `AscendingExactly` gives both conditions, `PaddedEightPasses` an
input. No pair at all is reported as a duplicate, because an empty list still prints one line. The command of a row
breaks ties between equal keys, which are rejected later anyway. A register write may leave any value behind before
one sticks; `VerifiedWrite` retries as the script does.

*LEDs.* A call from main is a load and a store with any calls of the trap handler between them. Which pairs of LEDs may
be used on the two sides is stated as an equivalence; the firmware's call sites are all on the safe side.

*Dhrystone.* Strings are character arrays with a terminator, the heap is five records. A copy of a whole record is one
assignment of all its fields. Dafny accepts no read of an unassigned local and no index out of bounds, so both are
shown by the methods as they stand.

## Model

| member | source | states |
|---|---|---|
| CtCsr.FieldsRoundTrip | firmware/emsa5/hal/ctrace.h:20-27 | command, sink and data of a command word are independent: each reads back masked to its width, and every 32-bit word is the word built from its own three fields |
| CtCsr.FieldLayout | firmware/emsa5/hal/ct_csr.h:129-136 | command in bits 5..0, sink in bits 7..6, direct data in bits 31..8 of the word |
| Ctrace.WordsSelfDelimiting | firmware/emsa5/hal/ctrace.h:30-173 | in the words of every message the continuation bit is set on all but the last, and the message can be read back from them |
| Ctrace.EncodeAppend | firmware/emsa5/hal/ctrace.h:54-189 | emitting two lists of messages one after another is emitting their concatenation |
| Ctrace.DecodeEncode | firmware/emsa5/hal/ctrace.h:54-189 | decoding what was emitted for any list of messages returns the list |
| Ctrace.UniqueDecodability | firmware/emsa5/hal/ctrace.h:54-189 | two lists of messages with the same words are the same list |
| Ctrace.EncodeDecode | firmware/emsa5/hal/ctrace.h:54-189 | a word stream that decodes at all is the encoding of what it decodes to |
| Ctrace.Resynchronises | firmware/emsa5/hal/ctrace.h:60-109 | cut a stream at any word and skip through the first word with a clear continuation bit: what is left is exactly the encoding of the messages after the cut one |
| Ctrace.ResyncLosesOne | firmware/emsa5/hal/ctrace.h:60-109 | those messages are the suffix behind the one message whose words contain the cut |
| Ctrace.ContinuesIsBit30 | firmware/emsa5/hal/ctrace.h:65-79 | the continuation bit is bit 30 of the word |
| Ctrace.ResyncSkips | firmware/emsa5/hal/ctrace.h:65-79 | resynchronising drops exactly the words up to and including the first one whose bit 30 is clear |
| Ctrace.LayoutPlain | firmware/emsa5/hal/ctrace.h:30-58 | the words of markers, nop, sync and ownership messages in hexadecimal |
| Ctrace.LayoutShort | firmware/emsa5/hal/ctrace.h:81-119 | the words of 8-bit and 16-bit values in hexadecimal |
| Ctrace.LayoutU32 | firmware/emsa5/hal/ctrace.h:91-97 | the two words of an unsigned 32-bit value in hexadecimal, low half first |
| Ctrace.LayoutS32 | firmware/emsa5/hal/ctrace.h:121-127 | the same for a signed one |
| Ctrace.LayoutF32 | firmware/emsa5/hal/ctrace.h:141-149 | the same for a single-precision one |
| Ctrace.LayoutP32 | firmware/emsa5/hal/ctrace.h:165-173 | the same for a pointer |
| Ctrace.LayoutU64 | firmware/emsa5/hal/ctrace.h:99-109 | the four words of an unsigned 64-bit value in hexadecimal, lowest fragment first |
| Ctrace.LayoutS64 | firmware/emsa5/hal/ctrace.h:129-139 | the same for a signed one |
| Ctrace.LayoutF64 | firmware/emsa5/hal/ctrace.h:151-163 | the same for a double-precision one |
| Ctrace.Bits8 | firmware/emsa5/hal/ctrace.h:65-84 | command, fragment, width, type, continuation and ownership bits of the words of 8-bit values |
| Ctrace.BitsU16 | firmware/emsa5/hal/ctrace.h:65-89 | the same for an unsigned 16-bit value |
| Ctrace.BitsS16 | firmware/emsa5/hal/ctrace.h:65-119 | the same for a signed 16-bit value |
| Ctrace.BitsU32 | firmware/emsa5/hal/ctrace.h:65-97 | the same for both words of an unsigned 32-bit value, word k carrying bits 16k to 16k + 15 |
| Ctrace.BitsS32 | firmware/emsa5/hal/ctrace.h:65-127 | the same for a signed 32-bit value |
| Ctrace.BitsF32 | firmware/emsa5/hal/ctrace.h:65-149 | the same for a single-precision value |
| Ctrace.BitsP32 | firmware/emsa5/hal/ctrace.h:65-173 | the same for a pointer |
| Ctrace.BitsU64 | firmware/emsa5/hal/ctrace.h:65-109 | the same for the four words of an unsigned 64-bit value |
| Ctrace.BitsS64 | firmware/emsa5/hal/ctrace.h:65-139 | the same for a signed 64-bit value |
| Ctrace.BitsF64 | firmware/emsa5/hal/ctrace.h:65-163 | the same for a double-precision value |
| Ctrace.ShiftKeepsSign32 | firmware/emsa5/hal/ctrace.h:121-127 | the modelled right shift of a signed word moves the upper half down behind copies of the sign bit |
| Ctrace.ShiftKeepsSign64By16 | firmware/emsa5/hal/ctrace.h:129-139 | the same for a signed double word and 16 bits |
| Ctrace.ShiftKeepsSign64By32 | firmware/emsa5/hal/ctrace.h:129-139 | the same for 32 bits |
| Ctrace.ShiftKeepsSign64By48 | firmware/emsa5/hal/ctrace.h:129-139 | the same for 48 bits |
| Ctrace.SignedShift32 | firmware/emsa5/hal/ctrace.h:121-127 | the sign bits an arithmetic right shift copies in are masked off, so a signed value has the fragments of its bit pattern |
| Ctrace.SignedShift64 | firmware/emsa5/hal/ctrace.h:129-139 | the same for the three shifts of a 64-bit signed value |
| Ctrace.TraceUnit.EmitDataRaw | firmware/emsa5/hal/ctrace.h:54-58 | appends one direct-data word to what the command register received |
| Ctrace.TraceUnit.EmitMarker | firmware/emsa5/hal/ctrace.h:30-37 | appends the word of the marker, its tag in the low data bits |
| Ctrace.TraceUnit.EmitPc | firmware/emsa5/hal/ctrace.h:39-42 | appends the same word as marker 0 |
| Ctrace.TraceUnit.EmitNop | firmware/emsa5/hal/ctrace.h:44-47 | appends the word of the empty command |
| Ctrace.TraceUnit.EmitSync | firmware/emsa5/hal/ctrace.h:49-52 | appends the word of the synchronisation command |
| Ctrace.TraceUnit.EmitDataU8 | firmware/emsa5/hal/ctrace.h:81-84 | appends the encoding of an unsigned byte |
| Ctrace.TraceUnit.EmitDataU16 | firmware/emsa5/hal/ctrace.h:86-89 | appends the encoding of an unsigned half word |
| Ctrace.TraceUnit.EmitDataU32 | firmware/emsa5/hal/ctrace.h:91-97 | appends the two fragments of an unsigned word, low half first |
| Ctrace.TraceUnit.EmitDataU64 | firmware/emsa5/hal/ctrace.h:99-109 | appends the four fragments of an unsigned double word, lowest first |
| Ctrace.TraceUnit.EmitDataS8 | firmware/emsa5/hal/ctrace.h:111-114 | appends the encoding of a signed byte |
| Ctrace.TraceUnit.EmitDataS16 | firmware/emsa5/hal/ctrace.h:116-119 | appends the encoding of a signed half word |
| Ctrace.TraceUnit.EmitDataS32 | firmware/emsa5/hal/ctrace.h:121-127 | appends the fragments of a signed word although its shift is arithmetic |
| Ctrace.TraceUnit.EmitDataS64 | firmware/emsa5/hal/ctrace.h:129-139 | appends the fragments of a signed double word although its shifts are arithmetic |
| Ctrace.TraceUnit.EmitDataF32 | firmware/emsa5/hal/ctrace.h:141-149 | appends the fragments of a single-precision bit pattern |
| Ctrace.TraceUnit.EmitDataF64 | firmware/emsa5/hal/ctrace.h:151-163 | appends the fragments of a double-precision bit pattern |
| Ctrace.TraceUnit.EmitDataP32 | firmware/emsa5/hal/ctrace.h:165-173 | appends the fragments of a 32-bit pointer |
| Ctrace.TraceUnit.OwnershipTrace | firmware/emsa5/hal/ctrace.h:186-189 | appends the ownership message of the id |
| CtraceTest.PhasesRotate | firmware/emsa5/asw/ctrace_test/ctrace_test.c:10-57 | the eight phases rotate in order from any initial counter, also across its wrap at 2^32 |
| CtraceTest.CounterCounts | firmware/emsa5/asw/ctrace_test/ctrace_test.c:10-57 | the counter after n calls is the initial one plus n, modulo 2^32 |
| CtraceTest.PlainPhases | firmware/emsa5/asw/ctrace_test/ctrace_test.c:12-22 | phases 0, 1 and 7 write the four marker bytes, the program counter and a nop, and two pointers |
| CtraceTest.UnsignedExtremes | firmware/emsa5/asw/ctrace_test/ctrace_test.c:23-32 | phases 2 and 3 write the smallest and the largest value of every unsigned width |
| CtraceTest.SignedExtremes | firmware/emsa5/asw/ctrace_test/ctrace_test.c:33-42 | phases 4 and 5 write the smallest and the largest value of every signed width |
| CtraceTest.FloatPhase | firmware/emsa5/asw/ctrace_test/ctrace_test.c:43-50 | phase 6 leaves out the floating-point types the processor does not have |
| CtraceTest.FloatValues | firmware/emsa5/asw/ctrace_test/ctrace_test.c:48-50 | the bit patterns are those of 0.5 and of the double nearest to 2.2 |
| CtraceTest.TestProgram.TestMain | firmware/emsa5/asw/ctrace_test/ctrace_test.c:8-57 | one call appends exactly the encoding of the messages of the current phase, floating-point ones only where the processor has the extension, and advances the counter |
| SchedulerSafety.MainSafe | firmware/emsa5/scheduler.c:64-94 | a main step keeps every slot NULL or its own task, the slot being served occupied, and no NULL dereferenced |
| SchedulerSafety.TickSafe | firmware/emsa5/scheduler.c:98-107 | so does a tick |
| SchedulerSafety.TickKeepsServedSlot | firmware/emsa5/scheduler.c:66-71 | while main serves a slot no tick changes it: all volatile reads of one round agree |
| SchedulerModel.ReleaseTable | firmware/emsa5/scheduler.c:28-33 | every fifth, tenth, hundredth and thousandth count releases the four tasks |
| SchedulerSafety.AbsorbedWhileServed | firmware/emsa5/scheduler.c:67-70 | a release that comes before the task has returned and the slot is cleared is absorbed |
| SchedulerSafety.VariantsAgree | firmware/emsa5/scheduler.c:65-94 | the loop and the unrolled sweep reach the same state, trace included, under every interleaving |
| SchedulerSafety.RunConserves | firmware/emsa5/scheduler.c:66-107 | in every reachable state of every interleaving, of any length, every release of a task was completed, absorbed by an occupied slot, or is pending |
| SchedulerSafety.ReleasesClosed | firmware/emsa5/scheduler.c:98-107 | the number of releases in any number of ticks in closed form, with the extra release each wrap of the 32-bit counter brings |
| SchedulerSafety.ConservationByTicks | firmware/emsa5/scheduler.c:98-107 | ticks / period = completed + absorbed + pending holds if and only if the excess of the counter's wraps is below one period; it holds in all runs shorter than 2^32 ticks and is off by one for every task at 2^32 |
| SchedulerOverload.NoOverload | firmware/emsa5/scheduler.c:62-107 | if at most bound ticks fall within any sweep and 2 * bound <= period, no release of the task is absorbed in any interleaving of any length, and up to the end of the loop completions are ticks / period, less one if the slot is pending |
| SchedulerOverload.OverloadExactly | firmware/emsa5/scheduler.c:62-107 | for every task, every bound and every initial state: no interleaving with at most bound ticks in a sweep absorbs a release if and only if 2 * bound <= period |
| SchedulerOverload.WorstRun | firmware/emsa5/scheduler.c:64-72 | a run with at most bound ticks in a sweep in which the task comes due just behind its test and is still unserved 2 * bound ticks later |
| SchedulerOverload.ReturnsInTicks | firmware/emsa5/task_1000ms.c:21-29 | with at most bound ticks in a sweep scheduler_run has returned once more than 999 + 2 * bound ticks have come, in every interleaving |
| SchedulerOverload.ReturnsExactly | firmware/emsa5/task_1000ms.c:21-29 | for every positive bound that is the least such number of ticks |
| SchedulerTiming.BoundedBypass | firmware/emsa5/scheduler.c:64-72 | while a slot waits to be served, every other task starts at most once, whatever ticks arrive, and not at all if main gets to the waiting slot first |
| SchedulerTiming.WaitingTaskStarts | firmware/emsa5/scheduler.c:64-72 | a waiting task is started, or the loop has returned, within a number of main steps that no tick raises |
| SchedulerTiming.LoopReturns | firmware/emsa5/scheduler.c:56-72 | once the 1000 ms slot is set, a measure on the position of main that no tick raises brings the loop to its end |
| SchedulerTiming.StepBounds | firmware/emsa5/scheduler.c:62-72 | the two measures are at most 102 and 59 main steps |
| SchedulerTiming.SchedulerReturns | firmware/emsa5/task_1000ms.c:21-29 | from initialisation, once 1000 ticks have come, 59 further main steps end scheduler_run in every interleaving |
| SchedulerTrace.RunShape | firmware/emsa5/scheduler.c:28-72 | in every run the decoded messages are, in order, an owner message of number i + 1 for every announcement of task i, directly followed by the next test phase for number 3 and by nothing for the others; ids strictly ascend within a sweep; id 4 appears at most once, not before tick 1000, as the last message; and the loop has returned only after it |
| SchedulerTrace.RunTrace | firmware/emsa5/scheduler.c:66-71 | the words of any run, with those the running task has still to write, decode to exactly the ownership ids with a test phase after each id 3, the phases rotating from any initial counter; no ownership message splits a value |
| SchedulerTrace.AnnouncedWord | firmware/emsa5/scheduler.c:28-33 | announcing task i writes the ownership word of number i + 1, given in hexadecimal |
| Scheduler.DriveRun | firmware/emsa5/scheduler.c:62-107 | an execution under an interrupt schedule is a run of the transition system, so all of the above holds of it |
| Scheduler.ScheduleGrows | firmware/emsa5/scheduler.c:98-107 | what a schedule means: entry k is the number of interrupts before access k, and the entries add up |
| Scheduler.DrivesAgree | firmware/emsa5/scheduler.c:65-94 | the two variants go through the same states under the same schedule |
| Scheduler.FinishedRun | firmware/emsa5/scheduler.c:39-96 | the same of what a finished execution wrote, whose last message is the owner message of number 4 |
| Scheduler.SchedulerProgram.Init | firmware/emsa5/scheduler.c:39-46 | leaves a state in which every slot is empty and no tick has come, whatever the globals held |
| Scheduler.SchedulerProgram.Next | firmware/emsa5/scheduler.c:98-107 | one tick of the transition system, on the real tick counter and queue |
| Scheduler.SchedulerProgram.CallThroughSlot | firmware/emsa5/scheduler.c:69 | the call through the slot runs the body of the slot's own task to its end |
| Scheduler.SchedulerProgram.CallByName | firmware/emsa5/scheduler.c:73-94 | so does the call by name |
| Scheduler.SchedulerProgram.Task100ms | firmware/emsa5/task_100ms.c:18-23 | writes the next test phase and advances its counter |
| Scheduler.SchedulerProgram.Task1000ms | firmware/emsa5/task_1000ms.c:21-29 | stops the scheduler |
| Scheduler.SchedulerProgram.ServeSlot | firmware/emsa5/scheduler.c:66-72 | one round of the loop is the corresponding main steps under the same interrupts |
| Scheduler.SchedulerProgram.RunLoop | firmware/emsa5/scheduler.c:62-72 | terminates once the schedule brings 1000 ticks, and its final state is that of the transition system |
| Scheduler.SchedulerProgram.RunUnrolled | firmware/emsa5/scheduler.c:73-94 | the same for the unrolled sweep |
| Scheduler.SchedulerProgram.Start | firmware/emsa5/scheduler.c:39-96 | initialisation and loop together: terminates with the scheduler stopped, and the words written decode to owner messages and tests of that shape, the last one owner 4 |
| Led.InterruptedLinearises | firmware/emsa5/hal/led.c:50-59 | a covered call interrupted between load and store acts as if the handler's calls had come first |
| Led.SafeExactlyIfCovered | firmware/emsa5/hal/led.c:23-60 | for any two LEDs an interrupting update is never lost if and only if it touches no bit that the interrupted call merely writes back |
| Led.LostUpdate | firmware/emsa5/hal/led.c:50-59 | for every other pair a register and two statuses that lose the update |
| Led.UpdatesLinearise | firmware/emsa5/handler.c:41-76 | for the firmware's call sites every interleaving leaves the register as a sequential order of all calls does |
| Led.ShowsLastCall | firmware/emsa5/hal/led.c:23-60 | after any sequence of calls every bit shows the last call covering it, or its first value |
| Led.LedBits | firmware/emsa5/hal/led.c:28-48 | which bits of which byte each of the eight LEDs drives |
| Led.MergeBits | firmware/emsa5/hal/led.c:50-59 | under the mask the new byte shows the status, elsewhere the old byte |
| Led.OnAndOff | firmware/emsa5/hal/led.h:28-31 | ON sets all bits of the mask and OFF clears them |
| Led.Sites | firmware/emsa5/handler.c:41-76 | the LEDs of the handler and those of main code |
| Led.Gpio.LedToggle | firmware/emsa5/hal/led.c:23-60 | updates the LED's bits of its byte and nothing else |
| Led.Gpio.LedToggleInterrupted | firmware/emsa5/hal/led.c:50-59 | the load, the handler's calls and the store, in memory, equal the sequential order with main's call last |
| Handler.TrapShows | firmware/emsa5/handler.c:38-77 | after a trap LED k is lit exactly if source k was pending; all other bits of the register are unchanged |
| Handler.AcksOf | firmware/emsa5/handler.c:41-76 | the acknowledgements of a trap, in order, for each combination of pending sources |
| Handler.TrapHandler.HandleTrap | firmware/emsa5/handler.c:23-82 | an exception changes nothing; an interrupt acknowledges exactly its pending sources and makes their LED calls, in order, and the timer source is exactly one heartbeat and one tick |
| UdpLog.Le32RoundTrip | tools/udplog/udplog.py:31 | a 32-bit length reads back from its four bytes, least significant first |
| UdpLog.RecordLayout | tools/udplog/udplog.py:27-37 | every byte of a record: time stamp, microseconds, address, length, data |
| UdpLog.ReaderCases | tools/udp2nexus/main.c:99-118 | when the reader gets a record, and why it stops otherwise, by the bytes that are left |
| UdpLog.Logger.LogData | tools/udplog/udplog.py:27-37 | appends one whole record to the file |
| UdpLog.Logger.Receive | tools/udplog/udplog.py:49-57 | the file grows by the records of all datagrams in order, each cut to 2048 bytes |
| UdpLog.WholeRecordsFit | tools/udp2nexus/main.c:90-118 | the records wholly in the first k bytes of a log are its longest prefix of records that fits |
| UdpLog.ParseTruncated | tools/udp2nexus/main.c:90-118 | reading any byte prefix of a log returns exactly the records wholly in it, and how the reader stops follows from the length of the rest |
| UdpLog.ParseLog | tools/udp2nexus/main.c:90-118 | reading a whole log returns the records written, in order, and ends regularly |
| Udp2Nexus.RunsSegment | tools/udp2nexus/main.c:126-149 | the pieces are non-empty, consecutive inside modulo 2^16, with a jump at every boundary, and join to the log |
| Udp2Nexus.SegmentationUnique | tools/udp2nexus/main.c:126-149 | no other way of cutting has these properties |
| Udp2Nexus.RunCount | tools/udp2nexus/main.c:130-139 | there is one piece more than there are jumps |
| Udp2Nexus.FilesAreRuns | tools/udp2nexus/main.c:62-149 | for every log: the files are the payloads of the pieces behind a leading run that starts at 0xFFFF, and nothing is lost if and only if that run carries no payload |
| Udp2Nexus.Segmentation | tools/udp2nexus/main.c:62-149 | for every log and every first number: the files are the pieces, without a first piece that begins at 0xFFFF; one more than the jumps, or as many if that piece is dropped; and all payloads in log order if and only if the dropped piece has none |
| Udp2Nexus.FirstRunDropped | tools/udp2nexus/main.c:67-70 | a log of one datagram numbered 0xFFFF gives no file although it carries a payload |
| Udp2Nexus.DatagramLayout | tools/udp2nexus/main.c:127-145 | the number has its low byte in byte 4 and its high byte in byte 5, and the payload begins at byte 6 |
| Udp2Nexus.PayloadsSnoc | tools/udp2nexus/main.c:143-147 | the payload of a further datagram is appended from byte 6 on |
| Udp2Nexus.ContentsAt | tools/udp2nexus/main.c:135-138 | file g holds the payloads of piece g |
| Udp2Nexus.HighByteLast | tools/udp2nexus/main.c:127-141 | three datagrams numbered 0x01FF, 0x0200 and 0x0300 give two files, the first with two payloads |
| Udp2Nexus.OverrunExactly | tools/udp2nexus/main.c:114-147 | for every log, short datagrams included, and any first buffer contents: a write of a length below zero is reached if and only if a datagram shorter than six bytes comes behind the leading run from 0xFFFF; otherwise the files are the pieces behind that run |
| Udp2Nexus.Converter.NextEntry | tools/udp2nexus/main.c:90-150 | reads one record, reports a regular end, a cut or an oversized record, or hands the datagram, of whatever length, to the open file, reporting an overrun |
| Udp2Nexus.Converter.Dump | tools/udp2nexus/main.c:126-149 | opens a new file at a jump and appends the bytes from the seventh on; overruns exactly for a short datagram with a file open or at a jump |
| Udp2Nexus.Converter.ParseFile | tools/udp2nexus/main.c:62-88 | for any bytes the loop leaves exactly the files the datagrams of the log determine, or reports the overrun |
| Reassembly.ShortBurstsShow | tools/udp2nexus/main.c:127-141 | a burst of fewer than 65536 lost datagrams always shows as a jump |
| Reassembly.PiecesAreMaximal | tools/udp2nexus/main.c:127-148 | the arrived positions form intervals of the sent stream that lie at least one lost datagram apart |
| Reassembly.PiecesHoldArrivals | tools/udp2nexus/main.c:127-148 | the intervals hold exactly the positions that arrived |
| Reassembly.StampedNumbered | tools/udp2nexus/main.c:127-128 | a sender that counts in bytes 4 and 5, low byte first, is read as consecutive numbers modulo 2^16 |
| Reassembly.PieceContentsAt | tools/udp2nexus/main.c:143-147 | file g holds the payloads of interval g of what was sent |
| Reassembly.ReassemblyOverLoss | tools/udp2nexus/main.c:127-148 | for any first sequence number: unless a burst of losses is a positive multiple of 65536 long, each file is the payload of one such interval, so file boundaries fall exactly at the losses, across wraps too; only a first interval that begins at 0xFFFF has no file |
| Reassembly.ReassemblyExactly | tools/udp2nexus/main.c:127-148 | the files are the payloads of those intervals if and only if no burst is a positive multiple of 65536 long |
| Reassembly.FilesCountLosses | tools/udp2nexus/main.c:130-139 | there is one file per loss, plus one unless the first interval begins at 0xFFFF, if and only if no burst is a positive multiple of 65536 long |
| Reassembly.CaptureOverLoss | tools/udp2nexus/main.c:62-149 | the same equivalence from a sender that counts in bytes 4 and 5 of its datagrams, through the logger, the log and its reader, to the files |
| Watchpoints.TextOrderIsNumeric | scripts/trc_fs_cfg_trace.sh:162-168 | sorting zero-padded decimals of any one width as text is sorting the numbers |
| Watchpoints.PadDigits | scripts/trc_fs_cfg_trace.sh:165 | the padded key shows the decimal digits, last digit last |
| Watchpoints.SortOrders | scripts/trc_fs_cfg_trace.sh:167-169 | the text sort leaves the rows in numeric order and keeps every one |
| Watchpoints.DuplicateIffShared | scripts/trc_fs_cfg_trace.sh:171-174 | the duplicate error comes exactly when two pairs share a PC, or there is no pair |
| Watchpoints.OrderIndependent | scripts/trc_fs_cfg_trace.sh:151-200 | the outcome, the whole table included, is the same for every order of the arguments |
| Watchpoints.OrderedUnique | scripts/trc_fs_cfg_trace.sh:167-169 | the sorted arrangement of the rows is unique, so it does not matter how the sort works |
| Watchpoints.KeyReading | scripts/trc_fs_cfg_trace.sh:178-180 | the padded key is read as an octal numeral, or an error, unless the number has ten digits |
| Watchpoints.RejectsExactly | scripts/trc_fs_cfg_trace.sh:176-185 | which smallest addresses the sentinel check rejects, for every number of sentinels |
| Watchpoints.AscendingExactly | scripts/trc_fs_cfg_trace.sh:151-200 | for 1 to 15 distinct PCs: when the table is rejected, and that an accepted table has 15 slots and is strictly ascending if and only if the smallest PC is not one of 8, 9, 18, 19 at or below the last sentinel |
| Watchpoints.TableRows | scripts/trc_fs_cfg_trace.sh:187-199 | an accepted table has 15 slots: sentinels 1, 3, 5, ... with command 0, and then all the given pairs |
| Watchpoints.TooManyIffOver15 | scripts/trc_fs_cfg_trace.sh:160 | more than 15 pairs, and only those, are too many |
| Watchpoints.PaddedEightPasses | scripts/trc_fs_cfg_trace.sh:178-180 | a lone watchpoint at address 8 is accepted although its table is not ascending |
| Watchpoints.EvenLookup | scripts/trc_fs_cfg_trace.sh:153-156 | in every accepted table each even PC has exactly the command given for it, in one slot, or none, as a comparison with all slots finds it; for the accepted tables that do not ascend, which AscendingExactly names, this is no statement about hardware that relies on the order |
| Watchpoints.ScriptMatchesFirmware | scripts/trc_fs_cfg_trace.sh:143-149 | the script's 64-bit shell arithmetic and the firmware build the same command word |
| Watchpoints.ReadBack | scripts/trc_fs_cfg_trace.sh:187-199 | every slot register reads back the address or command of its row |
| Watchpoints.SlotRegisters | scripts/trc_fs_cfg_trace.sh:106-107 | slot k is at 0xa0904100 + 8 k, its command four bytes on |
| Watchpoints.AndBits | scripts/trc_fs_cfg_trace.sh:16 | a bit of the masked value is set exactly if it is set in value and mask |
| Watchpoints.BitIsDigit | scripts/trc_fs_cfg_trace.sh:16 | which binary digits bits 0 to 3 are |
| Watchpoints.AndAgrees | scripts/trc_fs_cfg_trace.sh:22-23 | masked values are equal exactly if the values differ only in bits clear in the mask |
| Watchpoints.ControlMask | scripts/trc_fs_cfg_trace.sh:46-47 | under the mask 0xfffffff7 a difference in bit 3 does not count |
| Watchpoints.TraceRegisters.VerifiedWrite | scripts/trc_fs_cfg_trace.sh:14-36 | succeeds if and only if some read-back within the retries differs from the value only in bits clear in the mask, and stops at the first; changes no other register; under the full mask the register then holds the value |
| Watchpoints.TraceRegisters.CheckArguments | scripts/trc_fs_cfg_trace.sh:160-185 | the checks in the script's order give the outcome that Build defines, with the rows still to be written |
| Watchpoints.TraceRegisters.SetWatchpoints | scripts/trc_fs_cfg_trace.sh:157-200 | nothing is written on an error; without a failed write the slots hold exactly the table; with fewer than eight faulty writes ahead none fails, and eight that leave the first address wrong are reported; registers outside 0xa0904100 to 0xa0904177 never change |
| TraceContexts.ProductFits | firmware/emsa5/asw/scenarios_a3/trace_contexts.c:7-19 | the product of two shorts stays within 2^30, so no 32-bit intermediate overflows |
| TraceContexts.WrapOnce | firmware/emsa5/asw/scenarios_a3/trace_contexts.c:18-19 | wrapping to 16 bits at every step equals wrapping once |
| TraceContexts.ScaledFloor | firmware/emsa5/asw/scenarios_a3/trace_contexts.c:7 | the scaled product is the exact product divided by 2^15, rounded down |
| TraceContexts.DotSums | firmware/emsa5/asw/scenarios_a3/trace_contexts.c:16-20 | the sums are of exact products of the elements |
| TraceContexts.AfterCalls | firmware/emsa5/asw/scenarios_a3/trace_contexts.c:64-69 | after any k calls of math each a[i] is its first value plus the sum of floor(c_j * b[i] / 2^15), wrapped once; c_j and the output likewise; b is unchanged |
| TraceContexts.ScalerPeriod | firmware/emsa5/asw/scenarios_a3/trace_contexts.c:64-69 | the scaler c repeats every 65536 calls |
| TraceContexts.Kernels.VecMpy1 | firmware/emsa5/asw/scenarios_a3/trace_contexts.c:3-8 | every element gains floor(scaler * x[i] / 2^15), wrapped to 16 bits |
| TraceContexts.Kernels.Mac | firmware/emsa5/asw/scenarios_a3/trace_contexts.c:11-24 | both results are one wrap of the exact sums of 100 products |
| TraceContexts.Kernels.Math | firmware/emsa5/asw/scenarios_a3/trace_contexts.c:64-69 | one call is one step of the function that AfterCalls iterates: each a[i] gains its scaled product, and c and output the exact sums over b and the new a, each wrapped once |
| TraceContexts.NoInversionIffDescending | firmware/emsa5/asw/scenarios_a3/trace_contexts.c:75-101 | there is no pair out of order exactly in a descending sequence |
| TraceContexts.SwapRemovesOne | firmware/emsa5/asw/scenarios_a3/trace_contexts.c:90-95 | every store of the sort removes exactly one pair out of order |
| TraceContexts.WorstCase | firmware/emsa5/asw/scenarios_a3/trace_contexts.c:71-73 | no input needs more than n(n-1)/2 swaps, and exactly the strictly ascending ones, like the initial array, need as many |
| TraceContexts.DescendingUnique | firmware/emsa5/asw/scenarios_a3/trace_contexts.c:75-101 | the descending arrangement of the elements is unique |
| TraceContexts.Kernels.Bs | firmware/emsa5/asw/scenarios_a3/trace_contexts.c:75-101 | for any length and contents: arr[0] is untouched, arr[1..] ends as the descending permutation of its input, the number of swaps is the number of pairs out of order, and none is left, so a second call stores nothing |
| Dhrystone.Benchmark.StrcmpX | firmware/emsa5/asw/scenarios_a3/dhrystone.c:15-21 | the result is the first difference, zero exactly for equal strings; the counter advances over the common prefix |
| Dhrystone.Benchmark.StrcpyX | firmware/emsa5/asw/scenarios_a3/dhrystone.c:23-29 | the target holds the text and its terminator, the rest is unchanged, and the counter advances by the length |
| Dhrystone.Texts | firmware/emsa5/asw/scenarios_a3/dhrystone.c:121-133 | the three texts, and the terminator |
| Dhrystone.Benchmark.Dhry | firmware/emsa5/asw/scenarios_a3/dhrystone.c:86-92 | from any prior state returns 855, with the same final records, globals and array elements, and no other array element changed |
| Dhrystone.Benchmark.Proc1 | firmware/emsa5/asw/scenarios_a3/dhrystone.c:156-181 | what the parameter, the global record and the next record hold afterwards, in both branches and for every way they can alias, as long as no null link is followed |
| Dhrystone.Benchmark.Proc2 | firmware/emsa5/asw/scenarios_a3/dhrystone.c:183-202 | one round of the loop suffices, and adds nine less IntGlob |
| Dhrystone.Benchmark.Proc6 | firmware/emsa5/asw/scenarios_a3/dhrystone.c:234-251 | the result and the count for each of the five values |
| Dhrystone.Benchmark.Proc8 | firmware/emsa5/asw/scenarios_a3/dhrystone.c:262-278 | every element of both arrays, for every index that stays in bounds |
| Dhrystone.Benchmark.Func2 | firmware/emsa5/asw/scenarios_a3/dhrystone.c:297-327 | terminates if the second character of one string and the third of the other differ, and then compares the strings |

## Left out

- Dhrystone.Benchmark.Func2: strings on which its loop never advances are excluded, because the source does not return on them.
- Dhrystone.Benchmark.Proc2: Char1Glob must be 'A', because otherwise the source reads an unset local.
- Udp2Nexus.Converter.ParseFile: stops at a write of a length below zero, because C gives it no meaning.
- Scheduler.SchedulerProgram.Task100ms: of its two calls only the one that writes to the trace; the other, task_100ms_nexus, shifts by 32 and more, which C leaves undefined.
- Scheduler.SchedulerProgram.Task1000ms: only its effect on the scheduler; its LED calls are call sites of the LED model, and the wait, the fixed instruction sequence and the timer register have no effect modelled here.
- Handler.TrapHandler.HandleTrap: without ISR2_minmax, which touches globals of its own and whose products can overflow int, and with the pending bits read once.
- Dhrystone.Benchmark.Proc3: its branch for a null PtrGlb, after which the source dereferences it.
- Boot, start and trap entry code in assembler: the trap handler is one atomic step, and its entry and exit are not modelled.
- Timer, interrupt controller and GPIO registers: a tick is an event, and the output register is plain memory.
- The busy waiting, the instruction tests and the LEDs inside the tasks of the scheduler model; tasks return.
- minmax.c: short functions that a single reading settles.
- mem_loader.c and mem_dump.c: device files and a copy loop.
- The network set-up script, the echo scripts and the decoder scripts: arguments for foreign tools.
- The instruction sequence of asm_test: fixed results for one input.
- The remaining steps of the configuration script: fixed register values; and resolving names to numbers, a table lookup.
- Sockets, clocks, printing and file names of the two host tools; opening and writing files succeeds.
- Reordered or repeated datagrams: the channel only loses.
- Big-endian hosts: the logger writes the microseconds in the byte order of the host.
- Overflow of int in Dhrystone: the values it computes are far from it.
